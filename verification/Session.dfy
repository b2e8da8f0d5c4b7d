/** What each client operation does to the wire. */
module Session {
  import opened Bytes
  import opened Wrappers
  import opened Types
  import opened Link
  import Interpolation
  import Writer

  datatype QueryResult = QueryResult(columns: seq<ColumnMetaData>, rows: seq<Row>, totalCount: i32)

  /** `fetch_remaining` from the moment `fetched` rows are counted and `rows` are here. */
  function FetchRemaining(w: Wire, handle: i32, columns: seq<ColumnMetaData>, stmt: StatementType, total: i32,
                          fetched: i32, rows: seq<Row>)
    : (r: (Outcome<seq<Row>, ClientError>, Wire))
    decreases |w.input|
  {
    if fetched >= total then (Ok(rows), w)
    else
      var (reply, w) := Call(w, AskFetch(handle, fetched, columns, stmt));
      match reply
      case Err(e) => (Err(e), w)
      case Crash => (Crash, w)
      case Ok(answer) =>
        var count := answer.batch.tupleCount;
        if count == 0 then (Ok(rows), w)
        else if !(-0x8000_0000 <= fetched + count <= I32_MAX) then (Crash, w)
        else FetchRemaining(w, handle, columns, stmt, total, fetched + count, rows + answer.batch.rows)
  }

  /** The rows of a SELECT, the inline ones first. */
  function AllRows(w: Wire, handle: i32, columns: seq<ColumnMetaData>, stmt: StatementType, total: i32,
                   rows: seq<Row>)
    : (Outcome<seq<Row>, ClientError>, Wire)
  {
    if stmt.IsSelect() && AsI32(|rows|) < total
    then FetchRemaining(w, handle, columns, stmt, total, AsI32(|rows|), rows)
    else (Ok(rows), w)
  }

  /** `close_query_handle`: whatever happens is ignored. */
  function Release(w: Wire, handle: i32): Wire {
    if handle > 0 then Call(w, AskClose(handle)).1 else w
  }

  /** The sum of the result counts; None when it does not fit a u64. */
  function Affected(infos: seq<ResultInfo>, sum: u64): Option<u64> {
    if infos == [] then Some(sum)
    else if sum + AsUsize(infos[0].resultCount) >= USIZE_SPAN then None
    else Affected(infos[1..], sum + AsUsize(infos[0].resultCount))
  }

  /** What the counts add up to, negative ones as `as u64` makes them. */
  function Total(infos: seq<ResultInfo>): nat {
    if infos == [] then 0 else AsUsize(infos[0].resultCount) + Total(infos[1..])
  }

  function PlainTotal(infos: seq<ResultInfo>): int {
    if infos == [] then 0 else infos[0].resultCount + PlainTotal(infos[1..])
  }

  /** The running sum is the total exactly when that fits, in whatever order it grows. */
  lemma {:induction false} AffectedExactly(infos: seq<ResultInfo>, sum: u64)
    ensures Affected(infos, sum)
            == if sum + Total(infos) < USIZE_SPAN then Some(sum + Total(infos)) else None
  {
    if infos != [] && sum + AsUsize(infos[0].resultCount) < USIZE_SPAN {
      AffectedExactly(infos[1..], sum + AsUsize(infos[0].resultCount));
    }
  }

  /** That is the sum of the counts if and only if none is negative: each negative one adds 2^64. */
  lemma {:induction false} TotalIsPlain(infos: seq<ResultInfo>)
    ensures Total(infos) >= PlainTotal(infos)
    ensures Total(infos) == PlainTotal(infos) <==> forall i :: i in infos ==> i.resultCount >= 0
  {
    if infos != [] {
      TotalIsPlain(infos[1..]);
      assert forall i :: i in infos <==> i == infos[0] || i in infos[1..];
    }
  }

  function AffectedOrCrash(infos: seq<ResultInfo>): Outcome<u64, ClientError> {
    match Affected(infos, 0)
    case Some(n) => Ok(n)
    case None => Crash
  }

  /** A client: `open` says whether `conn` is still there. */
  datatype ClientState = ClientState(open: bool, wire: Wire, autoCommit: bool, proto: int)

  /** A prepared statement. */
  datatype StatementState = StatementState(
    handle: i32, statementType: StatementType, bindCount: i32, columns: seq<ColumnMetaData>, closed: bool,
    sql: string)

  function Interpolated(sql: string, params: seq<Value>, floats: Interpolation.FloatText): string {
    Interpolation.Substitute(sql, Interpolation.Fills(params, floats), false)
  }

  function Execute(c: ClientState, sql: string): (Outcome<u64, ClientError>, ClientState) {
    if !c.open then (Err(ConnectionClosed), c)
    else
      var (reply, w) := Call(c.wire, AskRun(sql, c.autoCommit, c.proto));
      match reply
      case Err(e) => (Err(e), c.(wire := w))
      case Crash => (Crash, c.(wire := w))
      case Ok(answer) => (AffectedOrCrash(answer.run.resultInfos), c.(wire := Release(w, answer.run.queryHandle)))
  }

  function Query(c: ClientState, sql: string): (Outcome<QueryResult, ClientError>, ClientState) {
    if !c.open then (Err(ConnectionClosed), c)
    else
      var (reply, w) := Call(c.wire, AskRun(sql, c.autoCommit, c.proto));
      match reply
      case Err(e) => (Err(e), c.(wire := w))
      case Crash => (Crash, c.(wire := w))
      case Ok(answer) =>
        var p := answer.run;
        var (rows, w) := AllRows(w, p.queryHandle, p.columns, p.statementType, p.totalTupleCount, p.rows);
        match rows
        case Err(e) => (Err(e), c.(wire := w))
        case Crash => (Crash, c.(wire := w))
        case Ok(all) => (Ok(QueryResult(p.columns, all, p.totalTupleCount)), c.(wire := Release(w, p.queryHandle)))
  }

  function Prepare(c: ClientState, sql: string): (Outcome<StatementState, ClientError>, ClientState) {
    if !c.open then (Err(ConnectionClosed), c)
    else
      var (reply, w) := Call(c.wire, AskPrepare(sql, c.autoCommit));
      match reply
      case Err(e) => (Err(e), c.(wire := w))
      case Crash => (Crash, c.(wire := w))
      case Ok(answer) =>
        var p := answer.prepared;
        (Ok(StatementState(p.queryHandle, p.statementType, p.bindCount, p.columns, false, sql)), c.(wire := w))
  }

  const COMMIT: byte := 1
  const ROLLBACK: byte := 2

  /** `end_tran` */
  function EndTran(c: ClientState, action: byte): (Outcome<(), ClientError>, ClientState) {
    if !c.open then (Err(ConnectionClosed), c)
    else
      var (reply, w) := Call(c.wire, AskEnd(action));
      match reply
      case Err(e) => (Err(e), c.(wire := w))
      case Crash => (Crash, c.(wire := w))
      case Ok(_) => (Ok(()), c.(wire := w))
  }

  function Commit(c: ClientState): (Outcome<(), ClientError>, ClientState) { EndTran(c, COMMIT) }

  function Rollback(c: ClientState): (Outcome<(), ClientError>, ClientState) { EndTran(c, ROLLBACK) }

  function Ping(c: ClientState): (Outcome<string, ClientError>, ClientState) {
    if !c.open then (Err(ConnectionClosed), c)
    else
      var (reply, w) := Call(c.wire, AskVersion(c.autoCommit));
      match reply
      case Err(e) => (Err(e), c.(wire := w))
      case Crash => (Crash, c.(wire := w))
      case Ok(answer) => (Ok(answer.version), c.(wire := w))
  }

  /** `close`: a last request that is not waited for. */
  function Close(c: ClientState): ClientState {
    if c.open then c.(open := false, wire := Send(c.wire, AskLeave, Writer.Frame(Body(AskLeave), c.wire.cas)).1)
    else c
  }

  // Statements. With parameters they fall back on interpolation and a fresh execution.

  function StatementExecute(s: StatementState, c: ClientState, params: seq<Value>, floats: Interpolation.FloatText)
    : (Outcome<u64, ClientError>, ClientState)
  {
    if s.closed then (Err(ConnectionClosed), c)
    else if params != [] then Execute(c, Interpolated(s.sql, params, floats))
    else if !c.open then (Err(ConnectionClosed), c)
    else
      var (reply, w) := Call(c.wire, AskExecute(s.handle, s.statementType, s.columns, c.autoCommit, c.proto));
      match reply
      case Err(e) => (Err(e), c.(wire := w))
      case Crash => (Crash, c.(wire := w))
      case Ok(answer) => (AffectedOrCrash(answer.executed.resultInfos), c.(wire := w))
  }

  function StatementQuery(s: StatementState, c: ClientState, params: seq<Value>, floats: Interpolation.FloatText)
    : (Outcome<QueryResult, ClientError>, ClientState)
  {
    if s.closed then (Err(ConnectionClosed), c)
    else if params != [] then Query(c, Interpolated(s.sql, params, floats))
    else if !c.open then (Err(ConnectionClosed), c)
    else
      var (reply, w) := Call(c.wire, AskExecute(s.handle, s.statementType, s.columns, c.autoCommit, c.proto));
      match reply
      case Err(e) => (Err(e), c.(wire := w))
      case Crash => (Crash, c.(wire := w))
      case Ok(answer) =>
        var e := answer.executed;
        var (rows, w) := AllRows(w, s.handle, s.columns, s.statementType, e.totalTupleCount, e.rows);
        match rows
        case Err(e) => (Err(e), c.(wire := w))
        case Crash => (Crash, c.(wire := w))
        case Ok(all) => (Ok(QueryResult(s.columns, all, e.totalTupleCount)), c.(wire := w))
  }

  /** `close`: at most one close request over the statement's life. */
  function StatementClose(s: StatementState, c: ClientState): (StatementState, ClientState) {
    if s.closed then (s, c)
    else if s.handle > 0 then
      (s.(closed := true, handle := 0), if c.open then c.(wire := Release(c.wire, s.handle)) else c)
    else (s.(closed := true), c)
  }
}
