/** The client and its prepared statements, as objects. */
module Clients {
  import opened Bytes
  import opened Wrappers
  import opened Types
  import opened Response
  import opened Writer
  import opened Request
  import opened Link
  import opened Session
  import Interpolation

  /** The affected rows: the result counts summed as u64. */
  method SumAffected(infos: seq<ResultInfo>) returns (r: Outcome<u64, ClientError>)
    ensures r == AffectedOrCrash(infos)
  {
    var affected: u64 := 0;
    var i := 0;
    while i < |infos|
      invariant 0 <= i <= |infos|
      invariant Affected(infos[i..], affected) == Affected(infos, 0)
    {
      assert infos[i..][1..] == infos[i + 1..];
      var count := AsUsize(infos[i].resultCount);
      if affected + count >= USIZE_SPAN {
        return Crash;
      }
      affected := affected + count;
      i := i + 1;
    }
    return Ok(affected);
  }

  class Client {
    /** In use while `open`: the source's `Option<Connection>`. */
    const conn: Connection
    var open: bool
    var autoCommit: bool
    const protoVersion: int
    const floats: Interpolation.FloatText

    constructor (conn: Connection, autoCommit: bool, protoVersion: int, floats: Interpolation.FloatText)
      ensures this.conn == conn && this.floats == floats
      ensures State() == ClientState(true, conn.Link(), autoCommit, protoVersion)
    {
      this.conn, this.open, this.autoCommit, this.protoVersion, this.floats :=
        conn, true, autoCommit, protoVersion, floats;
    }

    ghost function State(): ClientState
      reads this, conn
    {
      ClientState(open, conn.Link(), autoCommit, protoVersion)
    }

    method InterpolateParams(sql: string, params: seq<Value>) returns (text: string)
      ensures text == Interpolated(sql, params, floats)
    {
      hide Interpolation.Substitute, Interpolation.Fills;
      text := Interpolation.InterpolateParams(sql, params, floats);
    }

    /** PrepareAndExecute, the start of `execute` and `query`. */
    method RunSql(text: string) returns (r: Outcome<PrepareAndExecuteResult, ClientError>)
      requires open
      modifies conn
      ensures (match r case Ok(p) => Ok(Ran(p)) case Err(e) => Err(e) case Crash => Crash, conn.Link())
              == Call(old(conn.Link()), AskRun(text, autoCommit, protoVersion))
    {
      hide Exchange, Frame, ReadPrepareAndExecute, PrepareAndExecuteArgs, Payloads;
      ghost var a := AskRun(text, autoCommit, protoVersion);
      var request := WritePrepareAndExecute(text, autoCommit, conn.casInfo);
      var data := conn.RoundTrip(request, a);
      if data.None? {
        return Err(Io);
      }
      var reply := ParsePrepareAndExecute(data.value, protoVersion);
      match reply
      case Err(e) => return Err(Protocol(e));
      case Crash => return Crash;
      case Ok((result, cas)) =>
        conn.SetCasInfo(cas);
        return Ok(result);
    }

    method Execute(sql: string, params: seq<Value>) returns (r: Outcome<u64, ClientError>)
      modifies conn
      ensures (r, State()) == Session.Execute(old(State()), Interpolated(sql, params, floats))
    {
      hide Call, Interpolated, AffectedOrCrash, Release;
      if !open {
        return Err(ConnectionClosed);
      }
      var text := InterpolateParams(sql, params);
      var result :- RunSql(text);
      if result.queryHandle > 0 {
        CloseQueryHandle(result.queryHandle);
      } else {
        NothingToRelease(conn.Link(), result.queryHandle);
      }
      r := SumAffected(result.resultInfos);
    }

    method CloseQueryHandle(handle: i32)
      requires handle > 0
      modifies conn
      ensures open ==> conn.Link() == Release(old(conn.Link()), handle)
      ensures !open ==> conn.Link() == old(conn.Link())
    {
      hide Exchange, Frame, Payloads, ReadSimple;
      if open {
        var request := WriteCloseReqHandle(handle, conn.casInfo);
        var data := conn.RoundTrip(request, AskClose(handle));
        if data.Some? {
          var _ := ParseSimpleResponse(data.value);
        }
      }
    }

    method FetchBatch(handle: i32, current: Position, columns: seq<ColumnMetaData>, stmt: StatementType)
      returns (r: Outcome<FetchResult, ClientError>)
      requires open
      modifies conn
      ensures (match r case Ok(b) => Ok(Fetched(b)) case Err(e) => Err(e) case Crash => Crash, conn.Link())
              == Call(old(conn.Link()), AskFetch(handle, current, columns, stmt))
    {
      hide Exchange, Frame, ReadFetch, FetchArgs, Payloads;
      var request := WriteFetch(handle, current, DEFAULT_FETCH_SIZE, conn.casInfo);
      var data := conn.RoundTrip(request, AskFetch(handle, current, columns, stmt));
      if data.None? {
        return Err(Io);
      }
      var reply := ParseFetch(data.value, columns, stmt);
      match reply
      case Err(e) => return Err(Protocol(e));
      case Crash => return Crash;
      case Ok((batch, cas)) =>
        conn.SetCasInfo(cas);
        return Ok(batch);
    }

    method FetchRemaining(handle: i32, columns: seq<ColumnMetaData>, stmt: StatementType, totalCount: i32,
                          start: seq<Row>)
      returns (r: Outcome<seq<Row>, ClientError>)
      requires open
      modifies conn
      ensures (r, conn.Link())
              == Session.FetchRemaining(old(conn.Link()), handle, columns, stmt, totalCount, AsI32(|start|), start)
    {
      hide Call, AsI32;
      var rows := start;
      var fetchedCount: i32 := AsI32(|rows|);
      while fetchedCount < totalCount
        invariant Session.FetchRemaining(conn.Link(), handle, columns, stmt, totalCount, fetchedCount, rows)
                  == Session.FetchRemaining(old(conn.Link()), handle, columns, stmt, totalCount, AsI32(|start|), start)
        decreases |conn.input|
      {
        CallAnswers(conn.Link(), AskFetch(handle, fetchedCount, columns, stmt));
        var batch :- FetchBatch(handle, fetchedCount, columns, stmt);
        if batch.tupleCount == 0 {
          break;
        }
        if !(-0x8000_0000 <= fetchedCount + batch.tupleCount <= I32_MAX) {
          return Crash;
        }
        fetchedCount := fetchedCount + batch.tupleCount;
        rows := rows + batch.rows;
      }
      return Ok(rows);
    }

    /** The rows after the inline ones, when there are any. */
    method FetchAll(handle: i32, columns: seq<ColumnMetaData>, stmt: StatementType, totalCount: i32, start: seq<Row>)
      returns (r: Outcome<seq<Row>, ClientError>)
      requires open
      modifies conn
      ensures (r, conn.Link()) == AllRows(old(conn.Link()), handle, columns, stmt, totalCount, start)
    {
      hide Session.FetchRemaining;
      if stmt.IsSelect() && AsI32(|start|) < totalCount {
        r := FetchRemaining(handle, columns, stmt, totalCount, start);
      } else {
        r := Ok(start);
      }
    }

    method Query(sql: string, params: seq<Value>) returns (r: Outcome<QueryResult, ClientError>)
      modifies conn
      ensures (r, State()) == Session.Query(old(State()), Interpolated(sql, params, floats))
    {
      hide Call, Interpolated, AllRows, Release;
      if !open {
        return Err(ConnectionClosed);
      }
      var text := InterpolateParams(sql, params);
      var result :- RunSql(text);
      var rows :- FetchAll(result.queryHandle, result.columns, result.statementType, result.totalTupleCount,
                           result.rows);
      if result.queryHandle > 0 {
        CloseQueryHandle(result.queryHandle);
      } else {
        NothingToRelease(conn.Link(), result.queryHandle);
      }
      return Ok(QueryResult(result.columns, rows, result.totalTupleCount));
    }

    method Prepare(sql: string) returns (r: Outcome<Statement, ClientError>)
      modifies conn
      ensures r.Ok? ==> fresh(r.value)
      ensures (match r case Ok(s) => Ok(s.State()) case Err(e) => Err(e) case Crash => Crash, State())
              == Session.Prepare(old(State()), sql)
    {
      hide Exchange, Frame, ReadPrepare, PrepareArgs, Payloads;
      if !open {
        return Err(ConnectionClosed);
      }
      var request := WritePrepare(sql, autoCommit, conn.casInfo);
      var data := conn.RoundTrip(request, AskPrepare(sql, autoCommit));
      if data.None? {
        return Err(Io);
      }
      var reply := ParsePrepare(data.value);
      match reply
      case Err(e) => return Err(Protocol(e));
      case Crash => return Crash;
      case Ok((result, cas)) =>
        conn.SetCasInfo(cas);
        var s := new Statement(result.queryHandle, result.statementType, result.bindCount, result.columns, sql);
        return Ok(s);
    }

    method EndTran(action: byte) returns (r: Outcome<(), ClientError>)
      modifies conn
      ensures (r, State()) == Session.EndTran(old(State()), action)
    {
      hide Exchange, Frame, ReadSimple, Payloads;
      if !open {
        return Err(ConnectionClosed);
      }
      var request := WriteByteRequest(END_TRAN, action, conn.casInfo);
      var data := conn.RoundTrip(request, AskEnd(action));
      if data.None? {
        return Err(Io);
      }
      var reply := ParseSimpleResponse(data.value);
      match reply
      case Err(e) => return Err(Protocol(e));
      case Crash => return Crash;
      case Ok(cas) =>
        conn.SetCasInfo(cas);
        return Ok(());
    }

    method Commit() returns (r: Outcome<(), ClientError>)
      modifies conn
      ensures (r, State()) == Session.Commit(old(State()))
    {
      hide Session.EndTran;
      r := EndTran(COMMIT);
    }

    method Rollback() returns (r: Outcome<(), ClientError>)
      modifies conn
      ensures (r, State()) == Session.Rollback(old(State()))
    {
      hide Session.EndTran;
      r := EndTran(ROLLBACK);
    }

    method Ping() returns (r: Outcome<string, ClientError>)
      modifies conn
      ensures (r, State()) == Session.Ping(old(State()))
    {
      hide Exchange, Frame, ReadDbVersion, Payloads;
      if !open {
        return Err(ConnectionClosed);
      }
      var request := WriteByteRequest(GET_DB_VERSION, AsByte(autoCommit), conn.casInfo);
      var data := conn.RoundTrip(request, AskVersion(autoCommit));
      if data.None? {
        return Err(Io);
      }
      var reply := ParseGetDbVersion(data.value);
      match reply
      case Err(e) => return Err(Protocol(e));
      case Crash => return Crash;
      case Ok((version, cas)) =>
        conn.SetCasInfo(cas);
        return Ok(version);
    }

    method SetAutoCommit(autoCommit: bool)
      modifies `autoCommit
      ensures State() == old(State()).(autoCommit := autoCommit)
    {
      this.autoCommit := autoCommit;
    }

    /** Closing twice sends one request. */
    method Close()
      modifies this, conn
      ensures State() == Session.Close(old(State()))
    {
      hide Frame, Payloads;
      if open {
        open := false;
        var request := WriteConClose(conn.casInfo);
        var _ := conn.SendFramed(request, AskLeave);
      }
    }
  }

  lemma NothingToRelease(w: Wire, handle: i32)
    requires handle <= 0
    ensures Release(w, handle) == w
  {
  }

  class Statement {
    var queryHandle: i32
    const statementType: StatementType
    const bindCount: i32
    const columns: seq<ColumnMetaData>
    var closed: bool
    const sql: string

    constructor (queryHandle: i32, statementType: StatementType, bindCount: i32, columns: seq<ColumnMetaData>,
                 sql: string)
      ensures State() == StatementState(queryHandle, statementType, bindCount, columns, false, sql)
    {
      this.queryHandle, this.statementType, this.bindCount := queryHandle, statementType, bindCount;
      this.columns, this.closed, this.sql := columns, false, sql;
    }

    ghost function State(): StatementState
      reads this
    {
      StatementState(queryHandle, statementType, bindCount, columns, closed, sql)
    }

    /** FC=3 without parameters, the start of `execute` and `query_with`. */
    method RunPrepared(client: Client) returns (r: Outcome<ExecuteResult, ClientError>)
      requires client.open
      modifies client.conn
      ensures (match r case Ok(e) => Ok(Executed(e)) case Err(e) => Err(e) case Crash => Crash, client.conn.Link())
              == Call(old(client.conn.Link()),
                      AskExecute(queryHandle, statementType, columns, client.autoCommit, client.protoVersion))
    {
      hide Exchange, Frame, ReadExecute, ExecuteArgs, Payloads;
      var request := WriteExecute(queryHandle, statementType, [], client.autoCommit, client.conn.casInfo);
      var data := client.conn.RoundTrip(
        request, AskExecute(queryHandle, statementType, columns, client.autoCommit, client.protoVersion));
      if data.None? {
        return Err(Io);
      }
      var reply := ParseExecute(data.value, columns, statementType, client.protoVersion);
      match reply
      case Err(e) => return Err(Protocol(e));
      case Crash => return Crash;
      case Ok((result, cas)) =>
        client.conn.SetCasInfo(cas);
        return Ok(result);
    }

    method Execute(client: Client, params: seq<Value>) returns (r: Outcome<u64, ClientError>)
      modifies client.conn
      ensures (r, client.State()) == StatementExecute(State(), old(client.State()), params, client.floats)
    {
      hide Call, Interpolated, Session.Execute, AffectedOrCrash;
      if closed {
        return Err(ConnectionClosed);
      }
      if params != [] {
        r := client.Execute(sql, params);
        return;
      }
      if !client.open {
        return Err(ConnectionClosed);
      }
      var result :- RunPrepared(client);
      r := SumAffected(result.resultInfos);
    }

    method QueryWith(client: Client, params: seq<Value>) returns (r: Outcome<QueryResult, ClientError>)
      modifies client.conn
      ensures (r, client.State()) == StatementQuery(State(), old(client.State()), params, client.floats)
    {
      hide Call, Interpolated, Session.Query, AllRows;
      if closed {
        return Err(ConnectionClosed);
      }
      if params != [] {
        r := client.Query(sql, params);
        return;
      }
      if !client.open {
        return Err(ConnectionClosed);
      }
      var result :- RunPrepared(client);
      var rows :- client.FetchAll(queryHandle, columns, statementType, result.totalTupleCount, result.rows);
      return Ok(QueryResult(columns, rows, result.totalTupleCount));
    }

    method Close(client: Client)
      modifies this, client.conn
      ensures (State(), client.State()) == StatementClose(old(State()), old(client.State()))
    {
      hide Release;
      if closed {
        return;
      }
      closed := true;
      if queryHandle > 0 {
        client.CloseQueryHandle(queryHandle);
        queryHandle := 0;
      }
    }
  }
}
