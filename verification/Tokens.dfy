/** Token discipline over whole runs. */
module Tokens {
  import opened Bytes
  import opened Wrappers
  import opened Types
  import opened Writer
  import opened Link
  import opened Session
  import opened Completeness
  import opened Runs
  import Interpolation

  /** The token of the last accepted reply that does not answer a close-handle request. */
  function LastToken(first: CasInfo, log: seq<Event>): CasInfo {
    if log == [] then first
    else
      var before, e := log[..|log| - 1], log[|log| - 1];
      if e.Got? && !e.ask.AskClose? && Understand(e.ask, e.data).Ok?
      then Understand(e.ask, e.data).value.1
      else LastToken(first, before)
  }

  /** Every request sent so far carries the token that was last handed over. */
  ghost predicate Carried(first: CasInfo, log: seq<Event>) {
    forall i :: 0 <= i < |log| && log[i].Sent? ==>
      log[i].frame == Frame(Body(log[i].ask), LastToken(first, log[..i]))
  }

  ghost predicate InStep(first: CasInfo, w: Wire) {
    Carried(first, w.log) && w.cas == LastToken(first, w.log)
  }

  lemma CarriedSnoc(first: CasInfo, log: seq<Event>, e: Event)
    requires Carried(first, log)
    requires e.Sent? ==> e.frame == Frame(Body(e.ask), LastToken(first, log))
    ensures Carried(first, log + [e])
  {
    hide Frame, Body, LastToken;
    var longer := log + [e];
    forall i | 0 <= i < |longer| && longer[i].Sent?
      ensures longer[i].frame == Frame(Body(longer[i].ask), LastToken(first, longer[..i]))
    {
      assert longer[..i] == log[..i];
      assert log[..|log|] == log;
    }
  }

  lemma LastTokenSnoc(first: CasInfo, log: seq<Event>, e: Event)
    ensures LastToken(first, log + [e])
            == if e.Got? && !e.ask.AskClose? && Understand(e.ask, e.data).Ok? then Understand(e.ask, e.data).value.1
               else LastToken(first, log)
  {
    hide Understand;
    var longer := log + [e];
    assert longer[..|longer| - 1] == log && longer[|longer| - 1] == e;
  }

  lemma CallKeeps(first: CasInfo, w: Wire, a: Ask)
    requires InStep(first, w)
    ensures InStep(first, Call(w, a).1)
  {
    hide Understand, Frame, Body, LastToken, Carried, ReadExact;
    var sent := Sent(a, Frame(Body(a), w.cas));
    CarriedSnoc(first, w.log, sent);
    LastTokenSnoc(first, w.log, sent);
    var w1 := Send(w, a, sent.frame).1;
    var data := Recv(w1, a).0;
    if data.Some? {
      CarriedSnoc(first, w.log + [sent], Got(a, data.value));
      LastTokenSnoc(first, w.log + [sent], Got(a, data.value));
    }
  }

  lemma {:induction false} FetchKeeps(first: CasInfo, w: Wire, handle: i32, columns: seq<ColumnMetaData>,
                                      stmt: StatementType, total: i32, fetched: i32, rows: seq<Row>)
    requires InStep(first, w)
    ensures InStep(first, FetchRemaining(w, handle, columns, stmt, total, fetched, rows).1)
    decreases |w.input|
  {
    hide Call, InStep;
    if fetched < total {
      var a := AskFetch(handle, fetched, columns, stmt);
      CallKeeps(first, w, a);
      CallAnswers(w, a);
      var (reply, w') := Call(w, a);
      if reply.Ok? {
        var b := reply.value.batch;
        if b.tupleCount != 0 && -0x8000_0000 <= fetched + b.tupleCount <= I32_MAX {
          FetchKeeps(first, w', handle, columns, stmt, total, fetched + b.tupleCount, rows + b.rows);
        }
      }
    }
  }

  lemma AllRowsKeep(first: CasInfo, w: Wire, handle: i32, columns: seq<ColumnMetaData>, stmt: StatementType,
                    total: i32, rows: seq<Row>)
    requires InStep(first, w)
    ensures InStep(first, AllRows(w, handle, columns, stmt, total, rows).1)
  {
    hide InStep, FetchRemaining;
    FetchKeeps(first, w, handle, columns, stmt, total, AsI32(|rows|), rows);
  }

  lemma ReleaseKeeps(first: CasInfo, w: Wire, handle: i32)
    requires InStep(first, w)
    ensures InStep(first, Release(w, handle))
  {
    hide InStep, Call;
    CallKeeps(first, w, AskClose(handle));
  }

  lemma ExecuteKeeps(first: CasInfo, c: ClientState, sql: string)
    requires InStep(first, c.wire)
    ensures InStep(first, Execute(c, sql).1.wire)
  {
    hide InStep, Call, Release, Affected;
    var a := AskRun(sql, c.autoCommit, c.proto);
    CallKeeps(first, c.wire, a);
    CallAnswers(c.wire, a);
    var (reply, w) := Call(c.wire, a);
    if reply.Ok? { ReleaseKeeps(first, w, reply.value.run.queryHandle); }
  }

  lemma QueryKeeps(first: CasInfo, c: ClientState, sql: string)
    requires InStep(first, c.wire)
    ensures InStep(first, Query(c, sql).1.wire)
  {
    hide InStep, Call, Release, AllRows;
    var a := AskRun(sql, c.autoCommit, c.proto);
    CallKeeps(first, c.wire, a);
    CallAnswers(c.wire, a);
    var (reply, w) := Call(c.wire, a);
    if reply.Ok? {
      var p := reply.value.run;
      AllRowsKeep(first, w, p.queryHandle, p.columns, p.statementType, p.totalTupleCount, p.rows);
      var w' := AllRows(w, p.queryHandle, p.columns, p.statementType, p.totalTupleCount, p.rows).1;
      ReleaseKeeps(first, w', p.queryHandle);
    }
  }

  lemma PlainKeeps(first: CasInfo, c: ClientState, sql: string)
    requires InStep(first, c.wire)
    ensures InStep(first, Prepare(c, sql).1.wire)
    ensures InStep(first, Commit(c).1.wire) && InStep(first, Rollback(c).1.wire)
    ensures InStep(first, Ping(c).1.wire)
  {
    hide InStep, Call;
    CallKeeps(first, c.wire, AskPrepare(sql, c.autoCommit));
    CallAnswers(c.wire, AskPrepare(sql, c.autoCommit));
    CallKeeps(first, c.wire, AskEnd(1));
    CallKeeps(first, c.wire, AskEnd(2));
    CallKeeps(first, c.wire, AskVersion(c.autoCommit));
    CallAnswers(c.wire, AskVersion(c.autoCommit));
  }

  lemma CloseKeeps(first: CasInfo, c: ClientState)
    requires InStep(first, c.wire)
    ensures InStep(first, Close(c).wire)
  {
    hide Frame, Body, LastToken, Understand;
    var sent := Sent(AskLeave, Frame(Body(AskLeave), c.wire.cas));
    CarriedSnoc(first, c.wire.log, sent);
    LastTokenSnoc(first, c.wire.log, sent);
  }

  lemma StatementKeeps(first: CasInfo, s: StatementState, c: ClientState, params: seq<Value>,
                       floats: Interpolation.FloatText)
    requires InStep(first, c.wire)
    ensures InStep(first, StatementExecute(s, c, params, floats).1.wire)
    ensures InStep(first, StatementQuery(s, c, params, floats).1.wire)
    ensures InStep(first, StatementClose(s, c).1.wire)
  {
    hide InStep, Call, Release, AllRows, Execute, Query, Interpolated, Affected;
    var sql := Interpolated(s.sql, params, floats);
    ExecuteKeeps(first, c, sql);
    QueryKeeps(first, c, sql);
    ReleaseKeeps(first, c.wire, s.handle);
    var a := AskExecute(s.handle, s.statementType, s.columns, c.autoCommit, c.proto);
    CallKeeps(first, c.wire, a);
    CallAnswers(c.wire, a);
    var (reply, w) := Call(c.wire, a);
    if reply.Ok? {
      var e := reply.value.executed;
      AllRowsKeep(first, w, s.handle, s.columns, s.statementType, e.totalTupleCount, e.rows);
    }
  }

  lemma StepKeeps(first: CasInfo, w: World, op: Op, floats: Interpolation.FloatText)
    requires InStep(first, w.client.wire)
    ensures InStep(first, Step(w, op, floats).client.wire)
  {
    hide InStep, Execute, Query, Prepare, Commit, Rollback, Ping, Close, StatementExecute, StatementQuery,
      StatementClose, Interpolated, ExecuteLoses, QueryLoses, PrepareLoses;
    match op
    case DoExecute(sql, params) => ExecuteKeeps(first, w.client, Interpolated(sql, params, floats));
    case DoQuery(sql, params) => QueryKeeps(first, w.client, Interpolated(sql, params, floats));
    case DoPrepare(sql) => PlainKeeps(first, w.client, sql);
    case DoCommit => PlainKeeps(first, w.client, "");
    case DoRollback => PlainKeeps(first, w.client, "");
    case DoPing => PlainKeeps(first, w.client, "");
    case DoSetAutoCommit(_) =>
    case DoClose => CloseKeeps(first, w.client);
    case StatementDo(i, params) =>
      if i < |w.statements| { StatementKeeps(first, w.statements[i], w.client, params, floats); }
    case StatementAsk(i, params) =>
      if i < |w.statements| { StatementKeeps(first, w.statements[i], w.client, params, floats); }
    case StatementEnd(i) =>
      if i < |w.statements| { StatementKeeps(first, w.statements[i], w.client, [], floats); }
  }

  lemma {:induction false} RunKeeps(first: CasInfo, w: World, ops: seq<Op>, floats: Interpolation.FloatText)
    requires InStep(first, w.client.wire)
    ensures InStep(first, Run(w, ops, floats).client.wire)
    decreases |ops|
  {
    hide InStep, Step;
    if ops != [] {
      StepKeeps(first, w, ops[0], floats);
      RunKeeps(first, Step(w, ops[0], floats), ops[1..], floats);
    }
  }

  /** Over any run from any token, every framed request carries the token of the last reply accepted before it,
      replies to close-handle requests aside. */
  lemma TokenDiscipline(input: seq<byte>, faults: seq<Option<nat>>, first: CasInfo, autoCommit: bool, proto: int,
                        ops: seq<Op>, floats: Interpolation.FloatText)
    ensures Carried(first, Run(Fresh(input, faults, first, autoCommit, proto), ops, floats).client.wire.log)
  {
    hide Run;
    RunKeeps(first, Fresh(input, faults, first, autoCommit, proto), ops, floats);
  }
}
