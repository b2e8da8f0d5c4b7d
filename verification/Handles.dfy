/** Handle discipline over whole runs. */
module Handles {
  import opened Bytes
  import opened Wrappers
  import opened Types
  import opened Writer
  import opened Link
  import opened Session
  import opened Completeness
  import opened Cursor
  import opened Rows
  import opened Response
  import opened Replies
  import opened Runs
  import opened Frames
  import Interpolation

  /** A monitor of the wire: the handles that replies have named and that no frame has asked to close; None once one
      asks for a handle that is not open. Both are read from the bytes. */
  function Held(log: seq<Event>): Option<multiset<i32>> {
    if log == [] then Some(multiset{})
    else
      match (Held(log[..|log| - 1]), log[|log| - 1])
      case (None, _) => None
      case (Some(m), Got(a, d)) => Some(m + NamedBy(a, d))
      case (Some(m), Sent(_, frame)) =>
        match ClosedBy(frame)
        case None => Some(m)
        case Some(h) => if h in m then Some(m - multiset{h}) else None
  }

  lemma HeldSnoc(log: seq<Event>, e: Event)
    requires Held(log).Some?
    ensures Held(log + [e]) ==
            match e
            case Got(a, d) => Some(Held(log).value + NamedBy(a, d))
            case Sent(_, frame) =>
              match ClosedBy(frame)
              case None => Held(log)
              case Some(h) => if h in Held(log).value then Some(Held(log).value - multiset{h}) else None
  {
    hide NamedBy, ClosedBy;
    assert (log + [e])[..|log|] == log;
  }

  /** A request that is sent. */
  lemma HeldSent(log: seq<Event>, a: Ask, cas: CasInfo)
    requires Held(log).Some?
    ensures Held(log + [Sent(a, Frame(Body(a), cas))]) ==
            if !a.AskClose? then Held(log)
            else if a.handle in Held(log).value then Some(Held(log).value - multiset{a.handle})
            else None
  {
    hide Held, ClosedBy, Frame, Body;
    OnlyClosesClose(a, cas);
    HeldSnoc(log, Sent(a, Frame(Body(a), cas)));
  }

  /** The statements that still have a handle to close. */
  function Live(statements: seq<StatementState>): multiset<i32> {
    if statements == [] then multiset{}
    else
      (if statements[0].closed then multiset{} else Positive(statements[0].handle)) + Live(statements[1..])
  }

  lemma Nothing(m: multiset<i32>)
    ensures m + multiset{} == m && m - multiset{} == m
  {
  }

  /** What the reply to a call names. */
  function NamedIn(w: Wire, a: Ask): multiset<i32> { Named(Since(w, Call(w, a).1)) }

  /** A call opens what its reply names, and a close request closes its handle, whatever comes back. */
  lemma CallHolds(w: Wire, a: Ask)
    requires Held(w.log).Some?
    requires a.AskClose? ==> a.handle in Held(w.log).value
    ensures Held(Call(w, a).1.log)
            == Some(if a.AskClose? then Held(w.log).value - multiset{a.handle}
                    else Held(w.log).value + NamedIn(w, a))
  {
    hide Call, Body, Frame, Held, Understand, NamedBy;
    var sent := Sent(a, Frame(Body(a), w.cas));
    CallLogs(w, a);
    HeldSent(w.log, a, w.cas);
    Nothing(Held(w.log).value);
    if a.AskClose? { Nothing(Held(w.log).value - multiset{a.handle}); }
    if Call(w, a).0 == Err(Io) && Call(w, a).1.log == w.log + [sent] {
      assert Since(w, Call(w, a).1) == [sent];
    } else {
      var d :| Concluded(w, a, d);
      HeldSnoc(w.log + [sent], Got(a, d));
      assert (w.log + [sent]) + [Got(a, d)] == w.log + [sent, Got(a, d)];
      assert Since(w, Call(w, a).1) == [sent, Got(a, d)];
      OnlyTwoName(a, d);
    }
  }

  lemma OnlyTwoName(a: Ask, d: seq<byte>)
    ensures !a.AskRun? && !a.AskPrepare? ==> NamedBy(a, d) == multiset{}
  {
  }

  /** The handle of an accepted reply is the one its header names. */
  lemma HeaderNames(a: Ask, d: seq<byte>)
    requires Understand(a, d).Ok?
    ensures match Understand(a, d).value.0
            case Ran(p) => NamedBy(a, d) == Positive(p.queryHandle)
            case Prepared(p) => NamedBy(a, d) == Positive(p.queryHandle)
            case _ => true
  {
    hide ReadHeader, ReadDescribed, ReadExecuted, ReadInline, ReadExecute, ReadFetch, ReadDbVersion, ReadSimple;
  }

  /** The events of a call, and of an operation that goes on after it only if the reply is accepted. */
  lemma CallEvents(w: Wire, a: Ask, end: Wire)
    requires Call(w, a).1.log <= end.log && (!Call(w, a).0.Ok? ==> end.log == Call(w, a).1.log)
    ensures w.log <= end.log && (Accepted(Since(w, end)) <==> Call(w, a).0.Ok?)
    ensures Named(Since(w, end)) == NamedIn(w, a)
    ensures !a.AskRun? && !a.AskPrepare? ==> NamedIn(w, a) == multiset{}
    ensures match Call(w, a).0
            case Ok(Ran(p)) => NamedIn(w, a) == Positive(p.queryHandle)
            case Ok(Prepared(p)) => NamedIn(w, a) == Positive(p.queryHandle)
            case _ => true
  {
    hide Call, Body, Frame, Understand, NamedBy;
    CallLogs(w, a);
    CallAnswers(w, a);
    var sent, w' := Sent(a, Frame(Body(a), w.cas)), Call(w, a).1;
    if Call(w, a).0 == Err(Io) && w'.log == w.log + [sent] {
      assert Since(w, end) == Since(w, w') == [sent];
    } else {
      var d :| Concluded(w, a, d);
      assert Since(w, w') == [sent, Got(a, d)];
      assert Since(w, end)[1] == end.log[|w.log| + 1] == w'.log[|w.log| + 1] == Got(a, d);
      OnlyTwoName(a, d);
      if Understand(a, d).Ok? { HeaderNames(a, d); }
    }
  }

  lemma {:induction false} FetchHolds(w: Wire, handle: i32, columns: seq<ColumnMetaData>, stmt: StatementType,
                                      total: i32, fetched: i32, rows: seq<Row>)
    requires Held(w.log).Some?
    ensures Held(FetchRemaining(w, handle, columns, stmt, total, fetched, rows).1.log) == Held(w.log)
    decreases |w.input|
  {
    hide Call, Held, Named, Accepted, Since, NamedIn;
    Nothing(Held(w.log).value);
    if fetched < total {
      var a := AskFetch(handle, fetched, columns, stmt);
      CallHolds(w, a);
      CallEvents(w, a, Call(w, a).1);
      CallAnswers(w, a);
      var (reply, w') := Call(w, a);
      if reply.Ok? {
        var b := reply.value.batch;
        if b.tupleCount != 0 && -0x8000_0000 <= fetched + b.tupleCount <= I32_MAX {
          FetchHolds(w', handle, columns, stmt, total, fetched + b.tupleCount, rows + b.rows);
        }
      }
    }
  }

  lemma AllRowsHold(w: Wire, handle: i32, columns: seq<ColumnMetaData>, stmt: StatementType, total: i32,
                    rows: seq<Row>)
    requires Held(w.log).Some?
    ensures Held(AllRows(w, handle, columns, stmt, total, rows).1.log) == Held(w.log)
  {
    hide FetchRemaining, Held;
    FetchHolds(w, handle, columns, stmt, total, AsI32(|rows|), rows);
  }

  lemma ReleaseHolds(w: Wire, handle: i32)
    requires Held(w.log).Some? && (handle > 0 ==> handle in Held(w.log).value)
    ensures Held(Release(w, handle).log) == Some(Held(w.log).value - Positive(handle))
  {
    hide Call, Held;
    Nothing(Held(w.log).value);
    if handle > 0 { CallHolds(w, AskClose(handle)); }
  }

  lemma OpenThenClose(m: multiset<i32>, handle: i32)
    ensures m + Positive(handle) - Positive(handle) == m
    ensures handle > 0 ==> handle in m + Positive(handle)
  {
  }

  /** `execute` closes, exactly once, what an accepted reply opens; what a refused reply names stays open. */
  lemma ExecuteHolds(c: ClientState, sql: string)
    requires Held(c.wire.log).Some?
    ensures Held(Execute(c, sql).1.wire.log) == Some(Held(c.wire.log).value + ExecuteLoses(c, sql))
  {
    hide Call, Release, Held, Affected, Positive, Accepted, Named, Since, NamedIn;
    var a := AskRun(sql, c.autoCommit, c.proto);
    Nothing(Held(c.wire.log).value);
    if c.open {
      CallHolds(c.wire, a);
      CallAnswers(c.wire, a);
      CallPrecedesExecute(c, sql);
      CallEvents(c.wire, a, Execute(c, sql).1.wire);
      var (reply, w) := Call(c.wire, a);
      if reply.Ok? {
        var h := reply.value.run.queryHandle;
        OpenThenClose(Held(c.wire.log).value, h);
        ReleaseHolds(w, h);
      }
    } else {
      NoEvents(c.wire);
    }
  }

  lemma NoEvents(w: Wire)
    ensures Named(Since(w, w)) == multiset{}
  {
    assert Since(w, w) == [];
  }

  /** `query` closes, exactly once, what its reply names if the reply is accepted and every fetch that is needed is
      answered; otherwise that stays open. */
  lemma QueryHolds(c: ClientState, sql: string)
    requires Held(c.wire.log).Some?
    ensures Held(Query(c, sql).1.wire.log) == Some(Held(c.wire.log).value + QueryLoses(c, sql))
  {
    hide Call, Release, AllRows, Held, Positive, Answered, Missing, Since, Started, AsI32, Named, NamedIn, Accepted;
    var a := AskRun(sql, c.autoCommit, c.proto);
    Nothing(Held(c.wire.log).value);
    if c.open {
      CallHolds(c.wire, a);
      CallAnswers(c.wire, a);
      CallPrecedesQuery(c, sql);
      CallEvents(c.wire, a, Query(c, sql).1.wire);
      QueryReturns(c, sql);
      var (reply, w) := Call(c.wire, a);
      if reply.Ok? { AcceptedHolds(c, sql, reply.value.run, w); }
    } else {
      NoEvents(c.wire);
    }
  }

  /** After an accepted first reply the handle is closed if the rows arrive, and only then. */
  lemma AcceptedHolds(c: ClientState, sql: string, p: PrepareAndExecuteResult, w: Wire)
    requires c.open && Call(c.wire, AskRun(sql, c.autoCommit, c.proto)) == (Ok(Ran(p)), w)
    requires Held(c.wire.log).Some? && Held(w.log) == Some(Held(c.wire.log).value + Positive(p.queryHandle))
    ensures Held(Query(c, sql).1.wire.log)
            == if Query(c, sql).0.Ok? then Held(c.wire.log) else Held(w.log)
  {
    hide Call, Release, AllRows, Held, Positive;
    AllRowsHold(w, p.queryHandle, p.columns, p.statementType, p.totalTupleCount, p.rows);
    OpenThenClose(Held(c.wire.log).value, p.queryHandle);
    ReleaseHolds(AllRows(w, p.queryHandle, p.columns, p.statementType, p.totalTupleCount, p.rows).1, p.queryHandle);
  }

  /** A handle stays open after `execute` if and only if the reply names one and is refused; after `query` if and only
      if the reply names one and is refused, or is a SELECT with rows missing and a fetch that is not answered. */
  lemma HandleStaysOpen(c: ClientState, sql: string)
    requires c.open && Held(c.wire.log).Some?
    ensures var events := Since(c.wire, Execute(c, sql).1.wire);
            Held(Execute(c, sql).1.wire.log) != Held(c.wire.log) <==> Named(events) != multiset{} && !Accepted(events)
    ensures var events := Since(c.wire, Query(c, sql).1.wire);
            Held(Query(c, sql).1.wire.log) != Held(c.wire.log)
            <==> && Named(events) != multiset{}
                 && (|| Started(events).None?
                     || (Missing(Started(events).value)
                         && !Answered(events[2..], AsI32(|Started(events).value.rows|))))
  {
    hide Query, Execute, Held, Answered, Missing, Since, Started, AsI32, Named, Accepted;
    ExecuteHolds(c, sql);
    QueryHolds(c, sql);
    SameOnlyWithNothing(Held(c.wire.log).value, ExecuteLoses(c, sql));
    SameOnlyWithNothing(Held(c.wire.log).value, QueryLoses(c, sql));
  }

  lemma SameOnlyWithNothing(m: multiset<i32>, lost: multiset<i32>)
    ensures m + lost == m <==> lost == multiset{}
  {
    if m + lost == m { assert |m + lost| == |m| + |lost|; }
  }

  /** It happens: a stream that ends after the reply to any SELECT with rows missing. */
  lemma HandleLost(c: ClientState, sql: string, rows: seq<WireRow>, reply: WireReply)
    requires c.open && |rows| <= I32_MAX && OpensCursor(rows, reply)
    requires reply.handle > 0 && |InlineRows(reply.inline)| < |rows|
    requires Framable(EncodeReply(reply, c.proto)) && c.wire.faults == []
    requires c.wire.input == Framed(EncodeReply(reply, c.proto)) && Held(c.wire.log).Some?
    ensures Query(c, sql).0 == Err(Io)
    ensures Held(Query(c, sql).1.wire.log) == Some(Held(c.wire.log).value + multiset{reply.handle})
  {
    hide Call, Frame, Body, EncodeReply, ReadPrepareAndExecute, WireReply.Fits, Release, FetchRemaining, Framed,
      Held, RowsMeaning, RowFits, Named, NamedIn, Since, Accepted;
    var a := AskRun(sql, c.autoCommit, c.proto);
    assert Framed(EncodeReply(reply, c.proto)) + [] == c.wire.input;
    CallOnFrame(c.wire, a, EncodeReply(reply, c.proto), []);
    ReplyInverts(reply, c.proto);
    var p, w := reply.Meaning(), Call(c.wire, a).1;
    CallHolds(c.wire, a);
    CallEvents(c.wire, a, w);
    InlineRowsMean(reply.inline);
    StreamEnds(w, AskFetch(p.queryHandle, |p.rows|, p.columns, p.statementType), p.totalTupleCount, p.rows);
    AcceptedHolds(c, sql, p, w);
  }

  lemma StreamEnds(w: Wire, a: Ask, total: i32, rows: seq<Row>)
    requires a.AskFetch? && a.current < total && w.input == []
    ensures FetchRemaining(w, a.handle, a.columns, a.stmt, total, a.current, rows).0 == Err(Io)
  {
    hide Understand, Frame, Body;
  }

  /** What a reply to `prepare` names is the handle of the statement that is returned, if the reply is accepted, and
      stays open otherwise. */
  lemma PrepareHolds(c: ClientState, sql: string)
    requires Held(c.wire.log).Some?
    ensures var (r, c') := Prepare(c, sql);
            && Held(c'.wire.log)
               == Some(Held(c.wire.log).value + (if r.Ok? then Positive(r.value.handle) else PrepareLoses(c, sql)))
            && (r.Ok? ==> !r.value.closed && PrepareLoses(c, sql) == multiset{})
            && (c.open ==> (r.Ok? <==> Accepted(Since(c.wire, c'.wire))))
  {
    hide Call, Held, Positive, Accepted, Named, Since, NamedIn;
    Nothing(Held(c.wire.log).value);
    if c.open {
      var a := AskPrepare(sql, c.autoCommit);
      CallHolds(c.wire, a);
      CallAnswers(c.wire, a);
      CallEvents(c.wire, a, Prepare(c, sql).1.wire);
    } else {
      NoEvents(c.wire);
    }
  }

  /** A refused reply that names a handle loses it, to every operation that opens one. */
  lemma RefusedHandleLost(c: ClientState, sql: string, data: seq<byte>)
    requires c.open && c.wire.faults == [] && Framable(data) && c.wire.input == Framed(data) && Held(c.wire.log).Some?
    requires ReadHeader(data).Done? && ReadHeader(data).value.1 > 0
    ensures !ReadPrepareAndExecute(data, c.proto).Done? ==>
              && !Execute(c, sql).0.Ok? && !Query(c, sql).0.Ok?
              && Held(Execute(c, sql).1.wire.log)
                 == Held(Query(c, sql).1.wire.log)
                 == Some(Held(c.wire.log).value + multiset{ReadHeader(data).value.1})
    ensures !ReadPrepare(data).Done? ==>
              && !Prepare(c, sql).0.Ok?
              && Held(Prepare(c, sql).1.wire.log)
                 == Some(Held(c.wire.log).value + multiset{ReadHeader(data).value.1})
  {
    hide Call, Frame, Body, Held, Framed, ReadHeader, ReadPrepareAndExecute, ReadPrepare, Release, AllRows, Affected;
    assert Framed(data) + [] == c.wire.input;
    var a, b := AskRun(sql, c.autoCommit, c.proto), AskPrepare(sql, c.autoCommit);
    CallOnFrame(c.wire, a, data, []);
    CallOnFrame(c.wire, b, data, []);
    CallHolds(c.wire, a);
    CallHolds(c.wire, b);
    assert NamedIn(c.wire, a) == Positive(ReadHeader(data).value.1) by { NamedInReply(c.wire, a, data); }
    assert NamedIn(c.wire, b) == Positive(ReadHeader(data).value.1) by { NamedInReply(c.wire, b, data); }
  }

  lemma NamedInReply(w: Wire, a: Ask, d: seq<byte>)
    requires Concluded(w, a, d)
    ensures NamedIn(w, a) == NamedBy(a, d)
  {
    hide Call, Frame, Body, Understand, NamedBy;
    assert Since(w, Call(w, a).1) == [Sent(a, Frame(Body(a), w.cas)), Got(a, d)];
  }

  lemma EndTranHolds(c: ClientState, action: byte)
    requires Held(c.wire.log).Some?
    ensures Held(EndTran(c, action).1.wire.log) == Held(c.wire.log)
  {
    hide Call, Held, Body, Frame, Named, NamedIn, Since, Accepted, NamedBy;
    CallHolds(c.wire, AskEnd(action));
    CallEvents(c.wire, AskEnd(action), Call(c.wire, AskEnd(action)).1);
    CallAnswers(c.wire, AskEnd(action));
    Nothing(Held(c.wire.log).value);
  }

  lemma PlainHolds(c: ClientState)
    requires Held(c.wire.log).Some?
    ensures Held(Commit(c).1.wire.log) == Held(Rollback(c).1.wire.log) == Held(c.wire.log)
    ensures Held(Ping(c).1.wire.log) == Held(c.wire.log)
    ensures Held(Close(c).wire.log) == Held(c.wire.log)
  {
    hide Call, EndTran, Held, Body, Frame, Named, NamedIn, Since, Accepted, NamedBy;
    EndTranHolds(c, 1);
    EndTranHolds(c, 2);
    CallHolds(c.wire, AskVersion(c.autoCommit));
    CallEvents(c.wire, AskVersion(c.autoCommit), Call(c.wire, AskVersion(c.autoCommit)).1);
    CallAnswers(c.wire, AskVersion(c.autoCommit));
    HeldSent(c.wire.log, AskLeave, c.wire.cas);
    Nothing(Held(c.wire.log).value);
  }

  /** Executing a statement opens nothing, unless its parameters make it a fresh execution. */
  lemma StatementHolds(s: StatementState, c: ClientState, params: seq<Value>, floats: Interpolation.FloatText)
    requires Held(c.wire.log).Some?
    ensures Held(StatementExecute(s, c, params, floats).1.wire.log)
            == if s.closed || params == [] then Held(c.wire.log)
               else Some(Held(c.wire.log).value + ExecuteLoses(c, Interpolated(s.sql, params, floats)))
    ensures Held(StatementQuery(s, c, params, floats).1.wire.log)
            == if s.closed || params == [] then Held(c.wire.log)
               else Some(Held(c.wire.log).value + QueryLoses(c, Interpolated(s.sql, params, floats)))
  {
    hide Call, AllRows, Execute, Query, Interpolated, Affected, Held, ExecuteLoses, QueryLoses, Named, NamedIn,
      Since, Accepted;
    var sql := Interpolated(s.sql, params, floats);
    ExecuteHolds(c, sql);
    QueryHolds(c, sql);
    var a := AskExecute(s.handle, s.statementType, s.columns, c.autoCommit, c.proto);
    CallHolds(c.wire, a);
    CallAnswers(c.wire, a);
    CallEvents(c.wire, a, Call(c.wire, a).1);
    Nothing(Held(c.wire.log).value);
    var (reply, w) := Call(c.wire, a);
    if reply.Ok? {
      var e := reply.value.executed;
      AllRowsHold(w, s.handle, s.columns, s.statementType, e.totalTupleCount, e.rows);
    }
  }

  lemma {:induction false} LiveSnoc(statements: seq<StatementState>, s: StatementState)
    requires !s.closed
    ensures Live(statements + [s]) == Live(statements) + Positive(s.handle)
  {
    hide Positive;
    if statements == [] {
      assert ([] + [s])[1..] == [];
    } else {
      LiveSnoc(statements[1..], s);
      assert (statements + [s])[1..] == statements[1..] + [s];
    }
  }

  lemma {:induction false} LiveUpdate(statements: seq<StatementState>, i: nat, s: StatementState)
    requires i < |statements| && !statements[i].closed && s.closed
    ensures Live(statements) == Live(statements[i := s]) + Positive(statements[i].handle)
  {
    hide Positive;
    if i == 0 {
      assert statements[0 := s][1..] == statements[1..];
    } else {
      LiveUpdate(statements[1..], i - 1, s);
      assert statements[i := s][1..] == statements[1..][i - 1 := s];
    }
  }

  /** Exactly the handles of unclosed statements and the lost ones are open on the server. */
  ghost predicate Accounted(w: World) {
    Held(w.client.wire.log) == Some(Live(w.statements) + w.lost)
  }

  lemma Regroup(a: multiset<i32>, b: multiset<i32>, c: multiset<i32>)
    ensures (a + b) + c == (a + c) + b && (a + b) + c == a + (b + c) && ((a + b) + c) - b == a + c
  {
  }

  lemma PrepareAccounts(w: World, sql: string, floats: Interpolation.FloatText)
    requires Accounted(w)
    ensures Accounted(Step(w, DoPrepare(sql), floats))
  {
    hide Prepare, Held, Live, Positive, PrepareLoses;
    PrepareHolds(w.client, sql);
    var r := Prepare(w.client, sql).0;
    Nothing(w.lost);
    if r.Ok? {
      LiveSnoc(w.statements, r.value);
      Regroup(Live(w.statements), w.lost, Positive(r.value.handle));
    } else {
      Regroup(Live(w.statements), w.lost, PrepareLoses(w.client, sql));
    }
  }

  lemma Settle(live: multiset<i32>, handle: multiset<i32>, lost: multiset<i32>)
    ensures ((live + handle) + lost) - handle == live + lost
    ensures (live + handle) + lost == live + (lost + handle)
  {
  }

  lemma StatementEndAccounts(w: World, i: nat, floats: Interpolation.FloatText)
    requires Accounted(w)
    ensures Accounted(Step(w, StatementEnd(i), floats))
  {
    hide Held, Live, Release, Positive, Interpolated;
    if i < |w.statements| {
      var s := w.statements[i];
      var s' := StatementClose(s, w.client).0;
      if s.closed {
        assert w.statements[i := s'] == w.statements;
      } else {
        LiveUpdate(w.statements, i, s');
        Settle(Live(w.statements[i := s']), Positive(s.handle), w.lost);
        if s.handle > 0 {
          assert s.handle in Positive(s.handle) by { OpenThenClose(multiset{}, s.handle); Nothing(Positive(s.handle)); }
          if w.client.open { ReleaseHolds(w.client.wire, s.handle); }
        } else {
          NoHandle(s.handle);
          Nothing(w.lost);
          Nothing(Live(w.statements[i := s']));
        }
      }
    }
  }

  lemma NoHandle(handle: i32)
    requires handle <= 0
    ensures Positive(handle) == multiset{}
  {
  }

  lemma StepAccounts(w: World, op: Op, floats: Interpolation.FloatText)
    requires Accounted(w)
    ensures Accounted(Step(w, op, floats))
  {
    hide Held, Live, Execute, Query, Prepare, Commit, Rollback, Ping, Close, StatementExecute, StatementQuery,
      Interpolated, ExecuteLoses, QueryLoses, PrepareLoses;
    match op
    case DoExecute(sql, params) =>
      ExecuteHolds(w.client, Interpolated(sql, params, floats));
      Regroup(Live(w.statements), w.lost, ExecuteLoses(w.client, Interpolated(sql, params, floats)));
    case DoQuery(sql, params) =>
      QueryHolds(w.client, Interpolated(sql, params, floats));
      Regroup(Live(w.statements), w.lost, QueryLoses(w.client, Interpolated(sql, params, floats)));
    case DoPrepare(sql) => PrepareAccounts(w, sql, floats);
    case DoCommit => PlainHolds(w.client);
    case DoRollback => PlainHolds(w.client);
    case DoPing => PlainHolds(w.client);
    case DoSetAutoCommit(_) =>
    case DoClose => PlainHolds(w.client);
    case StatementDo(i, params) =>
      if i < |w.statements| {
        var s := w.statements[i];
        StatementHolds(s, w.client, params, floats);
        Regroup(Live(w.statements), w.lost, ExecuteLoses(w.client, Interpolated(s.sql, params, floats)));
      }
    case StatementAsk(i, params) =>
      if i < |w.statements| {
        var s := w.statements[i];
        StatementHolds(s, w.client, params, floats);
        Regroup(Live(w.statements), w.lost, QueryLoses(w.client, Interpolated(s.sql, params, floats)));
      }
    case StatementEnd(i) => StatementEndAccounts(w, i, floats);
  }

  lemma {:induction false} RunAccounts(w: World, ops: seq<Op>, floats: Interpolation.FloatText)
    requires Accounted(w)
    ensures Accounted(Run(w, ops, floats))
    decreases |ops|
  {
    hide Accounted, Step;
    if ops != [] {
      StepAccounts(w, ops[0], floats);
      RunAccounts(Step(w, ops[0], floats), ops[1..], floats);
    }
  }

  /** A monitor that has not failed at the end never failed. */
  lemma {:induction false} HeldThroughout(log: seq<Event>, n: nat)
    requires Held(log).Some? && n <= |log|
    ensures Held(log[..n]).Some?
  {
    if n < |log| {
      HeldThroughout(log[..|log| - 1], n);
      assert log[..|log| - 1][..n] == log[..n];
    } else {
      assert log[..n] == log;
    }
  }

  /** Over any run, no handle is closed that is not open, at any moment; and what is open at the end is what
      unclosed statements hold, and what refused replies, queries without all their rows and a closed connection
      lost. */
  lemma HandleDiscipline(input: seq<byte>, faults: seq<Option<nat>>, cas: CasInfo, autoCommit: bool, proto: int,
                         ops: seq<Op>, floats: Interpolation.FloatText)
    ensures var w := Run(Fresh(input, faults, cas, autoCommit, proto), ops, floats);
            && Held(w.client.wire.log) == Some(Live(w.statements) + w.lost)
            && forall n :: 0 <= n <= |w.client.wire.log| ==> Held(w.client.wire.log[..n]).Some?
  {
    hide Run;
    var w0 := Fresh(input, faults, cas, autoCommit, proto);
    assert Live([]) + multiset{} == multiset{};
    RunAccounts(w0, ops, floats);
    var log := Run(w0, ops, floats).client.wire.log;
    forall n | 0 <= n <= |log|
      ensures Held(log[..n]).Some?
    {
      HeldThroughout(log, n);
    }
  }
}
