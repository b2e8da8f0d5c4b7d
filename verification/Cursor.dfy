/** How far the cursor loop goes and what it keeps. */
module Cursor {
  import opened Bytes
  import opened Wrappers
  import opened Types
  import opened Codec
  import opened Response
  import opened Replies
  import opened Writer
  import opened Link
  import opened Session
  import opened Completeness

  /** The batch of a fetch reply, when it is understood. */
  function BatchOf(e: Event): (r: Option<FetchResult>) {
    if e.Got? && e.ask.AskFetch? then
      match Understand(e.ask, e.data)
      case Ok((answer, _)) => Some(answer.batch)
      case _ => None
    else None
  }

  /** No reply announces a negative number of rows. */
  predicate Counting(events: seq<Event>) {
    forall e :: e in events && BatchOf(e).Some? ==> BatchOf(e).value.tupleCount >= 0
  }

  /** No reply but the last announces a negative number of rows. */
  predicate CountingBeforeLast(events: seq<Event>) {
    forall i :: 0 <= i < |events| - 1 && BatchOf(events[i]).Some? ==> BatchOf(events[i]).value.tupleCount >= 0
  }

  /** The number of fetch requests. */
  function Fetches(events: seq<Event>): nat {
    if events == [] then 0 else (if events[0].Sent? && events[0].ask.AskFetch? then 1 else 0) + Fetches(events[1..])
  }

  function RowsIn(e: Event): nat {
    if BatchOf(e).Some? then |BatchOf(e).value.rows| else 0
  }

  /** Every request asks for the rows after the n there were and those that replies have brought since. */
  predicate Tracks(events: seq<Event>, n: nat)
    decreases |events|
  {
    events == [] ||
    (&& events[0].Sent? && events[0].ask.AskFetch? && events[0].ask.current == n
     && (|events| == 1 || (events[1].Got? && Tracks(events[2..], n + RowsIn(events[1])))))
  }

  /** The server said that there is nothing left. */
  predicate Exhausted(events: seq<Event>) {
    events != [] && BatchOf(events[|events| - 1]).Some? && BatchOf(events[|events| - 1]).value.tupleCount == 0
  }

  /** The reply is a batch that the count can take. */
  predicate Advances(e: Event, fetched: int) {
    BatchOf(e).Some? && -0x8000_0000 <= fetched + BatchOf(e).value.tupleCount <= I32_MAX
  }

  /** Every fetch that the events start with is answered by such a batch. */
  predicate Answered(events: seq<Event>, fetched: int)
    decreases |events|
  {
    events == [] || !events[0].Sent? || !events[0].ask.AskFetch?
    || (|events| >= 2 && Advances(events[1], fetched)
        && Answered(events[2..], fetched + BatchOf(events[1]).value.tupleCount))
  }

  /** Rows are read exactly when there are columns to read them by. */
  lemma BatchRows(a: Ask, d: seq<byte>)
    requires a.AskFetch? && Understand(a, d).Ok?
    ensures var b := Understand(a, d).value.0.batch;
            |b.rows| == if b.tupleCount > 0 && a.columns != [] then b.tupleCount else 0
  {
    hide ReadHeader, Signed;
  }

  /** One exchange of the loop: its events, and what is left to do if the loop goes on. */
  datatype Turn = Turn(
    sent: Event, got: Option<Event>, goesOn: bool, wire: Wire, batch: FetchResult, later: seq<Event>)
  {
    function Events(): seq<Event> {
      (if got.Some? then [sent, got.value] else [sent]) + later
    }
  }

  ghost predicate IsTurn(t: Turn, w: Wire, a: Ask, total: i32, rows: seq<Row>, events: seq<Event>)
    requires a.AskFetch?
  {
    var r := FetchRemaining(w, a.handle, a.columns, a.stmt, total, a.current, rows);
    && events == t.Events() && t.sent.Sent? && t.sent.ask == a
    && (t.got.Some? ==> exists d :: t.got.value == Got(a, d))
    && (t.goesOn ==>
          && t.got.Some? && BatchOf(t.got.value) == Some(t.batch) && t.batch.tupleCount != 0
          && -0x8000_0000 <= a.current + t.batch.tupleCount <= I32_MAX
          && |t.wire.input| < |w.input|
          && var r' := FetchRemaining(t.wire, a.handle, a.columns, a.stmt, total, a.current + t.batch.tupleCount,
                                      rows + t.batch.rows);
             r'.0 == r.0 && r'.1.log == t.wire.log + t.later)
    && (!t.goesOn ==>
          && t.later == []
          && (r.0.Ok? ==> r.0.value == rows && t.got.Some? && Exhausted([t.got.value]))
          && (r.0.Ok? <==> t.got.Some? && Advances(t.got.value, a.current)))
  }

  lemma FirstTurn(w: Wire, a: Ask, total: i32, rows: seq<Row>, events: seq<Event>) returns (t: Turn)
    requires a.AskFetch? && a.current < total
    requires FetchRemaining(w, a.handle, a.columns, a.stmt, total, a.current, rows).1.log == w.log + events
    ensures IsTurn(t, w, a, total, rows, events)
  {
    hide Call, Body, Frame, Understand;
    CallLogs(w, a);
    CallAnswers(w, a);
    var (reply, w') := Call(w, a);
    var sent := Sent(a, Frame(Body(a), w.cas));
    var nothing := FetchResult(0, []);
    if reply == Err(Io) && w'.log == w.log + [sent] {
      SameTail(w.log, [sent], events);
      t := Turn(sent, None, false, w', nothing, []);
      assert t.Events() == [sent];
    } else {
      var d :| Concluded(w, a, d);
      var got := Got(a, d);
      ConcludedBatch(w, a, d);
      hide Concluded, BatchOf;
      if reply.Ok? && reply.value.batch.tupleCount != 0
         && -0x8000_0000 <= a.current + reply.value.batch.tupleCount <= I32_MAX {
        var b := reply.value.batch;
        FetchLogs(w', a.handle, a.columns, a.stmt, total, a.current + b.tupleCount, rows + b.rows);
        var later := (w.log + events)[|w'.log|..];
        assert w.log + events == w.log + ([sent, got] + later);
        SameTail(w.log, [sent, got] + later, events);
        t := Turn(sent, Some(got), true, w', b, later);
      } else {
        SameTail(w.log, [sent, got], events);
        t := Turn(sent, Some(got), false, w', nothing, []);
        assert t.Events() == [sent, got];
      }
    }
  }

  lemma ConcludedBatch(w: Wire, a: Ask, d: seq<byte>)
    requires a.AskFetch? && Concluded(w, a, d)
    ensures Call(w, a).1.log == w.log + [Sent(a, Frame(Body(a), w.cas)), Got(a, d)]
    ensures BatchOf(Got(a, d)) == match Call(w, a).0 case Ok(Fetched(b)) => Some(b) case _ => None
  {
    hide Call, Body, Frame, Understand;
    CallAnswers(w, a);
  }

  lemma SameTail(log: seq<Event>, a: seq<Event>, b: seq<Event>)
    requires log + a == log + b
    ensures a == b
  {
    assert (log + a)[|log|..] == a && (log + b)[|log|..] == b;
  }

  lemma LoopEnds(w: Wire, a: Ask, total: i32, fetched: i32, rows: seq<Row>)
    requires a.AskFetch? && fetched >= total
    ensures FetchRemaining(w, a.handle, a.columns, a.stmt, total, fetched, rows) == (Ok(rows), w)
  {
  }

  lemma LoopOver(w: Wire, a: Ask, total: i32, fetched: i32, rows: seq<Row>, events: seq<Event>)
    requires a.AskFetch? && fetched >= total
    requires FetchRemaining(w, a.handle, a.columns, a.stmt, total, fetched, rows).1.log == w.log + events
    ensures events == []
    ensures FetchRemaining(w, a.handle, a.columns, a.stmt, total, fetched, rows).0 == Ok(rows)
  {
    assert w.log == w.log + [];
    SameTail(w.log, [], events);
  }

  /** How far a reply that announces fewer than no rows throws the loop back: what it announces, and its request. */
  function Setback(e: Event): nat {
    if BatchOf(e).Some? && BatchOf(e).value.tupleCount < 0 then 1 - BatchOf(e).value.tupleCount else 0
  }

  function Setbacks(events: seq<Event>): nat {
    if events == [] then 0 else Setback(events[0]) + Setbacks(events[1..])
  }

  /** Against any server, and whether it ends well, with an error or with an overflow, the loop makes at most as many
      requests as rows are missing, not counting setbacks. */
  lemma {:induction false} FetchBound(w: Wire, a: Ask, total: i32, rows: seq<Row>, events: seq<Event>)
    requires a.AskFetch?
    requires FetchRemaining(w, a.handle, a.columns, a.stmt, total, a.current, rows).1.log == w.log + events
    ensures Fetches(events) <= (if a.current <= total then total - a.current else 0) + Setbacks(events)
    decreases |w.input|
  {
    hide FetchRemaining, BatchOf, Fetches, Setback, Setbacks;
    if a.current >= total {
      LoopOver(w, a, total, a.current, rows, events);
      NoFetches();
    } else {
      var t := FirstTurn(w, a, total, rows, events);
      TurnFetches(t);
      if t.goesOn {
        TurnSetback(t);
        var next := a.current + t.batch.tupleCount;
        if next < total {
          FetchBound(t.wire, a.(current := next), total, rows + t.batch.rows, t.later);
        } else {
          LoopOver(t.wire, a, total, next, rows + t.batch.rows, t.later);
          NoFetches();
        }
      } else {
        NoFetches();
      }
    }
  }

  /** Without negative counts there are no setbacks. */
  lemma {:induction false} NoSetbacks(events: seq<Event>)
    requires Counting(events)
    ensures Setbacks(events) == 0
  {
    hide BatchOf;
    if events != [] {
      assert events[0] in events && forall e :: e in events[1..] ==> e in events;
      NoSetbacks(events[1..]);
    }
  }

  lemma TurnSetback(t: Turn)
    requires t.got.Some? && BatchOf(t.got.value) == Some(t.batch) && t.sent.Sent?
    ensures Setbacks(t.Events())
            == (if t.batch.tupleCount < 0 then 1 - t.batch.tupleCount else 0) + Setbacks(t.later)
  {
    hide Understand;
    var events := t.Events();
    assert events[1..] == [t.got.value] + t.later;
    assert ([t.got.value] + t.later)[1..] == t.later;
  }

  /** The loop succeeds if and only if every fetch is answered. */
  lemma {:induction false} FetchReturns(w: Wire, a: Ask, total: i32, rows: seq<Row>, events: seq<Event>)
    requires a.AskFetch?
    requires FetchRemaining(w, a.handle, a.columns, a.stmt, total, a.current, rows).1.log == w.log + events
    ensures FetchRemaining(w, a.handle, a.columns, a.stmt, total, a.current, rows).0.Ok?
            <==> Answered(events, a.current)
    decreases |w.input|
  {
    hide FetchRemaining, BatchOf;
    if a.current >= total {
      LoopOver(w, a, total, a.current, rows, events);
    } else {
      var t := FirstTurn(w, a, total, rows, events);
      if t.goesOn {
        assert events[2..] == t.later;
        var next := a.current + t.batch.tupleCount;
        if next < total {
          FetchReturns(t.wire, a.(current := next), total, rows + t.batch.rows, t.later);
        } else {
          LoopOver(t.wire, a, total, next, rows + t.batch.rows, t.later);
        }
      } else if t.got.Some? {
        assert events == [t.sent, t.got.value] && events[2..] == [];
      }
    }
  }

  lemma NoFetches()
    ensures Fetches([]) == 0
  {
  }

  lemma TurnFetches(t: Turn)
    requires t.sent.Sent? && t.sent.ask.AskFetch? && (t.got.Some? ==> t.got.value.Got?)
    ensures Fetches(t.Events()) == 1 + Fetches(t.later)
  {
    hide BatchOf;
    var events := t.Events();
    if t.got.Some? {
      assert events[1..] == [t.got.value] + t.later;
      assert ([t.got.value] + t.later)[1..] == t.later;
    } else {
      assert events[1..] == t.later;
    }
  }

  lemma TurnCounts(t: Turn)
    requires t.got.Some? && BatchOf(t.got.value) == Some(t.batch) && t.sent.Sent?
    ensures CountingBeforeLast(t.Events())
            <==> (t.later == [] || t.batch.tupleCount >= 0) && CountingBeforeLast(t.later)
  {
    hide BatchOf;
    NoBatchSent(t.sent);
    var events := t.Events();
    assert events[0] == t.sent && events[1] == t.got.value;
    assert forall i :: 0 <= i < |t.later| ==> events[i + 2] == t.later[i];
    if CountingBeforeLast(events) {
      forall i | 0 <= i < |t.later| - 1 && BatchOf(t.later[i]).Some?
        ensures BatchOf(t.later[i]).value.tupleCount >= 0
      {
        assert events[i + 2] == t.later[i];
      }
    } else {
      var i :| 0 <= i < |events| - 1 && BatchOf(events[i]).Some? && BatchOf(events[i]).value.tupleCount < 0;
      if i >= 2 { assert events[i] == t.later[i - 2]; }
    }
  }

  /** With columns and against any server, what is returned begins with the rows that were there, and it is as many as
      the total or the server said that there were no more. */
  lemma {:induction false} FetchGathers(w: Wire, a: Ask, total: i32, rows: seq<Row>, events: seq<Event>)
    requires a.AskFetch? && a.columns != [] && a.current <= |rows|
    requires FetchRemaining(w, a.handle, a.columns, a.stmt, total, a.current, rows).1.log == w.log + events
    ensures var r := FetchRemaining(w, a.handle, a.columns, a.stmt, total, a.current, rows).0;
            r.Ok? ==> rows <= r.value && (|r.value| >= total || Exhausted(events))
    decreases |w.input|
  {
    hide FetchRemaining, BatchOf, Understand;
    if a.current >= total {
      LoopOver(w, a, total, a.current, rows, events);
    } else {
      var t := FirstTurn(w, a, total, rows, events);
      if t.goesOn {
        TurnRows(t, a);
        var next := a.current + t.batch.tupleCount;
        if next < total {
          FetchGathers(t.wire, a.(current := next), total, rows + t.batch.rows, t.later);
        } else {
          LoopOver(t.wire, a, total, next, rows + t.batch.rows, t.later);
        }
        if t.later != [] { assert events[|events| - 1] == t.later[|t.later| - 1]; }
      } else if t.got.Some? {
        assert events == [t.sent, t.got.value];
      }
    }
  }

  /** With columns, every request asks for the rows after those that are here if and only if no reply that announces a
      negative number is followed by another request. */
  lemma {:induction false} FetchTracks(w: Wire, a: Ask, total: i32, rows: seq<Row>, events: seq<Event>)
    requires a.AskFetch? && a.columns != [] && a.current == |rows|
    requires FetchRemaining(w, a.handle, a.columns, a.stmt, total, a.current, rows).1.log == w.log + events
    ensures Tracks(events, |rows|) <==> CountingBeforeLast(events)
    decreases |w.input|
  {
    hide FetchRemaining, BatchOf, Understand, CountingBeforeLast;
    FewCount(events);
    if a.current >= total {
      LoopOver(w, a, total, a.current, rows, events);
    } else {
      var t := FirstTurn(w, a, total, rows, events);
      if t.goesOn {
        TurnRows(t, a);
        TurnCounts(t);
        FewCount(t.later);
        var next := a.current + t.batch.tupleCount;
        assert events[2..] == t.later;
        if next >= total {
          LoopOver(t.wire, a, total, next, rows + t.batch.rows, t.later);
        } else if t.batch.tupleCount < 0 {
          var u := FirstTurn(t.wire, a.(current := next), total, rows + t.batch.rows, t.later);
          assert t.later[0] == u.sent;
        } else {
          FetchTracks(t.wire, a.(current := next), total, rows + t.batch.rows, t.later);
        }
      } else if t.got.Some? {
        assert events == [t.sent, t.got.value] && events[2..] == [];
      }
    }
  }

  lemma FewCount(events: seq<Event>)
    ensures |events| <= 2 && (events != [] ==> events[0].Sent?) ==> CountingBeforeLast(events)
  {
    hide Understand;
  }

  lemma NoBatchSent(e: Event)
    requires e.Sent?
    ensures BatchOf(e) == None
  {
  }

  lemma TurnRows(t: Turn, a: Ask)
    requires a.AskFetch? && a.columns != [] && t.got.Some?
    requires BatchOf(t.got.value) == Some(t.batch) && exists d :: t.got.value == Got(a, d)
    ensures |t.batch.rows| == if t.batch.tupleCount > 0 then t.batch.tupleCount else 0
  {
    hide Understand;
    BatchRows(a, t.got.value.data);
  }

  // ---------------------------------------------------------------------------
  // Setbacks do happen
  // ---------------------------------------------------------------------------

  /** What a piece of work added to the history. */
  function Since(before: Wire, after: Wire): seq<Event> {
    if before.log <= after.log then after.log[|before.log|..] else []
  }

  /** One round of the loop on a faultless stream. */
  lemma FetchStep(w: Wire, a: Ask, total: i32, rows: seq<Row>, data: seq<byte>, rest: seq<byte>, b: FetchResult,
                  cas: CasInfo)
    requires a.AskFetch? && a.current < total && w.faults == [] && Framable(data) && w.input == Framed(data) + rest
    requires Understand(a, data) == Ok((Fetched(b), cas))
    requires b.tupleCount != 0 && -0x8000_0000 <= a.current + b.tupleCount <= I32_MAX
    ensures var w' := Call(w, a).1;
            && w'.input == rest && w'.faults == []
            && w'.log == w.log + [Sent(a, Frame(Body(a), w.cas)), Got(a, data)]
            && FetchRemaining(w, a.handle, a.columns, a.stmt, total, a.current, rows)
               == FetchRemaining(w', a.handle, a.columns, a.stmt, total, a.current + b.tupleCount, rows + b.rows)
  {
    hide Call, Frame, Body, Understand, Framed, Framable;
    CallOnFrame(w, a, data, rest);
    CallAnswers(w, a);
  }

  /** The events of such a round and of what follows. */
  lemma RoundSince(w: Wire, w': Wire, end: Wire, sent: Event, got: Event)
    requires w'.log == w.log + [sent, got] && w'.log <= end.log && sent.Sent? && sent.ask.AskFetch? && got.Got?
    ensures w.log <= end.log && Since(w, end) == [sent, got] + Since(w', end)
    ensures Fetches(Since(w, end)) == 1 + Fetches(Since(w', end))
  {
    var later := Since(w', end);
    assert ([sent, got] + later)[1..] == [got] + later && ([got] + later)[1..] == later;
    assert end.log == w'.log + later;
  }

  lemma NothingSince(w: Wire)
    ensures Since(w, w) == []
  {
  }

  /** A fetch reply that announces one row fewer than none. */
  function Back(cas: CasInfo): seq<byte> { EncodeAnnounced(cas, 0, -1, []) }

  function Backs(n: nat, cas: CasInfo): seq<byte> {
    if n == 0 then [] else Framed(Back(cas)) + Backs(n - 1, cas)
  }

  lemma BackUnderstood(a: Ask, cas: CasInfo)
    requires a.AskFetch?
    ensures Framable(Back(cas)) && Understand(a, Back(cas)) == Ok((Fetched(FetchResult(-1, [])), cas))
  {
    hide ReadFetch;
    NothingAnnounced(cas, 0, -1, [], a.columns, a.stmt);
  }

  /** A server that keeps announcing them keeps the loop asking, however few rows are missing, until the stream
      ends. */
  lemma {:induction false} SetbacksStall(w: Wire, a: Ask, total: i32, n: nat, cas: CasInfo)
    requires a.AskFetch? && a.current < total && a.current - n >= -0x8000_0000
    requires w.faults == [] && w.input == Backs(n, cas)
    ensures var end := FetchRemaining(w, a.handle, a.columns, a.stmt, total, a.current, []);
            end.0 == Err(Io) && w.log <= end.1.log && Fetches(Since(w, end.1)) == n + 1
    decreases n
  {
    hide Call, Frame, Body, Understand, Framed, Back;
    if n == 0 {
      NothingArrives(w, a, total);
    } else {
      BackUnderstood(a, cas);
      var none: seq<Row> := [];
      assert none + none == none;
      FetchStep(w, a, total, none, Back(cas), Backs(n - 1, cas), FetchResult(-1, none), cas);
      var w' := Call(w, a).1;
      SetbacksStall(w', a.(current := a.current - 1), total, n - 1, cas);
      var end := FetchRemaining(w', a.handle, a.columns, a.stmt, total, a.current - 1, []).1;
      RoundSince(w, w', end, Sent(a, Frame(Body(a), w.cas)), Got(a, Back(cas)));
    }
  }

  lemma NothingArrives(w: Wire, a: Ask, total: i32)
    requires a.AskFetch? && a.current < total && w.faults == [] && w.input == []
    ensures var end := FetchRemaining(w, a.handle, a.columns, a.stmt, total, a.current, []);
            end.0 == Err(Io) && w.log <= end.1.log && Fetches(Since(w, end.1)) == 1
  {
    hide Understand, Frame, Body;
    var end := FetchRemaining(w, a.handle, a.columns, a.stmt, total, a.current, []).1;
    assert Since(w, end) == [Sent(a, Frame(Body(a), w.cas))];
  }

  // ---------------------------------------------------------------------------
  // When a query returns rows
  // ---------------------------------------------------------------------------

  /** The first reply among the events, when it is accepted as the start of a query. */
  function Started(events: seq<Event>): (r: Option<PrepareAndExecuteResult>)
    ensures r.Some? ==> |events| >= 2
  {
    if |events| >= 2 && events[1].Got? then
      match Understand(events[1].ask, events[1].data)
      case Ok((Ran(p), _)) => Some(p)
      case _ => None
    else None
  }

  /** A SELECT with fewer inline rows than its total. */
  predicate Missing(p: PrepareAndExecuteResult) {
    p.statementType.IsSelect() && AsI32(|p.rows|) < p.totalTupleCount
  }

  /** Events that end an answered cursor loop change nothing about it. */
  lemma {:induction false} AnsweredMore(events: seq<Event>, more: seq<Event>, fetched: int)
    requires Answered(events, fetched)
    requires more != [] ==> !(more[0].Sent? && more[0].ask.AskFetch?)
    ensures Answered(events + more, fetched)
    decreases |events|
  {
    hide BatchOf;
    if events == [] {
      assert events + more == more;
    } else if events[0].Sent? && events[0].ask.AskFetch? {
      AnsweredMore(events[2..], more, fetched + BatchOf(events[1]).value.tupleCount);
      assert (events + more)[2..] == events[2..] + more;
    }
  }

  /** The rows of a query arrive if and only if there is nothing to fetch or every fetch is answered. */
  lemma AllRowsReturn(w: Wire, p: PrepareAndExecuteResult)
    ensures var all := AllRows(w, p.queryHandle, p.columns, p.statementType, p.totalTupleCount, p.rows);
            && w.log <= all.1.log
            && (all.0.Ok? <==> Missing(p) ==> Answered(Since(w, all.1), AsI32(|p.rows|)))
            && (!Missing(p) ==> all.1 == w)
  {
    hide FetchRemaining, Answered, AsI32;
    AllRowsLog(w, p.queryHandle, p.columns, p.statementType, p.totalTupleCount, p.rows);
    if Missing(p) {
      var a := AskFetch(p.queryHandle, AsI32(|p.rows|), p.columns, p.statementType);
      var end := FetchRemaining(w, a.handle, a.columns, a.stmt, p.totalTupleCount, a.current, p.rows).1;
      assert end.log == w.log + Since(w, end);
      FetchReturns(w, a, p.totalTupleCount, p.rows, Since(w, end));
    }
  }

  /** `query` returns rows if and only if its first reply is accepted and every fetch that is needed is answered. */
  lemma QueryReturns(c: ClientState, sql: string)
    requires c.open
    ensures var (r, c') := Query(c, sql);
            var events := Since(c.wire, c'.wire);
            r.Ok? <==> && Started(events).Some?
                       && (Missing(Started(events).value) ==>
                             Answered(events[2..], AsI32(|Started(events).value.rows|)))
    ensures Started(Since(c.wire, Query(c, sql).1.wire))
            == match Call(c.wire, AskRun(sql, c.autoCommit, c.proto)).0 case Ok(Ran(p)) => Some(p) case _ => None
  {
    hide Call, AllRows, Release, Answered, Understand, Frame, Body, Missing, AsI32;
    var a := AskRun(sql, c.autoCommit, c.proto);
    CallPrecedesQuery(c, sql);
    CallLogs(c.wire, a);
    CallAnswers(c.wire, a);
    var (reply, w) := Call(c.wire, a);
    var end := Query(c, sql).1.wire;
    var events := Since(c.wire, end);
    if reply == Err(Io) && w.log == c.wire.log + [Sent(a, Frame(Body(a), c.wire.cas))] {
      assert |events| == 1;
    } else {
      var d :| Concluded(c.wire, a, d);
      assert events[1] == end.log[|c.wire.log| + 1] == w.log[|c.wire.log| + 1] == Got(a, d);
      StartedBy(a, d, events);
      if reply.Ok? { RowsReturn(c, sql, reply.value.run, w, end); }
    }
  }

  lemma StartedBy(a: Ask, d: seq<byte>, events: seq<Event>)
    requires a.AskRun? && |events| >= 2 && events[1] == Got(a, d)
    ensures Started(events) == match Understand(a, d) case Ok((Ran(p), _)) => Some(p) case _ => None
    ensures Understand(a, d).Ok? ==> Understand(a, d).value.0.Ran?
  {
    hide ReadPrepareAndExecute;
  }

  /** After an accepted first reply. */
  lemma RowsReturn(c: ClientState, sql: string, p: PrepareAndExecuteResult, w: Wire, end: Wire)
    requires c.open && Call(c.wire, AskRun(sql, c.autoCommit, c.proto)) == (Ok(Ran(p)), w)
    requires end == Query(c, sql).1.wire && c.wire.log <= w.log && |w.log| == |c.wire.log| + 2
    ensures |Since(c.wire, end)| >= 2 && w.log <= end.log && Since(c.wire, end)[2..] == Since(w, end)
    ensures Query(c, sql).0.Ok? <==> Missing(p) ==> Answered(Since(w, end), AsI32(|p.rows|))
  {
    hide Call, AllRows, Release, Answered, Missing, AsI32;
    var all := AllRows(w, p.queryHandle, p.columns, p.statementType, p.totalTupleCount, p.rows);
    AllRowsReturn(w, p);
    if all.0.Ok? {
      ReleaseLogs(all.1, p.queryHandle);
      var more := end.log[|all.1.log|..];
      assert Since(w, end) == Since(w, all.1) + more;
      ReleaseIsNoFetch(all.1, p.queryHandle, more);
      if Answered(Since(w, all.1), AsI32(|p.rows|)) { AnsweredMore(Since(w, all.1), more, AsI32(|p.rows|)); }
    }
  }

  lemma ReleaseIsNoFetch(w: Wire, handle: i32, more: seq<Event>)
    requires w.log <= Release(w, handle).log && more == Release(w, handle).log[|w.log|..]
    ensures more != [] ==> more[0].Sent? && more[0].ask.AskClose?
  {
    hide Call, Understand, Body, Frame;
    if handle > 0 { CallLogs(w, AskClose(handle)); }
  }
}
