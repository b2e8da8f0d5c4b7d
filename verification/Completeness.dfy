/** The client reassembles the whole result set, however the server cuts it up. */
module Completeness {
  import opened Bytes
  import opened Wrappers
  import opened Types
  import opened Rows
  import opened Response
  import opened Replies
  import opened Writer
  import opened Request
  import opened Link
  import opened Session
  import Interpolation

  // ---------------------------------------------------------------------------
  // A server with a cursor
  // ---------------------------------------------------------------------------

  /** A legal answer to a fetch: a nonempty run of rows from the position the request's bytes ask for, no more
      than the size they ask for. */
  ghost predicate ServesFetch(rows: seq<WireRow>, frame: seq<byte>, data: seq<byte>) {
    && Arguments(frame).Some?
    && var args := Arguments(frame).value;
    && |args| == 5
    && var start, size := Signed(args[1]), Signed(args[2]);
    && exists n: nat, cas, code: nat, tail :: FetchReply(rows, start, n, size, cas, code, tail, data)
  }

  ghost predicate FetchReply(rows: seq<WireRow>, start: int, n: nat, size: int, cas: CasInfo, code: nat,
                             tail: seq<byte>, data: seq<byte>)
  {
    && 1 <= n <= size && 1 <= start && start - 1 + n <= |rows| && code <= I32_MAX
    && data == EncodeFetchReply(cas, code, rows[start - 1..start - 1 + n], tail)
  }

  /** Every fetch is answered, and legally. */
  ghost predicate Served(rows: seq<WireRow>, events: seq<Event>) {
    forall i :: 0 <= i < |events| && events[i].Sent? && events[i].ask.AskFetch? ==>
      i + 1 < |events| && events[i + 1].Got? && ServesFetch(rows, events[i].frame, events[i + 1].data)
  }

  predicate AllFit(rows: seq<WireRow>, columns: seq<ColumnMetaData>, stmt: StatementType) {
    forall row :: row in rows ==> RowFits(row, columns, stmt.IsCall())
  }

  /** The reply to a SELECT (statement byte 21) over these rows: at least one column, the right total, and any first
      rows inline. */
  predicate OpensCursor(rows: seq<WireRow>, reply: WireReply) {
    var columns, stmt := ColumnsMeaning(reply.statement.columns), StatementTypeOf(reply.statement.stmt);
    && reply.Fits() && reply.statement.stmt == 21 && columns != [] && AllFit(rows, columns, stmt)
    && reply.total == |rows| && InlineRows(reply.inline) <= rows
  }

  // ---------------------------------------------------------------------------
  // What the wire's history says about a call
  // ---------------------------------------------------------------------------

  /** A call leaves its request in the history and, if a reply came, the reply it is judged by. */
  lemma CallLogs(w: Wire, a: Ask)
    ensures var frame, r, w' := Frame(Body(a), w.cas), Call(w, a).0, Call(w, a).1;
            || (r == Err(Io) && w'.log == w.log + [Sent(a, frame)])
            || (exists d :: Concluded(w, a, d))
  {
    hide Understand, Body, Frame, Unsigned;
    var frame := Frame(Body(a), w.cas);
    var (sent, w1) := Send(w, a, frame);
    if sent {
      var (data, w2) := Recv(w1, a);
      if data.Some? {
        assert w2.log == (w.log + [Sent(a, frame)]) + [Got(a, data.value)];
        assert Concluded(w, a, data.value);
      }
    }
  }

  ghost predicate Concluded(w: Wire, a: Ask, d: seq<byte>) {
    && Call(w, a).1.log == w.log + [Sent(a, Frame(Body(a), w.cas)), Got(a, d)]
    && match Understand(a, d)
       case Ok((answer, _)) => Call(w, a).0 == Ok(answer)
       case Err(e) => Call(w, a).0 == Err(Protocol(e))
       case Crash => Call(w, a).0 == Crash
  }

  lemma {:induction false} FetchLogs(w: Wire, handle: i32, columns: seq<ColumnMetaData>, stmt: StatementType,
                                     total: i32, fetched: i32, rows: seq<Row>)
    ensures w.log <= FetchRemaining(w, handle, columns, stmt, total, fetched, rows).1.log
    decreases |w.input|
  {
    hide Call, Understand, Body, Frame;
    if fetched < total {
      var a := AskFetch(handle, fetched, columns, stmt);
      CallLogs(w, a);
      var (reply, w') := Call(w, a);
      if reply.Ok? {
        CallAnswers(w, a);
        var count := reply.value.batch.tupleCount;
        if count != 0 && -0x8000_0000 <= fetched + count <= I32_MAX {
          FetchLogs(w', handle, columns, stmt, total, fetched + count, rows + reply.value.batch.rows);
        }
      }
    }
  }

  /** The bytes of a fetch request ask for the position after the rows already here. */
  lemma FetchAsks(a: Ask, cas: CasInfo)
    requires a.AskFetch?
    ensures Arguments(Frame(Body(a), cas)) == Some(FetchArgs(a.handle, a.current, DEFAULT_FETCH_SIZE))
  {
    hide Split, Join, BeU32, Be32;
    var args := FetchArgs(a.handle, a.current, DEFAULT_FETCH_SIZE);
    SplitInverts(args);
    var frame := Frame(Body(a), cas);
    assert frame[9..] == Join(args);
  }

  lemma {:induction false} MeaningConcat(a: seq<WireRow>, b: seq<WireRow>)
    ensures RowsMeaning(a + b) == RowsMeaning(a) + RowsMeaning(b)
  {
    if a == [] {
      assert a + b == b;
    } else {
      assert (a + b)[1..] == a[1..] + b;
      MeaningConcat(a[1..], b);
    }
  }

  /** A served fetch brings the next rows, at least one. */
  lemma FetchBrings(w: Wire, a: Ask, d: seq<byte>, rows: seq<WireRow>)
    requires a.AskFetch? && 0 <= a.current < |rows| <= I32_MAX
    requires a.columns != [] && AllFit(rows, a.columns, a.stmt)
    requires Concluded(w, a, d) && ServesFetch(rows, Frame(Body(a), w.cas), d)
    ensures exists n :: Brought(rows, a, n, Call(w, a).0)
  {
    hide Call, Frame, Body, Split, ReadFetch, EncodeFetchReply, RowFits, RowsMeaning, Be32, Arguments, FetchReply;
    FetchAsks(a, w.cas);
    var n: nat, cas, code: nat, tail :| FetchReply(rows, a.current + 1, n, DEFAULT_FETCH_SIZE, cas, code, tail, d);
    SliceReads(a, rows, n, cas, code, tail, d);
    assert Brought(rows, a, n, Call(w, a).0);
  }

  lemma SliceReads(a: Ask, rows: seq<WireRow>, n: nat, cas: CasInfo, code: nat, tail: seq<byte>, d: seq<byte>)
    requires a.AskFetch? && 0 <= a.current < |rows| <= I32_MAX
    requires a.columns != [] && AllFit(rows, a.columns, a.stmt)
    requires FetchReply(rows, a.current + 1, n, DEFAULT_FETCH_SIZE, cas, code, tail, d)
    ensures 1 <= n && a.current + n <= |rows|
    ensures Understand(a, d) == Ok((Fetched(FetchResult(n, RowsMeaning(rows[a.current..a.current + n]))), cas))
  {
    hide ReadFetch, EncodeFetchReply, RowFits, RowsMeaning;
    FetchInverts(cas, code, rows[a.current..a.current + n], tail, a.columns, a.stmt);
  }

  ghost predicate Brought(rows: seq<WireRow>, a: Ask, n: nat, r: Outcome<Answer, ClientError>)
    requires a.AskFetch?
  {
    && n >= 1 && 0 <= a.current && a.current + n <= |rows| <= I32_MAX
    && r == Ok(Fetched(FetchResult(n, RowsMeaning(rows[a.current..a.current + n]))))
  }

  /** A history that contains what a failure left, or more once it succeeded. */
  ghost predicate Covers<T>(log: seq<Event>, end: (Outcome<T, ClientError>, Wire)) {
    end.1.log <= log && (!end.0.Ok? ==> end.1.log == log)
  }

  /** The cursor loop, from any position it may have reached. */
  lemma {:induction false} FetchCompletes(w: Wire, handle: i32, columns: seq<ColumnMetaData>, stmt: StatementType,
                                          fetched: i32, rows: seq<WireRow>, events: seq<Event>)
    requires 0 <= fetched <= |rows| <= I32_MAX && columns != [] && AllFit(rows, columns, stmt)
    requires Covers(w.log + events,
                    FetchRemaining(w, handle, columns, stmt, |rows|, fetched, RowsMeaning(rows[..fetched])))
    requires Served(rows, events)
    ensures FetchRemaining(w, handle, columns, stmt, |rows|, fetched, RowsMeaning(rows[..fetched])).0
            == Ok(RowsMeaning(rows))
    decreases |w.input|
  {
    hide Call, Frame, Body, Understand, ServesFetch, RowsMeaning, RowFits;
    var here := RowsMeaning(rows[..fetched]);
    if fetched == |rows| {
      assert rows[..fetched] == rows;
    } else {
      var a := AskFetch(handle, fetched, columns, stmt);
      var (reply, w') := Call(w, a);
      var end := FetchRemaining(w, handle, columns, stmt, |rows|, fetched, here);
      CallLogs(w, a);
      CallAnswers(w, a);
      assert w'.log <= end.1.log by {
        if reply.Ok? {
          var batch := reply.value.batch;
          if batch.tupleCount != 0 && -0x8000_0000 <= fetched + batch.tupleCount <= I32_MAX {
            FetchLogs(w', handle, columns, stmt, |rows|, fetched + batch.tupleCount, here + batch.rows);
          }
        }
      }
      var d := FirstReply(w, a, w.log + events, events, rows);
      FetchBrings(w, a, d, rows);
      var n :| Brought(rows, a, n, reply);
      MeaningConcat(rows[..fetched], rows[fetched..fetched + n]);
      assert rows[..fetched] + rows[fetched..fetched + n] == rows[..fetched + n];
      ServedTail(rows, events);
      assert w.log + events == w'.log + events[2..];
      FetchCompletes(w', handle, columns, stmt, fetched + n, rows, events[2..]);
    }
  }

  /** A served fetch had a reply. */
  lemma FirstReply(w: Wire, a: Ask, end: seq<Event>, events: seq<Event>, rows: seq<WireRow>) returns (d: seq<byte>)
    requires a.AskFetch? && Call(w, a).1.log <= end == w.log + events && Served(rows, events)
    requires Call(w, a).0 == Err(Io) ==> end == Call(w, a).1.log
    ensures Concluded(w, a, d) && ServesFetch(rows, Frame(Body(a), w.cas), d)
    ensures |events| >= 2 && Call(w, a).1.log == w.log + events[..2]
  {
    hide Call, Frame, Body, Understand, ServesFetch;
    CallLogs(w, a);
    var sent := Sent(a, Frame(Body(a), w.cas));
    var log := Call(w, a).1.log;
    assert end[|w.log|..] == events;
    assert log[|w.log|] == sent;
    assert events[0] == end[|w.log|] == sent;
    d :| Concluded(w, a, d);
    assert events[1] == end[|w.log| + 1] == log[|w.log| + 1] == Got(a, d);
    assert events[..2] == [sent, Got(a, d)];
  }

  lemma ServedTail(rows: seq<WireRow>, events: seq<Event>)
    requires |events| >= 2 && Served(rows, events)
    ensures Served(rows, events[2..])
  {
    forall i | 0 <= i < |events[2..]| && events[2..][i].Sent? && events[2..][i].ask.AskFetch?
      ensures i + 1 < |events[2..]| && events[2..][i + 1].Got?
              && ServesFetch(rows, events[2..][i].frame, events[2..][i + 1].data)
    {
      assert events[2..][i] == events[2 + i];
    }
  }

  lemma {:induction false} AllRowsComplete(w: Wire, handle: i32, columns: seq<ColumnMetaData>, stmt: StatementType,
                        inline: seq<WireRow>, rows: seq<WireRow>, events: seq<Event>)
    requires inline <= rows && |rows| <= I32_MAX && columns != [] && AllFit(rows, columns, stmt) && stmt.IsSelect()
    requires Covers(w.log + events, AllRows(w, handle, columns, stmt, |rows|, RowsMeaning(inline)))
    requires Served(rows, events)
    ensures AllRows(w, handle, columns, stmt, |rows|, RowsMeaning(inline)).0 == Ok(RowsMeaning(rows))
  {
    hide FetchRemaining, Served, RowsMeaning, RowFits;
    assert rows[..|inline|] == inline;
    if |inline| < |rows| {
      FetchCompletes(w, handle, columns, stmt, |inline|, rows, events);
    } else {
      assert inline == rows;
    }
  }

  lemma AllRowsLog(w: Wire, handle: i32, columns: seq<ColumnMetaData>, stmt: StatementType, total: i32,
                   rows: seq<Row>)
    ensures w.log <= AllRows(w, handle, columns, stmt, total, rows).1.log
  {
    hide FetchRemaining;
    FetchLogs(w, handle, columns, stmt, total, AsI32(|rows|), rows);
  }

  lemma ReleaseLogs(w: Wire, handle: i32)
    ensures w.log <= Release(w, handle).log
  {
    hide Call, Understand, Body, Frame;
    if handle > 0 { CallLogs(w, AskClose(handle)); }
  }

  /** Nothing follows the history of the first exchange but the rest of the events. */
  lemma AfterFirst(w: Wire, a: Ask, d: seq<byte>, end: seq<Event>, events: seq<Event>, rows: seq<WireRow>)
    requires !a.AskFetch? && Call(w, a).1.log <= end == w.log + events
    requires |events| >= 2 && events[1] == Got(a, d) && Served(rows, events)
    requires Call(w, a).0 == Err(Io) ==> end == Call(w, a).1.log
    ensures Concluded(w, a, d) && end == Call(w, a).1.log + events[2..] && Served(rows, events[2..])
  {
    hide Call, Frame, Body, Understand, ServesFetch;
    CallLogs(w, a);
    ServedTail(rows, events);
    var log := Call(w, a).1.log;
    assert end[|w.log|..] == events;
    var d' :| Concluded(w, a, d');
    assert events[0] == end[|w.log|] == log[|w.log|];
    assert events[1] == end[|w.log| + 1] == log[|w.log| + 1] == Got(a, d');
    assert events[..2] == [events[0], events[1]];
    assert events == events[..2] + events[2..];
  }

  /** `query` returns every row exactly once, in order, for every way the server inlines and batches them. */
  lemma QueryCompletes(c: ClientState, sql: string, rows: seq<WireRow>, reply: WireReply, events: seq<Event>)
    requires c.open && |rows| <= I32_MAX && OpensCursor(rows, reply)
    requires Query(c, sql).1.wire.log == c.wire.log + events
    requires |events| >= 2 && events[1] == Got(AskRun(sql, c.autoCommit, c.proto), EncodeReply(reply, c.proto))
    requires Served(rows, events)
    ensures Query(c, sql).0
            == Ok(QueryResult(ColumnsMeaning(reply.statement.columns), RowsMeaning(rows), |rows|))
  {
    hide Call, Frame, Body, Served, AllRows, Release, RowsMeaning, RowFits, EncodeReply, ReadPrepareAndExecute,
      WireReply.Fits;
    var a, data := AskRun(sql, c.autoCommit, c.proto), EncodeReply(reply, c.proto);
    var (r, w) := Call(c.wire, a);
    var end := c.wire.log + events;
    CallPrecedesQuery(c, sql);
    AfterFirst(c.wire, a, data, end, events, rows);
    ReplyInverts(reply, c.proto);
    var p := reply.Meaning();
    assert r == Ok(Ran(p));
    InlineRowsMean(reply.inline);
    var all := AllRows(w, p.queryHandle, p.columns, p.statementType, p.totalTupleCount, p.rows);
    if all.0.Ok? { ReleaseLogs(all.1, p.queryHandle); }
    assert Covers(w.log + events[2..], all);
    AllRowsComplete(w, p.queryHandle, p.columns, p.statementType, InlineRows(reply.inline), rows, events[2..]);
  }

  lemma CallPrecedesQuery(c: ClientState, sql: string)
    requires c.open
    ensures var a := AskRun(sql, c.autoCommit, c.proto);
            && Call(c.wire, a).1.log <= Query(c, sql).1.wire.log
            && (!Call(c.wire, a).0.Ok? ==> Query(c, sql).1.wire == Call(c.wire, a).1)
  {
    hide Call, AllRows, Release;
    var a := AskRun(sql, c.autoCommit, c.proto);
    var (r, w) := Call(c.wire, a);
    CallAnswers(c.wire, a);
    if r.Ok? {
      var p := r.value.run;
      var all := AllRows(w, p.queryHandle, p.columns, p.statementType, p.totalTupleCount, p.rows);
      AllRowsLog(w, p.queryHandle, p.columns, p.statementType, p.totalTupleCount, p.rows);
      ReleaseLogs(all.1, p.queryHandle);
    }
  }

  /** The reply to a statement that is no SELECT ends the query at once: no rows, and the total of the reply. */
  lemma QueryWithoutRows(c: ClientState, sql: string, reply: WireReply)
    requires c.open && reply.Fits() && reply.statement.stmt != 21
    requires Concluded(c.wire, AskRun(sql, c.autoCommit, c.proto), EncodeReply(reply, c.proto))
    ensures Query(c, sql).0 == Ok(QueryResult(ColumnsMeaning(reply.statement.columns), [], reply.total))
  {
    hide Call, Frame, Body, Release, EncodeReply, ReadPrepareAndExecute, WireReply.Fits, FetchRemaining,
      StatementTypeOf;
    ReplyInverts(reply, c.proto);
    StatementBytes(reply.statement.stmt);
    NoInlineRows(reply);
  }

  lemma NoInlineRows(reply: WireReply)
    requires reply.Fits() && !StatementTypeOf(reply.statement.stmt).IsSelect()
    ensures reply.Meaning().rows == [] && reply.Meaning().totalTupleCount == reply.total
    ensures reply.Meaning().columns == ColumnsMeaning(reply.statement.columns)
    ensures reply.Meaning().statementType == StatementTypeOf(reply.statement.stmt)
  {
  }

  lemma CallPrecedesExecute(c: ClientState, sql: string)
    requires c.open
    ensures var a := AskRun(sql, c.autoCommit, c.proto);
            && Call(c.wire, a).1.log <= Execute(c, sql).1.wire.log
            && (!Call(c.wire, a).0.Ok? ==> Execute(c, sql).1.wire == Call(c.wire, a).1)
  {
    hide Call, Release, Affected;
    var a := AskRun(sql, c.autoCommit, c.proto);
    var (r, w) := Call(c.wire, a);
    CallAnswers(c.wire, a);
    if r.Ok? { ReleaseLogs(w, r.value.run.queryHandle); }
  }

  /** `execute` answers with the sum of the counts in the reply, if it fits. */
  lemma ExecuteCompletes(c: ClientState, sql: string, reply: WireReply)
    requires c.open && reply.Fits()
    requires Concluded(c.wire, AskRun(sql, c.autoCommit, c.proto), EncodeReply(reply, c.proto))
    ensures var counts := InfosMeaning(reply.execution.infos);
            Execute(c, sql).0 == if Total(counts) < USIZE_SPAN then Ok(Total(counts)) else Crash
  {
    hide Call, Frame, Body, Release, EncodeReply, ReadPrepareAndExecute, WireReply.Fits;
    ReplyInverts(reply, c.proto);
    AffectedExactly(InfosMeaning(reply.execution.infos), 0);
  }

  /** `prepare` gives the statement that the reply describes. */
  lemma PrepareCompletes(c: ClientState, sql: string, cas: CasInfo, handle: i32, reply: WireStatement, tail: seq<byte>)
    requires c.open && handle >= 0 && reply.Fits()
    requires Concluded(c.wire, AskPrepare(sql, c.autoCommit), EncodePrepareReply(cas, handle, reply, tail))
    ensures Prepare(c, sql).0
            == Ok(StatementState(handle, StatementTypeOf(reply.stmt), reply.bindCount, ColumnsMeaning(reply.columns),
                                 false, sql))
  {
    hide Call, Frame, Body, EncodePrepareReply, ReadPrepare, WireStatement.Fits;
    PrepareInverts(cas, handle, reply, tail);
  }

  /** A server error comes back as it was sent, from every request, and leaves the token alone. */
  lemma ErrorsSurface(w: Wire, a: Ask, cas: CasInfo, response: i32, code: i32, message: WireText)
    requires response < 0 && message.Fits()
    requires Concluded(w, a, EncodeError(cas, response, code, message))
    ensures Call(w, a).0 == Err(Protocol(ServerError(code, message.text)))
    ensures Call(w, a).1.cas == w.cas
  {
    hide Frame, Body, EncodeError, ReadExact, ReadPrepareAndExecute, ReadPrepare, ReadExecute, ReadFetch, ReadSimple,
      ReadDbVersion;
    var columns := if a.AskExecute? || a.AskFetch? then a.columns else [];
    var stmt := if a.AskExecute? || a.AskFetch? then a.stmt else Unknown;
    var proto := if a.AskRun? || a.AskExecute? then a.proto else 0;
    ErrorInverts(cas, response, code, message, columns, stmt, proto);
    SameReply(w, a, EncodeError(cas, response, code, message));
  }

  /** The reply in the history is the one that was judged. */
  lemma SameReply(w: Wire, a: Ask, d: seq<byte>)
    requires Concluded(w, a, d)
    ensures Exchange(w, a).0 == Some(d)
  {
    hide Frame, Body, Understand, ReadExact;
    var sent := Sent(a, Frame(Body(a), w.cas));
    var log := Call(w, a).1.log;
    assert log[|w.log| + 1] == Got(a, d);
    var data := Exchange(w, a).0;
    if data.Some? {
      assert log == (w.log + [sent]) + [Got(a, data.value)];
    }
  }

  /** The reply to an FC=3 execution of a SELECT over these rows. */
  predicate ReopensCursor(rows: seq<WireRow>, s: StatementState, execution: WireExecution, inline: Option<WireInline>,
                          tail: seq<byte>)
  {
    && s.statementType == StatementTypeOf(21) && s.columns != [] && AllFit(rows, s.columns, s.statementType)
    && execution.Fits() && InlineFits(inline, s.columns, s.statementType, tail) && InlineRows(inline) <= rows
  }

  /** The same for a prepared statement without parameters. */
  lemma StatementQueryCompletes(s: StatementState, c: ClientState, floats: Interpolation.FloatText, rows: seq<WireRow>,
                                cas: CasInfo, execution: WireExecution, inline: Option<WireInline>,
                                tail: seq<byte>, events: seq<Event>)
    requires !s.closed && c.open && |rows| <= I32_MAX && ReopensCursor(rows, s, execution, inline, tail)
    requires StatementQuery(s, c, [], floats).1.wire.log == c.wire.log + events
    requires |events| >= 2
    requires events[1] == Got(AskExecute(s.handle, s.statementType, s.columns, c.autoCommit, c.proto),
                              EncodeExecuteReply(cas, |rows|, execution, c.proto, inline, tail))
    requires Served(rows, events)
    ensures StatementQuery(s, c, [], floats).0 == Ok(QueryResult(s.columns, RowsMeaning(rows), |rows|))
  {
    hide Call, Frame, Body, Served, AllRows, RowsMeaning, RowFits, EncodeExecuteReply, Understand, InlineFits,
      Query, InlineMeaning, InfosMeaning;
    var a := AskExecute(s.handle, s.statementType, s.columns, c.autoCommit, c.proto);
    var data := EncodeExecuteReply(cas, |rows|, execution, c.proto, inline, tail);
    var (r, w) := Call(c.wire, a);
    CallPrecedesStatementQuery(s, c, floats);
    AfterFirst(c.wire, a, data, c.wire.log + events, events, rows);
    ExecuteUnderstood(a, cas, |rows|, execution, inline, tail);
    var here := RowsMeaning(InlineRows(inline));
    InlineRowsMean(inline);
    var all := AllRows(w, s.handle, s.columns, s.statementType, |rows|, here);
    assert Covers(w.log + events[2..], all);
    AllRowsComplete(w, s.handle, s.columns, s.statementType, InlineRows(inline), rows, events[2..]);
  }

  lemma ExecuteUnderstood(a: Ask, cas: CasInfo, total: i32, w: WireExecution, inline: Option<WireInline>,
                          tail: seq<byte>)
    requires a.AskExecute? && total >= 0 && w.Fits() && InlineFits(inline, a.columns, a.stmt, tail)
    ensures Understand(a, EncodeExecuteReply(cas, total, w, a.proto, inline, tail))
            == Ok((Executed(ExecuteResult(total, InfosMeaning(w.infos), InlineMeaning(inline).0,
                                          Readable(InlineMeaning(inline).1, a.columns))), cas))
  {
    hide ReadExecute, EncodeExecuteReply, InlineFits, InlineMeaning, InfosMeaning;
    ExecuteInverts(cas, total, w, a.proto, inline, tail, a.columns, a.stmt);
  }

  /** A statement without parameters, of any type and with any columns, answers with the sum of the counts in the
      reply, if it fits. */
  lemma StatementExecuteCompletes(s: StatementState, c: ClientState, floats: Interpolation.FloatText, cas: CasInfo,
                                  total: i32, execution: WireExecution, inline: Option<WireInline>, tail: seq<byte>)
    requires !s.closed && c.open && total >= 0
    requires execution.Fits() && InlineFits(inline, s.columns, s.statementType, tail)
    requires Concluded(c.wire, AskExecute(s.handle, s.statementType, s.columns, c.autoCommit, c.proto),
                       EncodeExecuteReply(cas, total, execution, c.proto, inline, tail))
    ensures var counts := InfosMeaning(execution.infos);
            StatementExecute(s, c, [], floats).0 == if Total(counts) < USIZE_SPAN then Ok(Total(counts)) else Crash
  {
    hide Call, Frame, Body, Execute, EncodeExecuteReply, Understand, InlineFits, InlineMeaning, InfosMeaning;
    var a := AskExecute(s.handle, s.statementType, s.columns, c.autoCommit, c.proto);
    ExecuteUnderstood(a, cas, total, execution, inline, tail);
    AffectedExactly(InfosMeaning(execution.infos), 0);
  }

  /** Nor does a prepared statement that is no SELECT have rows. */
  lemma StatementQueryWithoutRows(s: StatementState, c: ClientState, floats: Interpolation.FloatText, cas: CasInfo,
                                  total: i32, execution: WireExecution, tail: seq<byte>)
    requires !s.closed && c.open && total >= 0 && execution.Fits()
    requires s.statementType != StatementTypeOf(21)
    requires Concluded(c.wire, AskExecute(s.handle, s.statementType, s.columns, c.autoCommit, c.proto),
                       EncodeExecuteReply(cas, total, execution, c.proto, None, tail))
    ensures StatementQuery(s, c, [], floats).0 == Ok(QueryResult(s.columns, [], total))
  {
    hide Call, Frame, Body, Query, EncodeExecuteReply, Understand, InfosMeaning, FetchRemaining;
    var a := AskExecute(s.handle, s.statementType, s.columns, c.autoCommit, c.proto);
    ExecuteUnderstood(a, cas, total, execution, None, tail);
  }

  lemma InlineRowsMean(inline: Option<WireInline>)
    ensures InlineMeaning(inline).1 == RowsMeaning(InlineRows(inline))
  {
  }

  lemma CallPrecedesStatementQuery(s: StatementState, c: ClientState, floats: Interpolation.FloatText)
    requires !s.closed && c.open
    ensures var a := AskExecute(s.handle, s.statementType, s.columns, c.autoCommit, c.proto);
            && Call(c.wire, a).1.log <= StatementQuery(s, c, [], floats).1.wire.log
            && (!Call(c.wire, a).0.Ok? ==> StatementQuery(s, c, [], floats).1.wire == Call(c.wire, a).1)
  {
    hide Call, AllRows;
    var a := AskExecute(s.handle, s.statementType, s.columns, c.autoCommit, c.proto);
    var (r, w) := Call(c.wire, a);
    CallAnswers(c.wire, a);
    if r.Ok? {
      var e := r.value.executed;
      AllRowsLog(w, s.handle, s.columns, s.statementType, e.totalTupleCount, e.rows);
    }
  }

  // ---------------------------------------------------------------------------
  // Over the bytes of a server that cuts the rest of the rows into given sizes
  // ---------------------------------------------------------------------------

  /** A reply on the stream. */
  function Framed(data: seq<byte>): seq<byte>
    requires |data| >= 4
  {
    Frame(data[4..], data[..4])
  }

  predicate Framable(data: seq<byte>) { 4 <= |data| < 0x1_0000_0004 }

  function Sum(sizes: seq<nat>): nat {
    if sizes == [] then 0 else sizes[0] + Sum(sizes[1..])
  }

  function Batch(rows: seq<WireRow>, from: nat, n: nat, cas: CasInfo): seq<byte>
    requires from + n <= |rows|
  {
    EncodeFetchReply(cas, 0, rows[from..from + n], [])
  }

  /** The fetch replies for the rows after `from`, cut into these sizes. */
  function Batches(rows: seq<WireRow>, from: nat, sizes: seq<nat>, cas: CasInfo, rest: seq<byte>): seq<byte>
    requires from + Sum(sizes) <= |rows|
    decreases |sizes|
  {
    if sizes == [] then rest
    else Framed(Batch(rows, from, sizes[0], cas)) + Batches(rows, from + sizes[0], sizes[1..], cas, rest)
  }

  predicate Cuts(rows: seq<WireRow>, from: nat, sizes: seq<nat>, cas: CasInfo)
    decreases |sizes|
  {
    if sizes == [] then from == |rows|
    else
      && 1 <= sizes[0] <= DEFAULT_FETCH_SIZE && from + Sum(sizes) == |rows|
      && Framable(Batch(rows, from, sizes[0], cas)) && Cuts(rows, from + sizes[0], sizes[1..], cas)
  }

  /** A call on a faultless stream that starts with a framed reply. */
  lemma CallOnFrame(w: Wire, a: Ask, data: seq<byte>, rest: seq<byte>)
    requires w.faults == [] && Framable(data) && w.input == Framed(data) + rest
    ensures Concluded(w, a, data)
    ensures Call(w, a).1.input == rest && Call(w, a).1.faults == []
  {
    hide Understand, Body, Frame, Receive, Recv;
    ReceiveInverts(data[4..], data[..4], rest);
    assert data[..4] + data[4..] == data;
    var w1 := w.(log := w.log + [Sent(a, Frame(Body(a), w.cas))]);
    RecvReceives(w1, a);
    assert (w.log + [Sent(a, Frame(Body(a), w.cas))]) + [Got(a, data)]
           == w.log + [Sent(a, Frame(Body(a), w.cas)), Got(a, data)];
  }

  /** The loop makes one request for each of the sizes, all served, and takes exactly their bytes. */
  lemma {:induction false} BatchesServe(w: Wire, handle: i32, columns: seq<ColumnMetaData>, stmt: StatementType,
                                        fetched: i32, rows: seq<WireRow>, sizes: seq<nat>, cas: CasInfo,
                                        rest: seq<byte>)
    requires 0 <= fetched <= |rows| <= I32_MAX && columns != [] && AllFit(rows, columns, stmt)
    requires fetched + Sum(sizes) <= |rows| && Cuts(rows, fetched, sizes, cas)
    requires w.faults == [] && w.input == Batches(rows, fetched, sizes, cas, rest)
    ensures var r, end := FetchRemaining(w, handle, columns, stmt, |rows|, fetched, RowsMeaning(rows[..fetched])).0,
                          FetchRemaining(w, handle, columns, stmt, |rows|, fetched, RowsMeaning(rows[..fetched])).1;
            && r == Ok(RowsMeaning(rows))
            && end.input == rest && end.faults == []
            && |end.log| == |w.log| + 2 * |sizes|
    decreases |sizes|
  {
    hide Call, Frame, Body, Understand, RowsMeaning, RowFits, EncodeFetchReply;
    if sizes == [] {
      assert rows[..fetched] == rows;
    } else {
      var a := AskFetch(handle, fetched, columns, stmt);
      var n := sizes[0];
      var data := Batch(rows, fetched, n, cas);
      CallOnFrame(w, a, data, Batches(rows, fetched + n, sizes[1..], cas, rest));
      CallAnswers(w, a);
      assert FetchReply(rows, fetched + 1, n, DEFAULT_FETCH_SIZE, cas, 0, [], data);
      SliceReads(a, rows, n, cas, 0, [], data);
      MeaningConcat(rows[..fetched], rows[fetched..fetched + n]);
      assert rows[..fetched] + rows[fetched..fetched + n] == rows[..fetched + n];
      BatchesServe(Call(w, a).1, handle, columns, stmt, fetched + n, rows, sizes[1..], cas, rest);
    }
  }

  /** From bytes to rows: whatever rows come first and however the rest is cut, `query` on such a stream returns
      them all, whatever bytes follow. */
  lemma QueryOverBytes(c: ClientState, sql: string, rows: seq<WireRow>, reply: WireReply, sizes: seq<nat>, cas: CasInfo,
                       rest: seq<byte>)
    requires c.open && |rows| <= I32_MAX && OpensCursor(rows, reply)
    requires Framable(EncodeReply(reply, c.proto)) && c.wire.faults == []
    requires |InlineRows(reply.inline)| + Sum(sizes) <= |rows| && Cuts(rows, |InlineRows(reply.inline)|, sizes, cas)
    requires c.wire.input == Framed(EncodeReply(reply, c.proto))
                             + Batches(rows, |InlineRows(reply.inline)|, sizes, cas, rest)
    ensures Query(c, sql).0
            == Ok(QueryResult(ColumnsMeaning(reply.statement.columns), RowsMeaning(rows), |rows|))
  {
    hide Call, Frame, Body, RowsMeaning, RowFits, EncodeReply, ReadPrepareAndExecute, WireReply.Fits, Release,
      FetchRemaining, Batches, Cuts, Framed, Framable;
    var a, inline := AskRun(sql, c.autoCommit, c.proto), InlineRows(reply.inline);
    CallOnFrame(c.wire, a, EncodeReply(reply, c.proto), Batches(rows, |inline|, sizes, cas, rest));
    ReplyInverts(reply, c.proto);
    InlineRowsMean(reply.inline);
    assert rows[..|inline|] == inline;
    BatchesServe(Call(c.wire, a).1, reply.handle, ColumnsMeaning(reply.statement.columns),
                 StatementTypeOf(reply.statement.stmt), |inline|, rows, sizes, cas, rest);
    if |inline| == |rows| { assert inline == rows; }
  }
}
