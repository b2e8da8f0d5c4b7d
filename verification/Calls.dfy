/** What each client call sends and answers, in the bytes of the history it leaves. */
module Calls {
  import opened Bytes
  import opened Wrappers
  import opened Types
  import opened Codec
  import opened Response
  import opened Replies
  import opened Writer
  import opened Link
  import opened Session
  import opened Completeness
  import opened Cursor
  import opened Frames
  import Interpolation
  import Utf8

  /** The outcome of one exchange: an error of the stream, or whatever the parser makes of the reply. */
  function Judged<T>(events: seq<Event>, parse: seq<byte> -> Parse<T>): Outcome<T, ClientError> {
    if |events| < 2 || !events[1].Got? then Err(Io)
    else match parse(events[1].data)
      case Done(v, _) => Ok(v)
      case Fail(e) => Err(Protocol(e))
      case Panic => Crash
  }

  /** One request, and at most one reply to it. */
  ghost predicate Exchanged(before: Wire, after: Wire, code: byte, args: seq<seq<byte>>) {
    var events := Since(before, after);
    && 1 <= |events| <= 2 && after.log == before.log + events
    && events[0].Sent? && Says(events[0].frame, before.cas, code, args)
    && (|events| == 2 ==> events[1].Got?)
  }

  /** A call leaves its request, its reply if one came, and the token of an accepted reply. */
  lemma CallExchanges(w: Wire, a: Ask)
    requires !a.AskClose?
    ensures var (r, w') := Call(w, a);
            var events := Since(w, w');
            && w'.log == w.log + events
            && (|events| == 1 || (|events| == 2 && events[1].Got? && events[1].ask == a))
            && events[0] == Sent(a, Frame(Body(a), w.cas))
            && (|events| == 1 ==> r == Err(Io) && w'.cas == w.cas)
            && (|events| == 2 ==> match Understand(a, events[1].data)
                                  case Ok((answer, cas)) => r == Ok(answer) && w'.cas == cas
                                  case Err(e) => r == Err(Protocol(e)) && w'.cas == w.cas
                                  case Crash => r == Crash && w'.cas == w.cas)
  {
    hide Understand, Frame, Body, ReadExact;
    var sent := Sent(a, Frame(Body(a), w.cas));
    var w1 := Send(w, a, sent.frame).1;
    var w' := Call(w, a).1;
    var data := Exchange(w, a).0;
    if data.Some? {
      var got := Got(a, data.value);
      assert (w.log + [sent]) + [got] == w.log + [sent, got];
      assert Since(w, w') == [sent, got];
    } else {
      assert Since(w, w') == [sent];
    }
  }

  lemma EndTranAsks(c: ClientState, action: byte)
    requires c.open
    ensures var (r, c') := EndTran(c, action);
            var events := Since(c.wire, c'.wire);
            && c' == c.(wire := c'.wire) && Exchanged(c.wire, c'.wire, 1, [[action]])
            && (match Judged(events, ReadHeader)
                case Ok(header) => r == Ok(()) && c'.wire.cas == header.0
                case Err(e) => r == Err(e) && c'.wire.cas == c.wire.cas
                case Crash => r == Crash && c'.wire.cas == c.wire.cas)
  {
    hide Call, Frame, Body, Says, Since, ReadHeader;
    CallExchanges(c.wire, AskEnd(action));
    EndSays(action, c.wire.cas);
  }

  /** `commit` sends 1 and `rollback` sends 2; both succeed, and take over the token, if and only if a reply comes whose
      header is accepted. */
  lemma CommitAsks(c: ClientState)
    requires c.open
    ensures var (r, c') := Commit(c);
            && c' == c.(wire := c'.wire) && Exchanged(c.wire, c'.wire, 1, [[1]])
            && (match Judged(Since(c.wire, c'.wire), ReadHeader)
                case Ok(header) => r == Ok(()) && c'.wire.cas == header.0
                case Err(e) => r == Err(e) && c'.wire.cas == c.wire.cas
                case Crash => r == Crash && c'.wire.cas == c.wire.cas)
  {
    hide EndTran, Exchanged, Since, Judged;
    EndTranAsks(c, 1);
  }

  lemma RollbackAsks(c: ClientState)
    requires c.open
    ensures var (r, c') := Rollback(c);
            && c' == c.(wire := c'.wire) && Exchanged(c.wire, c'.wire, 1, [[2]])
            && (match Judged(Since(c.wire, c'.wire), ReadHeader)
                case Ok(header) => r == Ok(()) && c'.wire.cas == header.0
                case Err(e) => r == Err(e) && c'.wire.cas == c.wire.cas
                case Crash => r == Crash && c'.wire.cas == c.wire.cas)
  {
    hide EndTran, Exchanged, Since, Judged;
    EndTranAsks(c, 2);
  }

  /** `ping` sends the auto-commit mode and answers with the text of the reply. */
  lemma PingAsks(c: ClientState)
    requires c.open
    ensures var (r, c') := Ping(c);
            && c' == c.(wire := c'.wire) && Exchanged(c.wire, c'.wire, 15, [[if c.autoCommit then 1 else 0]])
            && (match Judged(Since(c.wire, c'.wire), ReadDbVersion)
                case Ok(reply) => r == Ok(reply.0) && c'.wire.cas == reply.1
                case Err(e) => r == Err(e) && c'.wire.cas == c.wire.cas
                case Crash => r == Crash && c'.wire.cas == c.wire.cas)
  {
    hide Call, Frame, Body, Says, Since, ReadDbVersion;
    CallExchanges(c.wire, AskVersion(c.autoCommit));
    VersionSays(c.autoCommit, c.wire.cas);
  }

  /** So a well-formed reply is enough for each of the three. */
  lemma PlainCallsComplete(c: ClientState, cas: CasInfo, code: i32, version: WireText)
    requires c.open && code >= 0 && version.Fits()
    requires var data := EncodeHeader(cas, code, version.Body());
             c.wire.faults == [] && Framable(data) && c.wire.input == Framed(data)
    ensures Commit(c).0 == Rollback(c).0 == Ok(()) && Ping(c).0 == Ok(version.text)
    ensures Commit(c).1.wire.cas == Rollback(c).1.wire.cas == Ping(c).1.wire.cas == cas
  {
    hide Call, Frame, Body, EncodeHeader, ReadSimple, ReadDbVersion, Framed, WireText.Fits, WireText.Body;
    var data := EncodeHeader(cas, code, version.Body());
    assert Framed(data) + [] == c.wire.input;
    SimpleInverts(cas, code, version.Body());
    VersionInverts(cas, code, version);
    CompletesWith(c.wire, AskEnd(1), data);
    CompletesWith(c.wire, AskEnd(2), data);
    CompletesWith(c.wire, AskVersion(c.autoCommit), data);
  }

  lemma CompletesWith(w: Wire, a: Ask, data: seq<byte>)
    requires !a.AskClose? && w.faults == [] && Framable(data) && w.input == Framed(data)
    requires Understand(a, data).Ok?
    ensures Call(w, a).0 == Ok(Understand(a, data).value.0) && Call(w, a).1.cas == Understand(a, data).value.1
  {
    hide Call, Frame, Body, Understand, Framed;
    assert Framed(data) + [] == w.input;
    CallOnFrame(w, a, data, []);
    CallExchanges(w, a);
    assert Since(w, Call(w, a).1) == [Sent(a, Frame(Body(a), w.cas)), Got(a, data)];
  }

  /** `close` sends its request once and for all, and does not wait for a reply. */
  lemma CloseAsks(c: ClientState)
    requires c.open
    ensures var c' := Close(c);
            && !c'.open && c'.wire.input == c.wire.input && |c'.wire.log| == |c.wire.log| + 1
            && Exchanged(c.wire, c'.wire, 31, []) && Close(c') == c'
  {
    hide Frame, Body, Says;
    LeaveSays(c.wire.cas);
    assert Since(c.wire, Close(c).wire) == [Sent(AskLeave, Frame(Body(AskLeave), c.wire.cas))];
  }

  /** On a closed client every call is refused and nothing is sent; so it is on a closed statement. */
  lemma ClosedCallsRefused(c: ClientState, s: StatementState, sql: string, params: seq<Value>,
                           floats: Interpolation.FloatText)
    ensures !c.open ==>
              && Execute(c, sql) == (Err(ConnectionClosed), c) && Query(c, sql) == (Err(ConnectionClosed), c)
              && Prepare(c, sql) == (Err(ConnectionClosed), c) && Ping(c) == (Err(ConnectionClosed), c)
              && Commit(c) == (Err(ConnectionClosed), c) && Rollback(c) == (Err(ConnectionClosed), c)
              && Close(c) == c && StatementClose(s, c).1 == c
    ensures !c.open || s.closed ==>
              && StatementExecute(s, c, params, floats) == (Err(ConnectionClosed), c)
              && StatementQuery(s, c, params, floats) == (Err(ConnectionClosed), c)
    ensures s.closed ==> StatementClose(s, c) == (s, c)
  {
  }

  /** Closing a statement sends at most one request, for its handle, and makes it one that sends nothing. */
  lemma StatementCloseAsks(s: StatementState, c: ClientState)
    requires !s.closed && c.open
    ensures var (s', c') := StatementClose(s, c);
            && s'.closed && s'.handle <= 0 && StatementClose(s', c') == (s', c')
            && (s.handle <= 0 ==> c' == c)
            && (s.handle > 0 ==> Exchanged(c.wire, c'.wire, 6, [Be32(s.handle)]) && c'.wire.cas == c.wire.cas)
  {
    hide Release, Exchanged, Be32;
    ReleaseAsks(c.wire, s.handle);
  }

  lemma ClosingKeepsToken(w: Wire, a: Ask)
    requires a.AskClose?
    ensures Call(w, a).1.cas == w.cas
  {
    hide Frame, Body, Understand;
  }

  /** The first event of a piece of work is the request of its first call. */
  lemma FirstEvent(w: Wire, a: Ask, end: Wire)
    requires !a.AskClose? && Call(w, a).1.log <= end.log
    ensures w.log <= end.log && |Since(w, end)| >= 1 && Since(w, end)[0] == Sent(a, Frame(Body(a), w.cas))
  {
    hide Call, Frame, Body, Understand;
    CallExchanges(w, a);
    var log := Call(w, a).1.log;
    assert Since(w, end)[0] == end.log[|w.log|] == log[|w.log|] == Since(w, Call(w, a).1)[0];
  }

  /** The first request of a piece of work. */
  ghost predicate Opens(before: Wire, after: Wire, code: byte, args: seq<seq<byte>>) {
    var events := Since(before, after);
    |events| >= 1 && events[0].Sent? && Says(events[0].frame, before.cas, code, args)
  }

  /** The text of a template: its pieces with the formatted values between them. */
  function Filled(sql: string, params: seq<Value>, floats: Interpolation.FloatText): string {
    Interpolation.Concat(
      Interpolation.Weave(Interpolation.Pieces(sql, |params|, false), Interpolation.Fills(params, floats)))
  }

  /** `execute` and `query` send function code 41 with the filled template as UTF-8, ended by a NUL, and the auto-commit
      mode. */
  lemma RunAsks(c: ClientState, sql: string, params: seq<Value>, floats: Interpolation.FloatText)
    requires c.open && |Utf8.Encode(Filled(sql, params, floats))| < I32_MAX
    ensures var text := Interpolated(sql, params, floats);
            var args := [[0, 0, 0, 3], Utf8.Encode(Filled(sql, params, floats)) + [0], [0],
                         [if c.autoCommit then 1 else 0], [2], ZERO, ZERO, [], ZEROS, ZERO];
            Opens(c.wire, Execute(c, text).1.wire, 41, args) && Opens(c.wire, Query(c, text).1.wire, 41, args)
  {
    Interpolation.SubstituteWeaves(sql, Interpolation.Fills(params, floats), false);
    assert Interpolated(sql, params, floats) == Filled(sql, params, floats);
    hide Call, Interpolated, Filled, Says, Frame, Body, Utf8.Encode, Since, Execute, Query;
    var text := Interpolated(sql, params, floats);
    var a := AskRun(text, c.autoCommit, c.proto);
    RunSays(text, c.autoCommit, c.proto, c.wire.cas);
    CallPrecedesQuery(c, text);
    FirstEvent(c.wire, a, Query(c, text).1.wire);
    CallPrecedesExecute(c, text);
    FirstEvent(c.wire, a, Execute(c, text).1.wire);
  }

  /** So do statements with parameters; without any they send function code 3 and their handle. */
  lemma StatementAsks(s: StatementState, c: ClientState, params: seq<Value>, floats: Interpolation.FloatText)
    requires c.open && !s.closed && |Utf8.Encode(Filled(s.sql, params, floats))| < I32_MAX
    ensures var args := if params == [] then
                          [Be32(s.handle), [0], ZERO, ZERO, [],
                           [if s.statementType == StatementTypeOf(21) then 1 else 0],
                           [if c.autoCommit then 1 else 0], [1], ZEROS, ZERO]
                        else
                          [[0, 0, 0, 3], Utf8.Encode(Filled(s.sql, params, floats)) + [0], [0],
                           [if c.autoCommit then 1 else 0], [2], ZERO, ZERO, [], ZEROS, ZERO];
            var code := if params == [] then 3 else 41;
            && Opens(c.wire, StatementExecute(s, c, params, floats).1.wire, code, args)
            && Opens(c.wire, StatementQuery(s, c, params, floats).1.wire, code, args)
  {
    hide Call, Interpolated, Filled, Says, Frame, Body, Utf8.Encode, Since, Execute, Query, StatementTypeOf, Be32,
      Opens;
    if params == [] {
      UnfilledAsks(s, c, floats);
    } else {
      RunAsks(c, s.sql, params, floats);
    }
  }

  lemma UnfilledAsks(s: StatementState, c: ClientState, floats: Interpolation.FloatText)
    requires c.open && !s.closed
    ensures var args := [Be32(s.handle), [0], ZERO, ZERO, [],
                         [if s.statementType == StatementTypeOf(21) then 1 else 0],
                         [if c.autoCommit then 1 else 0], [1], ZEROS, ZERO];
            && Opens(c.wire, StatementExecute(s, c, [], floats).1.wire, 3, args)
            && Opens(c.wire, StatementQuery(s, c, [], floats).1.wire, 3, args)
  {
    hide Call, Interpolated, Says, Frame, Body, Since, Execute, Query, StatementTypeOf, Be32, StatementQuery, Affected;
    var a := AskExecute(s.handle, s.statementType, s.columns, c.autoCommit, c.proto);
    ExecuteSays(a, c.wire.cas);
    CallAnswers(c.wire, a);
    FirstEvent(c.wire, a, StatementExecute(s, c, [], floats).1.wire);
    CallPrecedesStatementQuery(s, c, floats);
    FirstEvent(c.wire, a, StatementQuery(s, c, [], floats).1.wire);
  }

  /** `prepare` sends function code 2, the text and the auto-commit mode. */
  lemma PrepareAsks(c: ClientState, sql: string)
    requires c.open && |Utf8.Encode(sql)| < I32_MAX
    ensures Exchanged(c.wire, Prepare(c, sql).1.wire, 2,
                      [Utf8.Encode(sql) + [0], [0], [if c.autoCommit then 1 else 0]])
  {
    hide Call, Says, Frame, Body, Utf8.Encode, Understand, Since;
    var a := AskPrepare(sql, c.autoCommit);
    CallAnswers(c.wire, a);
    CallExchanges(c.wire, a);
    PrepareSays(sql, c.autoCommit, c.wire.cas);
  }

  /** All that `execute` sends and gets: its request, the reply, and, if that names a handle from 1 up, the request to
      close it, with the token of the reply. */
  lemma ExecuteTraffic(c: ClientState, sql: string, reply: WireReply)
    requires c.open && reply.Fits()
    requires Concluded(c.wire, AskRun(sql, c.autoCommit, c.proto), EncodeReply(reply, c.proto))
    ensures var w, w' := Call(c.wire, AskRun(sql, c.autoCommit, c.proto)).1, Execute(c, sql).1.wire;
            && w.cas == reply.cas && |Since(c.wire, w)| == 2
            && (reply.handle < 1 ==> w' == w)
            && (reply.handle >= 1 ==> Exchanged(w, w', 6, [Be32(reply.handle)]))
            && w'.cas == reply.cas
  {
    hide Call, Frame, Body, Release, EncodeReply, Understand, WireReply.Fits, Affected, Says, Be32;
    var a := AskRun(sql, c.autoCommit, c.proto);
    RunUnderstood(a, reply);
    TokenTaken(c.wire, a, EncodeReply(reply, c.proto));
    var w := Call(c.wire, a).1;
    ReleaseAsks(w, reply.handle);
  }

  lemma RunUnderstood(a: Ask, reply: WireReply)
    requires a.AskRun? && reply.Fits()
    ensures Understand(a, EncodeReply(reply, a.proto)) == Ok((Ran(reply.Meaning()), reply.cas))
  {
    hide EncodeReply, WireReply.Fits, WireReply.Meaning, ReadPrepareAndExecute;
    ReplyInverts(reply, a.proto);
  }

  lemma TokenTaken(w: Wire, a: Ask, d: seq<byte>)
    requires !a.AskClose? && Concluded(w, a, d) && Understand(a, d).Ok?
    ensures Call(w, a).1.cas == Understand(a, d).value.1 && |Since(w, Call(w, a).1)| == 2
  {
    hide Call, Frame, Body, Understand;
    CallExchanges(w, a);
    var log := Call(w, a).1.log;
    assert Since(w, Call(w, a).1) == [Sent(a, Frame(Body(a), w.cas)), Got(a, d)];
  }

  /** `close_query_handle` asks to close handles from 1 up, once, and leaves the token alone. */
  lemma ReleaseAsks(w: Wire, handle: i32)
    ensures handle < 1 ==> Release(w, handle) == w
    ensures handle >= 1 ==> Exchanged(w, Release(w, handle), 6, [Be32(handle)])
    ensures Release(w, handle).cas == w.cas
  {
    hide Frame, Body, Says, Understand, Be32;
    var a := AskClose(handle);
    ClosingKeepsToken(w, a);
    CloseSays(handle, w.cas);
    CallLogs(w, a);
    hide Call;
    if handle > 0 {
      var sent := Sent(a, Frame(Body(a), w.cas));
      var w' := Call(w, a).1;
      if w'.log == w.log + [sent] {
        assert Since(w, w') == [sent];
      } else {
        var d :| Concluded(w, a, d);
        assert Since(w, w') == [sent, Got(a, d)];
      }
    }
  }

  /** A query that returns rows ends by asking to close the handle of its reply. */
  lemma QueryTraffic(c: ClientState, sql: string, reply: WireReply)
    requires c.open && reply.Fits() && Query(c, sql).0.Ok?
    requires Concluded(c.wire, AskRun(sql, c.autoCommit, c.proto), EncodeReply(reply, c.proto))
    ensures var w := Query(c, sql).1.wire;
            exists before: Wire ::
              && c.wire.log <= before.log <= w.log
              && (reply.handle < 1 ==> before == w)
              && (reply.handle >= 1 ==> Exchanged(before, w, 6, [Be32(reply.handle)]))
  {
    hide Call, Frame, Body, Release, AllRows, EncodeReply, Understand, WireReply.Fits, Exchanged, Be32;
    var a := AskRun(sql, c.autoCommit, c.proto);
    RunUnderstood(a, reply);
    TokenTaken(c.wire, a, EncodeReply(reply, c.proto));
    var w, p := Call(c.wire, a).1, reply.Meaning();
    var all := AllRows(w, p.queryHandle, p.columns, p.statementType, p.totalTupleCount, p.rows);
    AllRowsLog(w, p.queryHandle, p.columns, p.statementType, p.totalTupleCount, p.rows);
    CallExchanges(c.wire, a);
    ReleaseLogs(all.1, reply.handle);
    ReleaseAsks(all.1, reply.handle);
  }
}
