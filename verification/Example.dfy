/** Small servers: one that meets the premises of the theorems about queries, and ones that show where a promise
    ends. */
module Example {
  import opened Bytes
  import opened Wrappers
  import opened Types
  import opened Rows
  import opened Replies
  import opened Link
  import opened Session
  import opened Completeness
  import opened Cursor
  import opened Handles
  import opened Request
  import opened Response
  import opened Writer

  const TOKEN: CasInfo := [0, 0, 0, 0]
  const NAME: WireText := WireText("", 1)
  const COLUMN: WireColumn :=
    WireColumn(None, IntType, 0, 10, NAME, NAME, NAME, 1, NAME, 0, 0, 0, 0, 0, 0, 0)
  const ROW: WireRow := WireRow(1, Zeros(8), [NullCell(0)])
  const REPLY: WireReply :=
    WireReply(TOKEN, 7, WireStatement(0, 21, 0, 0, [COLUMN]), 2, WireExecution(0, [], 0, 0), None, [])

  lemma NameFits()
    ensures NAME.Fits() && |NAME.Body()| == 1
  {
  }

  lemma ReplyOpens()
    ensures OpensCursor([ROW, ROW], REPLY)
  {
    NameFits();
    hide WireText.Fits;
    assert COLUMN.Fits();
    assert RowFits(ROW, [COLUMN.Meaning()], false);
    assert ColumnsMeaning([COLUMN]) == [COLUMN.Meaning()];
    assert forall row :: row in [ROW, ROW] ==> row == ROW;
  }

  lemma StringLength(rest: seq<byte>)
    ensures |EncodeString(NAME, rest)| == 5 + |rest|
  {
    NameFits();
    hide WireText.Body;
  }

  lemma ReplyIsFramable()
    ensures forall proto :: Framable(EncodeReply(REPLY, proto))
  {
    hide EncodeString;
    forall rest
      ensures |EncodeString(NAME, rest)| == 5 + |rest|
    {
      StringLength(rest);
    }
    forall proto
      ensures Framable(EncodeReply(REPLY, proto))
    {
      var executed := EncodeExecuted(REPLY.execution, proto, []);
      assert |executed| <= 10;
      assert |EncodeColumn(COLUMN, Be32(2) + executed)| <= 100;
      assert EncodeColumns([COLUMN], Be32(2) + executed) == EncodeColumn(COLUMN, Be32(2) + executed);
      assert |EncodeReply(REPLY, proto)| <= 200;
    }
  }

  lemma RowsAreCut()
    ensures Sum([1, 1]) == 2 && Cuts([ROW, ROW], 0, [1, 1], TOKEN)
  {
    var sizes: seq<nat> := [1, 1];
    assert sizes[1..] == [1] && sizes[1..][1..] == [];
    assert Sum(sizes[1..]) == 1;
    forall from: nat | from < 2
      ensures Framable(Batch([ROW, ROW], from, 1, TOKEN))
    {
      assert [ROW, ROW][from..from + 1] == [ROW];
      assert |EncodeRows([ROW], [])| == 16;
    }
  }

  lemma RowsMean()
    ensures RowsMeaning([ROW, ROW]) == [[Null], [Null]] && ColumnsMeaning([COLUMN]) == [COLUMN.Meaning()]
  {
    assert [ROW, ROW][1..] == [ROW] && [ROW][1..] == [];
    assert [NullCell(0)][1..] == [];
    assert CellsMeaning(ROW.cells) == [Null];
    assert RowsMeaning([ROW]) == [[Null]];
  }

  /** What such a server will have sent, and anything after it. */
  ghost function Sends(proto: int, rest: seq<byte>): Wire {
    ReplyIsFramable();
    RowsAreCut();
    Wire(Framed(EncodeReply(REPLY, proto)) + Batches([ROW, ROW], 0, [1, 1], TOKEN, rest), [], TOKEN, [])
  }

  /** Every premise of `QueryOverBytes` is met, and so the client has both rows. */
  lemma TwoRows(proto: int, rest: seq<byte>)
    ensures Query(ClientState(true, Sends(proto, rest), true, proto), "").0
            == Ok(QueryResult([COLUMN.Meaning()], [[Null], [Null]], 2))
  {
    hide Query, EncodeReply, Framable, Cuts, Batches, OpensCursor;
    ReplyOpens();
    ReplyIsFramable();
    RowsAreCut();
    QueryOverBytes(ClientState(true, Sends(proto, rest), true, proto), "", [ROW, ROW], REPLY, [1, 1], TOKEN, rest);
    RowsMean();
  }

  /** A handle is lost to it when it stops after its first reply. */
  lemma HandleSevenLost(proto: int)
    ensures var w := Wire(FirstReply(proto), [], TOKEN, []);
            var (r, c) := Query(ClientState(true, w, true, proto), "");
            r == Err(Io) && Held(c.wire.log) == Some(multiset{7})
  {
    hide Query, EncodeReply, Framable, OpensCursor;
    ReplyOpens();
    ReplyIsFramable();
    var w := Wire(FirstReply(proto), [], TOKEN, []);
    assert Held([]) == Some(multiset{});
    assert multiset{} + multiset{7} == multiset{7 as i32};
    HandleLost(ClientState(true, w, true, proto), "", [ROW, ROW], REPLY);
  }

  /** So it is, to every operation, when the reply ends after the header that names it. */
  lemma HandleSevenRefused(proto: int)
    ensures var w := Wire(Framed(EncodeHeader(TOKEN, 7, [])), [], TOKEN, []);
            var c := ClientState(true, w, true, proto);
            && !Execute(c, "").0.Ok? && Held(Execute(c, "").1.wire.log) == Some(multiset{7})
            && !Query(c, "").0.Ok? && Held(Query(c, "").1.wire.log) == Some(multiset{7})
            && !Prepare(c, "").0.Ok? && Held(Prepare(c, "").1.wire.log) == Some(multiset{7})
  {
    hide Query, Execute, Prepare, ReadHeader, Framed;
    var data := EncodeHeader(TOKEN, 7, []);
    HeaderInverts(TOKEN, 7, []);
    assert ReadDescribed([]).Fail?;
    assert Held([]) == Some(multiset{});
    assert multiset{} + multiset{7} == multiset{7 as i32};
    RefusedHandleLost(ClientState(true, Wire(Framed(data), [], TOKEN, []), true, proto), "", data);
  }

  ghost function FirstReply(proto: int): seq<byte> {
    ReplyIsFramable();
    Framed(EncodeReply(REPLY, proto))
  }

  // ---------------------------------------------------------------------------
  // One row is missing, and the server announces -1, 1 and 1 rows
  // ---------------------------------------------------------------------------

  function AskFrom(current: Position): Ask { AskFetch(7, current, [COLUMN.Meaning()], Statement(21)) }

  function One(): seq<byte> { EncodeFetchReply(TOKEN, 0, [ROW], []) }

  lemma OneUnderstood(current: Position)
    ensures Framable(One()) && Understand(AskFrom(current), One()) == Ok((Fetched(FetchResult(1, [[Null]])), TOKEN))
  {
    hide ReadFetch;
    RowsMean();
    assert |EncodeRows([ROW], [])| == 16;
    assert RowFits(ROW, [COLUMN.Meaning()], false);
    FetchInverts(TOKEN, 0, [ROW], [], [COLUMN.Meaning()], Statement(21));
    assert [ROW, ROW][1..] == [ROW];
    assert RowsMeaning([ROW, ROW])[1..] == RowsMeaning([ROW]);
  }

  ghost function BackAndForth(): seq<byte> {
    BackUnderstood(AskFrom(0), TOKEN);
    OneUnderstood(0);
    Framed(Back(TOKEN)) + (Framed(One()) + (Framed(One()) + []))
  }

  /** Three requests are made for the one row, the second for position 0, and two rows are returned. */
  lemma BackAndForthFails(log: seq<Event>)
    ensures var w := Wire(BackAndForth(), [], TOKEN, log);
            var (r, end) := FetchRemaining(w, 7, [COLUMN.Meaning()], Statement(21), 1, 0, []);
            && r == Ok([[Null], [Null]])
            && Fetches(Since(w, end)) == 3
            && |Since(w, end)| == 6 && Since(w, end)[2].Sent?
            && Arguments(Since(w, end)[2].frame) == Some(FetchArgs(7, -1, DEFAULT_FETCH_SIZE))
  {
    hide Call, Frame, Body, Understand, Framed, Back, One, Arguments, FetchRemaining, Since, Fetches, FetchArgs;
    var w := Wire(BackAndForth(), [], TOKEN, log);
    var a, b := AskFrom(0), AskFrom(-1);
    BackUnderstood(a, TOKEN);
    OneUnderstood(0);
    var none: seq<Row> := [];
    var one, two: seq<Row> := [[Null]], [[Null], [Null]];
    assert none + none == none && none + one == one && one + one == two;
    FetchStep(w, a, 1, none, Back(TOKEN), Framed(One()) + (Framed(One()) + []), FetchResult(-1, []), TOKEN);
    var w1 := Call(w, a).1;
    OneUnderstood(-1);
    FetchStep(w1, b, 1, none, One(), Framed(One()) + [], FetchResult(1, one), TOKEN);
    var w2 := Call(w1, b).1;
    FetchStep(w2, a, 1, one, One(), [], FetchResult(1, one), TOKEN);
    var w3 := Call(w2, a).1;
    FetchAsks(b, w1.cas);
    LoopEnds(w3, a, 1, 1, two);
    NoFetches();
    NothingSince(w3);
    RoundSince(w2, w3, w3, Sent(a, Frame(Body(a), w2.cas)), Got(a, One()));
    RoundSince(w1, w2, w3, Sent(b, Frame(Body(b), w1.cas)), Got(b, One()));
    RoundSince(w, w1, w3, Sent(a, Frame(Body(a), w.cas)), Got(a, Back(TOKEN)));
  }
}
