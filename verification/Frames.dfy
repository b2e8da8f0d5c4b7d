/** Every request the client can send, in the bytes of its frame: lengths, function codes and arguments are literal. */
module Frames {
  import opened Bytes
  import opened Wrappers
  import opened Types
  import opened Writer
  import opened Request
  import opened Link
  import Utf8

  /** A frame with a token, a function code and a list of arguments, announced at its length. */
  ghost predicate Says(frame: seq<byte>, cas: CasInfo, code: byte, args: seq<seq<byte>>) {
    && |frame| >= 9 && Unsigned(frame[..4]) == (|frame| - 8) % 0x1_0000_0000
    && frame[4..8] == cas && frame[8] == code && Arguments(frame) == Some(args)
  }

  /** Four zero bytes, and eight. */
  const ZERO: seq<byte> := [0, 0, 0, 0]
  const ZEROS: seq<byte> := [0, 0, 0, 0, 0, 0, 0, 0]

  lemma FrameSays(a: Ask, cas: CasInfo)
    requires |Utf8.Encode(SqlOf(a))| < I32_MAX
    ensures Says(Frame(Body(a), cas), cas, Code(a), ArgsOf(a))
  {
    EveryRequestSplits(a, cas);
    FrameLength(Body(a), cas);
    hide Utf8.Encode, Split, ArgsOf, Code, Frame, SqlOf, Body;
  }

  lemma FrameLength(payload: seq<byte>, cas: CasInfo)
    ensures var frame := Frame(payload, cas);
            |frame| == |payload| + 8 && Unsigned(frame[..4]) == |payload| % 0x1_0000_0000
  {
    hide Unsigned, BeU32;
    assert Frame(payload, cas)[..4] == BeU32(|payload| % 0x1_0000_0000);
  }

  lemma SmallNumbers()
    ensures Be32(0) == ZERO && Be32(0) + Be32(0) == ZEROS
    ensures Be32(3) == [0, 0, 0, 3] && Be32(100) == [0, 0, 0, 100]
  {
    SmallInts(0);
    SmallInts(3);
    SmallInts(100);
  }

  /** Prepare and execute: three and the text, in this order, and constants. */
  lemma RunSays(sql: string, autoCommit: bool, proto: int, cas: CasInfo)
    requires |Utf8.Encode(sql)| < I32_MAX
    ensures Says(Frame(Body(AskRun(sql, autoCommit, proto)), cas), cas, 41,
                 [[0, 0, 0, 3], Utf8.Encode(sql) + [0], [0], [if autoCommit then 1 else 0], [2], ZERO, ZERO, [], ZEROS,
                  ZERO])
  {
    hide Utf8.Encode, Be32, Says, Frame, Body;
    SmallNumbers();
    FrameSays(AskRun(sql, autoCommit, proto), cas);
  }

  lemma PrepareSays(sql: string, autoCommit: bool, cas: CasInfo)
    requires |Utf8.Encode(sql)| < I32_MAX
    ensures Says(Frame(Body(AskPrepare(sql, autoCommit)), cas), cas, 2,
                 [Utf8.Encode(sql) + [0], [0], [if autoCommit then 1 else 0]])
  {
    hide Utf8.Encode, Says, Frame, Body;
    FrameSays(AskPrepare(sql, autoCommit), cas);
  }

  /** Requests that carry no text. */
  lemma TextlessSays(a: Ask, cas: CasInfo)
    requires !a.AskRun? && !a.AskPrepare?
    ensures Says(Frame(Body(a), cas), cas, Code(a), ArgsOf(a))
  {
    assert SqlOf(a) == "" && Utf8.Encode("") == [];
    hide Utf8.Encode, Says, Frame, Body, ArgsOf, Code;
    FrameSays(a, cas);
  }

  /** Execute: the handle, no parameters, and rows only for a SELECT. */
  lemma ExecuteSays(a: Ask, cas: CasInfo)
    requires a.AskExecute?
    ensures Says(Frame(Body(a), cas), cas, 3,
                 [Be32(a.handle), [0], ZERO, ZERO, [], [if a.stmt == StatementTypeOf(21) then 1 else 0],
                  [if a.autoCommit then 1 else 0], [1], ZEROS, ZERO])
  {
    hide Be32, Says, Frame, Body;
    SmallNumbers();
    TextlessSays(a, cas);
  }

  /** Fetch: the handle, the 1-based position after the rows that are here, and a hundred rows. */
  lemma FetchSays(a: Ask, cas: CasInfo)
    requires a.AskFetch?
    ensures Says(Frame(Body(a), cas), cas, 8, [Be32(a.handle), Be32(a.current + 1), [0, 0, 0, 100], [0], ZERO])
  {
    hide Be32, Says, Frame, Body;
    SmallNumbers();
    TextlessSays(a, cas);
  }

  lemma CloseSays(handle: i32, cas: CasInfo)
    ensures Says(Frame(Body(AskClose(handle)), cas), cas, 6, [Be32(handle)])
  {
    hide Be32, Says, Frame, Body;
    TextlessSays(AskClose(handle), cas);
  }

  /** The request of `commit`, which is 1, and `rollback`, which is 2. */
  lemma EndSays(action: byte, cas: CasInfo)
    ensures Says(Frame(Body(AskEnd(action)), cas), cas, 1, [[action]])
  {
    hide Says, Frame, Body;
    TextlessSays(AskEnd(action), cas);
  }

  lemma VersionSays(autoCommit: bool, cas: CasInfo)
    ensures Says(Frame(Body(AskVersion(autoCommit)), cas), cas, 15, [[if autoCommit then 1 else 0]])
  {
    hide Says, Frame, Body;
    TextlessSays(AskVersion(autoCommit), cas);
  }

  lemma LeaveSays(cas: CasInfo)
    ensures Says(Frame(Body(AskLeave), cas), cas, 31, [])
  {
    hide Says, Frame, Body;
    TextlessSays(AskLeave, cas);
  }

  /** The handle that a frame asks to close, read from its bytes: function code 6 and one integer. */
  function ClosedBy(frame: seq<byte>): Option<i32> {
    match Arguments(frame)
    case None => None
    case Some(args) =>
      Pow256Widths();
      if frame[8] == 6 && |args| == 1 && |args[0]| == 4 then Some(Signed(args[0])) else None
  }

  /** Of all requests, exactly those meant to close a handle ask for it, and they name that handle. */
  lemma OnlyClosesClose(a: Ask, cas: CasInfo)
    ensures ClosedBy(Frame(Body(a), cas)) == if a.AskClose? then Some(a.handle) else None
  {
    if a.AskClose? {
      CloseSays(a.handle, cas);
      hide Frame, Body;
    } else {
      var args := Join(ArgsOf(a));
      assert Body(a) == [Code(a)] + args;
      hide Frame, Body, Split, Signed, Join, ArgsOf;
      FrameParts(Code(a), args, cas);
    }
  }
}
