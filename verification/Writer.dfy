/** The packet writer, the argument grammar both of its write families produce, and framing. */
module Writer {
  import opened Bytes
  import opened Wrappers
  import opened Types
  import Utf8

  // ---------------------------------------------------------------------------
  // The grammar of a request payload: a function code and length-prefixed arguments
  // ---------------------------------------------------------------------------

  function Arg(a: seq<byte>): seq<byte> {
    Be32(AsI32(|a|)) + a
  }

  function Join(args: seq<seq<byte>>): seq<byte> {
    if args == [] then [] else Arg(args[0]) + Join(args[1..])
  }

  /** A reader of that grammar. */
  function Split(s: seq<byte>): (r: Option<seq<seq<byte>>>) {
    if s == [] then Some([])
    else if |s| < 4 then None
    else
      var n := Signed(s[..4]);
      if n < 0 || |s| - 4 < n then None
      else match Split(s[4 + n..])
        case Some(args) => Some([s[4..4 + n]] + args)
        case None => None
  }

  predicate Sendable(args: seq<seq<byte>>) {
    forall a :: a in args ==> |a| <= I32_MAX
  }

  /** Arguments written one after the other are read back one by one. */
  lemma {:induction false} SplitInverts(args: seq<seq<byte>>)
    requires Sendable(args)
    ensures Split(Join(args)) == Some(args)
  {
    hide Signed, Be32, Arg;
    if args != [] {
      SplitInverts(args[1..]);
      PrefixOfArg(args[0], Join(args[1..]));
      assert [args[0]] + args[1..] == args;
    }
  }

  lemma PrefixOfArg(a: seq<byte>, rest: seq<byte>)
    requires |a| <= I32_MAX
    ensures var s := Arg(a) + rest;
            && |s| == 4 + |a| + |rest| && Signed(s[..4]) == |a|
            && s[4..4 + |a|] == a && s[4 + |a|..] == rest
  {
    hide Signed, Be32, AsI32;
    var s := Arg(a) + rest;
    assert s[..4] == Be32(|a|);
  }

  /** There is no other way to read them. */
  lemma {:induction false} SplitUnique(s: seq<byte>)
    requires Split(s).Some?
    ensures Join(Split(s).value) == s && Sendable(Split(s).value)
  {
    hide Signed, Join, Arg;
    assert Join([]) == [] by { JoinNothing(); }
    if s != [] {
      var n := Signed(s[..4]);
      var a, rest := s[4..4 + n], s[4 + n..];
      Pow256Widths();
      SplitUnique(rest);
      ArgOfPrefix(s, n);
      JoinCons(a, Split(rest).value);
    }
  }

  lemma JoinNothing()
    ensures Join([]) == []
  {
  }

  lemma ArgOfPrefix(s: seq<byte>, n: nat)
    requires |s| >= 4 && Signed(s[..4]) == n <= |s| - 4
    ensures Arg(s[4..4 + n]) + s[4 + n..] == s
  {
    hide Signed, Be32, AsI32;
    Be32OfSigned(s[..4]);
  }

  lemma JoinCons(a: seq<byte>, args: seq<seq<byte>>)
    ensures Join([a] + args) == Arg(a) + Join(args)
  {
    hide Arg;
  }

  lemma {:induction false} JoinSnoc(args: seq<seq<byte>>, a: seq<byte>)
    ensures Join(args + [a]) == Join(args) + Arg(a)
  {
    hide Arg;
    if args == [] {
      assert Join([] + [a]) == Arg(a) + Join([]);
    } else {
      JoinSnoc(args[1..], a);
      assert (args + [a])[1..] == args[1..] + [a];
      assert Arg(args[0]) + (Join(args[1..]) + Arg(a)) == (Arg(args[0]) + Join(args[1..])) + Arg(a);
    }
  }

  /** A payload under construction. */
  ghost predicate Holds(buf: seq<byte>, fc: byte, args: seq<seq<byte>>) {
    buf == [fc] + Join(args)
  }

  /** Appending one argument, however it is written. */
  lemma Appended(before: seq<byte>, a: seq<byte>, after: seq<byte>)
    requires after == before + Arg(a)
    ensures forall fc, args :: Holds(before, fc, args) ==> Holds(after, fc, args + [a])
  {
    forall fc, args | Holds(before, fc, args)
      ensures Holds(after, fc, args + [a])
    {
      JoinSnoc(args, a);
      assert ([fc] + Join(args)) + Arg(a) == [fc] + (Join(args) + Arg(a));
    }
  }

  // ---------------------------------------------------------------------------
  // Frames
  // ---------------------------------------------------------------------------

  /** `build_request`: the payload's length as a u32, the token, the payload. */
  function Frame(payload: seq<byte>, cas: CasInfo): seq<byte> {
    BeU32(|payload| % 0x1_0000_0000) + (cas + payload)
  }

  /** `recv_framed`: a u32 length, then the token and that many bytes; None when the stream ends first. */
  function Receive(stream: seq<byte>): (r: Option<(seq<byte>, seq<byte>)>)
    ensures r.Some? ==> |r.value.1| < |stream|
  {
    if |stream| < 4 then None
    else
      var n := Unsigned(stream[..4]) + 4;
      if |stream| - 4 < n then None else Some((stream[4..4 + n], stream[4 + n..]))
  }

  lemma ReceiveInverts(payload: seq<byte>, cas: CasInfo, rest: seq<byte>)
    requires |payload| < 0x1_0000_0000
    ensures Receive(Frame(payload, cas) + rest) == Some((cas + payload, rest))
  {
    hide Unsigned, BeU32;
    var s := Frame(payload, cas) + rest;
    assert s == BeU32(|payload|) + ((cas + payload) + rest);
    assert s[..4] == BeU32(|payload|);
    assert s[4..] == (cas + payload) + rest;
    assert s[4..][..|payload| + 4] == s[4..4 + (|payload| + 4)];
    assert s[4..][|payload| + 4..] == s[4 + (|payload| + 4)..];
  }

  datatype Packet = Packet(payload: seq<byte>, cas: CasInfo)

  function Frames(ps: seq<Packet>, rest: seq<byte>): seq<byte> {
    if ps == [] then rest else Frame(ps[0].payload, ps[0].cas) + Frames(ps[1..], rest)
  }

  /** Receiving as long as whole frames arrive: the data of each and the bytes left over. */
  function ReceiveAll(stream: seq<byte>): (seq<seq<byte>>, seq<byte>)
    decreases |stream|
  {
    match Receive(stream)
    case None => ([], stream)
    case Some((data, rest)) => ([data] + ReceiveAll(rest).0, ReceiveAll(rest).1)
  }

  function PacketData(ps: seq<Packet>): seq<seq<byte>> {
    if ps == [] then [] else [ps[0].cas + ps[0].payload] + PacketData(ps[1..])
  }

  /** Any stream of built requests is taken apart again, whatever incomplete frame follows it. */
  lemma {:induction false} StreamInverts(ps: seq<Packet>, rest: seq<byte>)
    requires forall p :: p in ps ==> |p.payload| < 0x1_0000_0000
    requires Receive(rest).None?
    ensures ReceiveAll(Frames(ps, rest)) == (PacketData(ps), rest)
  {
    if ps != [] {
      hide Receive, Frame;
      ReceiveInverts(ps[0].payload, ps[0].cas, Frames(ps[1..], rest));
      StreamInverts(ps[1..], rest);
    }
  }

  // ---------------------------------------------------------------------------
  // The writer
  // ---------------------------------------------------------------------------

  /** A field of a fixed length. */
  function Fixed(b: seq<byte>, length: nat): (r: seq<byte>)
    ensures |r| == length
  {
    if |b| >= length then b[..length] else b + Zeros(length - |b|)
  }

  class PacketWriter {
    var buf: seq<byte>

    constructor ()
      ensures buf == []
    {
      buf := [];
    }

    // Raw writes

    method WriteByte(v: byte)
      modifies this
      ensures buf == old(buf) + [v]
    {
      buf := buf + [v];
    }

    method WriteShort(v: i16)
      modifies this
      ensures buf == old(buf) + Be16(v)
    {
      buf := buf + Be16(v);
    }

    method WriteInt(v: i32)
      modifies this
      ensures buf == old(buf) + Be32(v)
    {
      buf := buf + Be32(v);
    }

    method WriteLong(v: i64)
      modifies this
      ensures buf == old(buf) + Be64(v)
    {
      buf := buf + Be64(v);
    }

    method WriteFloat(bits: u32)
      modifies this
      ensures buf == old(buf) + BeU32(bits)
    {
      buf := buf + BeU32(bits);
    }

    method WriteDouble(bits: u64)
      modifies this
      ensures buf == old(buf) + BeU64(bits)
    {
      buf := buf + BeU64(bits);
    }

    method WriteRawBytes(v: seq<byte>)
      modifies this
      ensures buf == old(buf) + v
    {
      buf := buf + v;
    }

    method WriteFiller(count: nat)
      modifies this
      ensures buf == old(buf) + Zeros(count)
    {
      buf := buf + Zeros(count);
    }

    /** Cut or padded to the length. */
    method WriteFixedString(s: string, length: nat)
      modifies this
      ensures buf == old(buf) + Fixed(Utf8.Encode(s), length)
    {
      hide Utf8.Encode, Zeros;
      var bytes := Utf8.Encode(s);
      if |bytes| >= length {
        buf := buf + bytes[..length];
      } else {
        buf := buf + bytes;
        WriteFiller(length - |bytes|);
      }
    }

    // Writes that make one argument

    method WriteNullTermString(s: string)
      modifies this
      ensures buf == old(buf) + Arg(Utf8.Encode(s) + [0])
      ensures forall fc, args :: Holds(old(buf), fc, args) ==> Holds(buf, fc, args + [Utf8.Encode(s) + [0]])
    {
      hide Utf8.Encode, Be32, AsI32;
      var bytes := Utf8.Encode(s);
      WriteInt(AsI32(|bytes| + 1));
      buf := buf + bytes;
      buf := buf + [0];
      assert buf == old(buf) + Arg(bytes + [0]);
      Appended(old(buf), bytes + [0], buf);
    }

    method AddByte(v: byte)
      modifies this
      ensures buf == old(buf) + Arg([v])
      ensures forall fc, args :: Holds(old(buf), fc, args) ==> Holds(buf, fc, args + [[v]])
    {
      hide Be32;
      WriteInt(1);
      WriteByte(v);
      assert buf == old(buf) + Arg([v]);
      Appended(old(buf), [v], buf);
    }

    method AddInt(v: i32)
      modifies this
      ensures buf == old(buf) + Arg(Be32(v))
      ensures forall fc, args :: Holds(old(buf), fc, args) ==> Holds(buf, fc, args + [Be32(v)])
    {
      hide Be32;
      WriteInt(4);
      WriteInt(v);
      assert buf == old(buf) + Arg(Be32(v));
      Appended(old(buf), Be32(v), buf);
    }

    method AddBytes(v: seq<byte>)
      modifies this
      ensures buf == old(buf) + Arg(v)
      ensures forall fc, args :: Holds(old(buf), fc, args) ==> Holds(buf, fc, args + [v])
    {
      hide Be32, AsI32;
      WriteInt(AsI32(|v|));
      buf := buf + v;
      assert buf == old(buf) + Arg(v);
      Appended(old(buf), v, buf);
    }

    method AddCacheTime()
      modifies this
      ensures buf == old(buf) + Arg(Be32(0) + Be32(0))
      ensures forall fc, args :: Holds(old(buf), fc, args) ==> Holds(buf, fc, args + [Be32(0) + Be32(0)])
    {
      hide Be32;
      WriteInt(8);
      WriteInt(0);
      WriteInt(0);
      assert buf == old(buf) + Arg(Be32(0) + Be32(0));
      Appended(old(buf), Be32(0) + Be32(0), buf);
    }

    static method BuildRequest(payload: seq<byte>, cas: CasInfo) returns (request: seq<byte>)
      ensures request == Frame(payload, cas)
    {
      var header := BeU32(|payload| % 0x1_0000_0000) + cas;
      request := header + payload;
      assert request == Frame(payload, cas);
    }
  }
}
