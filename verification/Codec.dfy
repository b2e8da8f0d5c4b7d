/** The cursor reader and the appending writer of the packet codec. */
module Codec {
  import opened Bytes
  import opened Wrappers
  import opened Types
  import Utf8

  /** What reading a value from the unread bytes gives: the value and what is still unread, an error, or
      the capacity panic. */
  datatype Parse<+T> = Done(value: T, rest: seq<byte>) | Fail(error: ProtocolError) | Panic {
    predicate IsFailure() { !Done? }

    function PropagateFailure<U>(): Parse<U>
      requires IsFailure()
    {
      match this
      case Fail(e) => Fail(e)
      case Panic => Panic
    }

    function Extract(): (T, seq<byte>)
      requires Done?
    {
      (value, rest)
    }

    /** The result once the cursor is dropped. */
    function Result(): Outcome<T, ProtocolError> {
      match this
      case Done(v, _) => Ok(v)
      case Fail(e) => Err(e)
      case Panic => Crash
    }

    predicate HitsEnd() { Fail? && error.UnexpectedEof? }

    /** The same result over an input with more bytes after it. */
    function Extend(more: seq<byte>): Parse<T> {
      if Done? then Done(value, rest + more) else this
    }
  }

  // The reads of PacketReader, over the unread bytes.

  function Take(n: nat, s: seq<byte>): (r: Parse<seq<byte>>) {
    if |s| < n then Fail(UnexpectedEof(n, |s|)) else Done(s[..n], s[n..])
  }

  function ReadByte(s: seq<byte>): Parse<byte> {
    var (b, rest) :- Take(1, s);
    Done(b[0], rest)
  }

  function ReadShort(s: seq<byte>): Parse<i16> {
    var (b, rest) :- Take(2, s);
    Pow256Widths();
    Done(Signed(b), rest)
  }

  function ReadInt(s: seq<byte>): Parse<i32> {
    var (b, rest) :- Take(4, s);
    Pow256Widths();
    Done(Signed(b), rest)
  }

  function ReadLong(s: seq<byte>): Parse<i64> {
    var (b, rest) :- Take(8, s);
    Pow256Widths();
    Done(Signed(b), rest)
  }

  function ReadFloat(s: seq<byte>): Parse<u32> {
    var (b, rest) :- Take(4, s);
    Pow256Widths();
    Done(Unsigned(b), rest)
  }

  function ReadDouble(s: seq<byte>): Parse<u64> {
    var (b, rest) :- Take(8, s);
    Pow256Widths();
    Done(Unsigned(b), rest)
  }

  /** `parse_null_term_string`: trailing NULs are stripped before the UTF-8 check. */
  function ReadText(n: nat, s: seq<byte>): Parse<string> {
    var (b, rest) :- Take(n, s);
    match Utf8.Decode(Utf8.StripBytes(b))
    case Some(t) => Done(t, rest)
    case None => Fail(InvalidPacket)
  }

  /** `read_error(remaining)`: a code and the rest of the packet as text. */
  function ReadError(s: seq<byte>): Parse<(i32, string)> {
    var (code, rest) :- ReadInt(s);
    var (message, rest) :- ReadText(|rest|, rest);
    Done((code, message), rest)
  }

  /** Three shorts: a date, or a time of day. */
  function ReadTriple(s: seq<byte>): Parse<(i16, i16, i16)> {
    var (a, rest) :- ReadShort(s);
    var (b, rest) :- ReadShort(rest);
    var (c, rest) :- ReadShort(rest);
    Done((a, b, c), rest)
  }

  function ReadDate(s: seq<byte>): Parse<Value> {
    var (d, rest) :- ReadTriple(s);
    Done(Date(d.0, d.1, d.2), rest)
  }

  function ReadTime(s: seq<byte>): Parse<Value> {
    var (t, rest) :- ReadTriple(s);
    Done(Time(t.0, t.1, t.2), rest)
  }

  function ReadTimestamp(s: seq<byte>): Parse<Value> {
    var (d, rest) :- ReadTriple(s);
    var (t, rest) :- ReadTriple(rest);
    Done(Timestamp(d.0, d.1, d.2, t.0, t.1, t.2), rest)
  }

  function ReadDatetime(s: seq<byte>): Parse<Value> {
    var (d, rest) :- ReadTriple(s);
    var (t, rest) :- ReadTriple(rest);
    var (ms, rest) :- ReadShort(rest);
    Done(Datetime(d.0, d.1, d.2, t.0, t.1, t.2, ms), rest)
  }

  /** n reads in a row: the shape of every `for _ in 0..count` loop that pushes into a vector. */
  function Many<T>(p: seq<byte> -> Parse<T>, n: nat, s: seq<byte>): (r: Parse<seq<T>>)
    ensures r.Done? ==> |r.value| == n
  {
    if n == 0 then Done([], s)
    else
      var (v, rest) :- p(s);
      var (vs, rest) :- Many(p, n - 1, rest);
      Done([v] + vs, rest)
  }

  /** The result of a loop that already pushed `done`. */
  function After<T>(done: seq<T>, p: Parse<seq<T>>): Parse<seq<T>> {
    if p.Done? then Done(done + p.value, p.rest) else p
  }

  lemma AfterNothing<T>(p: Parse<seq<T>>)
    ensures After([], p) == p
  {
    if p.Done? {
      assert [] + p.value == p.value;
    }
  }

  lemma AfterPush<T>(done: seq<T>, v: T, p: Parse<seq<T>>)
    ensures After(done, After([v], p)) == After(done + [v], p)
  {
    if p.Done? {
      assert done + ([v] + p.value) == (done + [v]) + p.value;
    }
  }

  /** How a method's outcome and the cursor it leaves agree with a read. */
  ghost predicate Agrees<T>(r: Outcome<T, ProtocolError>, spec: Parse<T>, unread: seq<byte>) {
    match spec
    case Done(v, rest) => r == Ok(v) && unread == rest
    case Fail(e) => r == Err(e)
    case Panic => r == Crash
  }

  class PacketReader {
    const data: seq<byte>
    var pos: nat

    ghost predicate Valid()
      reads this
    {
      pos <= |data|
    }

    ghost function Unread(): seq<byte>
      reads this
      requires Valid()
    {
      data[pos..]
    }

    constructor (data: seq<byte>)
      ensures Valid() && pos == 0 && this.data == data && Unread() == data
    {
      this.data := data;
      pos := 0;
    }

    function Remaining(): (n: nat)
      reads this
      requires Valid()
      ensures n == |Unread()|
    {
      |data| - pos
    }

    method ParseRawBytes(count: nat) returns (r: Outcome<seq<byte>, ProtocolError>)
      requires Valid()
      modifies this
      ensures Valid() && old(pos) <= pos
      ensures Agrees(r, Take(count, old(Unread())), Unread())
    {
      if Remaining() < count {
        return Err(UnexpectedEof(count, Remaining()));
      }
      var v := data[pos..pos + count];
      assert v == Unread()[..count];
      pos := pos + count;
      return Ok(v);
    }

    method ParseByte() returns (r: Outcome<byte, ProtocolError>)
      requires Valid()
      modifies this
      ensures Valid() && old(pos) <= pos
      ensures Agrees(r, ReadByte(old(Unread())), Unread())
    {
      var b :- ParseRawBytes(1);
      return Ok(b[0]);
    }

    method ParseShort() returns (r: Outcome<i16, ProtocolError>)
      requires Valid()
      modifies this
      ensures Valid() && old(pos) <= pos
      ensures Agrees(r, ReadShort(old(Unread())), Unread())
    {
      var b :- ParseRawBytes(2);
      Pow256Widths();
      return Ok(Signed(b));
    }

    method ParseInt() returns (r: Outcome<i32, ProtocolError>)
      requires Valid()
      modifies this
      ensures Valid() && old(pos) <= pos
      ensures Agrees(r, ReadInt(old(Unread())), Unread())
    {
      var b :- ParseRawBytes(4);
      Pow256Widths();
      return Ok(Signed(b));
    }

    method ParseLong() returns (r: Outcome<i64, ProtocolError>)
      requires Valid()
      modifies this
      ensures Valid() && old(pos) <= pos
      ensures Agrees(r, ReadLong(old(Unread())), Unread())
    {
      var b :- ParseRawBytes(8);
      Pow256Widths();
      return Ok(Signed(b));
    }

    method ParseFloat() returns (r: Outcome<u32, ProtocolError>)
      requires Valid()
      modifies this
      ensures Valid() && old(pos) <= pos
      ensures Agrees(r, ReadFloat(old(Unread())), Unread())
    {
      var b :- ParseRawBytes(4);
      Pow256Widths();
      return Ok(Unsigned(b));
    }

    method ParseDouble() returns (r: Outcome<u64, ProtocolError>)
      requires Valid()
      modifies this
      ensures Valid() && old(pos) <= pos
      ensures Agrees(r, ReadDouble(old(Unread())), Unread())
    {
      var b :- ParseRawBytes(8);
      Pow256Widths();
      return Ok(Unsigned(b));
    }

    method ParseNullTermString(length: nat) returns (r: Outcome<string, ProtocolError>)
      requires Valid()
      modifies this
      ensures Valid() && old(pos) <= pos
      ensures Agrees(r, ReadText(length, old(Unread())), Unread())
    {
      if length == 0 {
        return Ok("");
      }
      var raw :- ParseRawBytes(length);
      var text := StripTrailing(raw);
      match Utf8.Decode(text)
      case Some(t) => return Ok(t);
      case None => return Err(InvalidPacket);
    }

    /** The `rposition` search for the last non-zero byte. */
    static method StripTrailing(raw: seq<byte>) returns (text: seq<byte>)
      ensures text == Utf8.StripBytes(raw)
    {
      var end := |raw|;
      while end > 0 && raw[end - 1] == 0
        invariant 0 <= end <= |raw|
        invariant Utf8.StripBytes(raw[..end]) == Utf8.StripBytes(raw)
      {
        assert raw[..end][..end - 1] == raw[..end - 1];
        end := end - 1;
      }
      return raw[..end];
    }

    method ReadErrorReply() returns (r: Outcome<(i32, string), ProtocolError>)
      requires Valid()
      modifies this
      ensures Valid() && old(pos) <= pos
      ensures Agrees(r, ReadError(old(Unread())), Unread())
    {
      var length := Remaining();
      var code :- ParseInt();
      var message := "";
      if length - 4 > 0 {
        message :- ParseNullTermString(length - 4);
      }
      return Ok((code, message));
    }

    method ParseTriple() returns (r: Outcome<(i16, i16, i16), ProtocolError>)
      requires Valid()
      modifies this
      ensures Valid() && old(pos) <= pos
      ensures Agrees(r, ReadTriple(old(Unread())), Unread())
    {
      var a :- ParseShort();
      var b :- ParseShort();
      var c :- ParseShort();
      return Ok((a, b, c));
    }

    method ParseDate() returns (r: Outcome<Value, ProtocolError>)
      requires Valid()
      modifies this
      ensures Valid() && old(pos) <= pos
      ensures Agrees(r, ReadDate(old(Unread())), Unread())
    {
      var d :- ParseTriple();
      return Ok(Date(d.0, d.1, d.2));
    }

    method ParseTime() returns (r: Outcome<Value, ProtocolError>)
      requires Valid()
      modifies this
      ensures Valid() && old(pos) <= pos
      ensures Agrees(r, ReadTime(old(Unread())), Unread())
    {
      var t :- ParseTriple();
      return Ok(Time(t.0, t.1, t.2));
    }

    method ParseTimestamp() returns (r: Outcome<Value, ProtocolError>)
      requires Valid()
      modifies this
      ensures Valid() && old(pos) <= pos
      ensures Agrees(r, ReadTimestamp(old(Unread())), Unread())
    {
      var d :- ParseTriple();
      var t :- ParseTriple();
      return Ok(Timestamp(d.0, d.1, d.2, t.0, t.1, t.2));
    }

    method ParseDatetime() returns (r: Outcome<Value, ProtocolError>)
      requires Valid()
      modifies this
      ensures Valid() && old(pos) <= pos
      ensures Agrees(r, ReadDatetime(old(Unread())), Unread())
    {
      var d :- ParseTriple();
      var t :- ParseTriple();
      var ms :- ParseShort();
      return Ok(Datetime(d.0, d.1, d.2, t.0, t.1, t.2, ms));
    }
  }
}
