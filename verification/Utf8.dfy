/** UTF-8 (section 3 of RFC 3629), as used by `as_bytes` and `from_utf8`, and NUL stripping. */
module Utf8 {
  import opened Bytes
  import opened Wrappers

  function EncodeChar(c: char): (s: seq<byte>)
    ensures 1 <= |s| <= 4
    ensures |s| == 1 <==> c as int < 0x80
    ensures s[|s| - 1] == 0 <==> c == 0 as char
  {
    var n := c as int;
    if n < 0x80 then [n]
    else if n < 0x800 then [0xC0 + n / 64, 0x80 + n % 64]
    else if n < 0x1_0000 then [0xE0 + n / 4096, 0x80 + n / 64 % 64, 0x80 + n % 64]
    else [0xF0 + n / 262144, 0x80 + n / 4096 % 64, 0x80 + n / 64 % 64, 0x80 + n % 64]
  }

  /** The bytes of a string. */
  function Encode(s: string): (b: seq<byte>)
    ensures |b| >= |s|
  {
    if s == [] then [] else EncodeChar(s[0]) + Encode(s[1..])
  }

  predicate Continuation(b: byte) { 0x80 <= b < 0xC0 }

  /** The six payload bits of a continuation byte. */
  function Low6(b: byte): int { b - 0x80 }

  /** The first character of a byte string and its width: no overlong form, no surrogate,
      nothing above U+10FFFF. */
  function DecodeChar(b: seq<byte>): (r: Option<(char, nat)>)
    ensures r.Some? ==> 1 <= r.value.1 <= |b|
  {
    if |b| >= 1 && b[0] < 0x80 then
      Some((b[0] as char, 1))
    else if |b| >= 2 && 0xC2 <= b[0] < 0xE0 && Continuation(b[1]) then
      var n := ((b[0] as int) - 0xC0) * 64 + Low6(b[1]);
      Some((n as char, 2))
    else if |b| >= 3 && 0xE0 <= b[0] < 0xF0 && Continuation(b[1]) && Continuation(b[2]) then
      var n := (((b[0] as int) - 0xE0) * 64 + Low6(b[1])) * 64 + Low6(b[2]);
      if n < 0x800 || 0xD800 <= n < 0xE000 then None else Some((n as char, 3))
    else if |b| >= 4 && 0xF0 <= b[0] < 0xF5 && Continuation(b[1]) && Continuation(b[2]) && Continuation(b[3]) then
      var n := ((((b[0] as int) - 0xF0) * 64 + Low6(b[1])) * 64 + Low6(b[2])) * 64 + Low6(b[3]);
      if n < 0x1_0000 || n >= 0x11_0000 then None else Some((n as char, 4))
    else None
  }

  /** `String::from_utf8`. */
  function Decode(b: seq<byte>): (r: Option<string>)
    ensures r.Some? ==> |r.value| <= |b|
  {
    if b == [] then Some([])
    else match DecodeChar(b)
      case None => None
      case Some((c, n)) =>
        match Decode(b[n..])
        case None => None
        case Some(s) => Some([c] + s)
  }

  lemma DecodeCharOfEncode(c: char, rest: seq<byte>)
    ensures DecodeChar(EncodeChar(c) + rest) == Some((c, |EncodeChar(c)|))
  {
    var n := c as int;
    var e := EncodeChar(c);
    var b := e + rest;
    assert forall i :: 0 <= i < |e| ==> b[i] == e[i];
    assert n / 4096 == n / 64 / 64 && n / 262144 == n / 64 / 64 / 64;
  }

  lemma EncodeCharOfDecode(b: seq<byte>)
    requires DecodeChar(b).Some?
    ensures EncodeChar(DecodeChar(b).value.0) == b[..DecodeChar(b).value.1]
  {
    var (c, w) := DecodeChar(b).value;
    if w <= 2 {
    } else if w == 3 {
      ThreeBytes(b);
    } else {
      FourBytes(b);
    }
  }

  lemma SixBits(high: nat, low: nat)
    requires low < 64
    ensures (high * 64 + low) / 64 == high && (high * 64 + low) % 64 == low
  {
  }

  lemma ThreeBytes(b: seq<byte>)
    requires DecodeChar(b).Some? && DecodeChar(b).value.1 == 3
    ensures EncodeChar(DecodeChar(b).value.0) == b[..3]
  {
    var high := (b[0] - 0xE0) * 64 + Low6(b[1]);
    SixBits(b[0] - 0xE0, Low6(b[1]));
    SixBits(high, Low6(b[2]));
    var n := DecodeChar(b).value.0 as int;
    assert n / 4096 == n / 64 / 64;
  }

  lemma FourBytes(b: seq<byte>)
    requires DecodeChar(b).Some? && DecodeChar(b).value.1 == 4
    ensures EncodeChar(DecodeChar(b).value.0) == b[..4]
  {
    var top := (b[0] - 0xF0) * 64 + Low6(b[1]);
    var high := top * 64 + Low6(b[2]);
    SixBits(b[0] - 0xF0, Low6(b[1]));
    SixBits(top, Low6(b[2]));
    SixBits(high, Low6(b[3]));
    var n := DecodeChar(b).value.0 as int;
    assert n / 4096 == n / 64 / 64 && n / 262144 == n / 64 / 64 / 64;
  }

  /** Every string survives the wire. */
  lemma {:induction false} DecodeOfEncode(s: string)
    ensures Decode(Encode(s)) == Some(s)
  {
    if s != [] {
      DecodeOfEncode(s[1..]);
      DecodeCharOfEncode(s[0], Encode(s[1..]));
      assert Encode(s)[|EncodeChar(s[0])|..] == Encode(s[1..]);
      assert s == [s[0]] + s[1..];
    }
  }

  /** Only encodings are accepted. */
  lemma {:induction false} EncodeOfDecode(b: seq<byte>)
    requires Decode(b).Some?
    ensures Encode(Decode(b).value) == b
  {
    hide DecodeChar, EncodeChar;
    if b != [] {
      var (c, n) := DecodeChar(b).value;
      EncodeCharOfDecode(b);
      EncodeOfDecode(b[n..]);
      var s := Decode(b[n..]).value;
      assert ([c] + s)[1..] == s;
      assert b == b[..n] + b[n..];
    }
  }

  lemma {:induction false} EncodeSnoc(s: string, c: char)
    ensures Encode(s + [c]) == Encode(s) + EncodeChar(c)
  {
    if s == [] {
      assert ([] + [c])[1..] == [];
      assert EncodeChar(c) + [] == EncodeChar(c);
    } else {
      EncodeSnoc(s[1..], c);
      assert (s + [c])[1..] == s[1..] + [c];
      assert EncodeChar(s[0]) + (Encode(s[1..]) + EncodeChar(c)) == (EncodeChar(s[0]) + Encode(s[1..])) + EncodeChar(c);
    }
  }

  /** Drops trailing zero bytes. */
  function StripBytes(b: seq<byte>): (r: seq<byte>)
    ensures r <= b
    ensures forall i :: |r| <= i < |b| ==> b[i] == 0
    ensures r != [] ==> r[|r| - 1] != 0
  {
    if b != [] && b[|b| - 1] == 0 then StripBytes(b[..|b| - 1]) else b
  }

  /** Drops trailing NUL characters. */
  function StripNuls(s: string): (r: string)
    ensures r <= s
    ensures r != [] ==> r[|r| - 1] != 0 as char
  {
    if s != [] && s[|s| - 1] == 0 as char then StripNuls(s[..|s| - 1]) else s
  }

  predicate NoTrailingNul(s: string) { s != [] ==> s[|s| - 1] != 0 as char }

  lemma {:induction false} StripIsUnique(a: seq<byte>, n: nat)
    requires a != [] ==> a[|a| - 1] != 0
    ensures StripBytes(a + Zeros(n)) == a
  {
    var b := a + Zeros(n);
    if n == 0 {
      assert b == a;
    } else {
      StripIsUnique(a, n - 1);
      assert b[..|b| - 1] == a + Zeros(n - 1);
    }
  }

  /** A text ends in NUL exactly when its bytes do. */
  lemma EndOfText(s: string)
    ensures NoTrailingNul(s) <==> (Encode(s) != [] ==> Encode(s)[|Encode(s)| - 1] != 0)
  {
    if s != [] {
      EncodeSnoc(s[..|s| - 1], s[|s| - 1]);
      assert s == s[..|s| - 1] + [s[|s| - 1]];
    }
  }

  /** Stripping bytes and stripping characters agree. */
  lemma {:induction false} StripCommutes(s: string)
    ensures StripBytes(Encode(s)) == Encode(StripNuls(s))
  {
    if s != [] {
      var t, c := s[..|s| - 1], s[|s| - 1];
      EncodeSnoc(t, c);
      assert s == t + [c];
      if c == 0 as char {
        StripCommutes(t);
        assert Encode(s)[..|Encode(s)| - 1] == Encode(t);
      }
    }
  }

  /** What stripping removes is a run of zeros. */
  lemma StripSplits(b: seq<byte>)
    ensures b == StripBytes(b) + Zeros(|b| - |StripBytes(b)|)
  {
  }
}
