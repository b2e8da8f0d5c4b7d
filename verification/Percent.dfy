/** Percent-decoding, and the encoding it undoes (section 2.1 of RFC 3986). */
module Percent {
  import opened Bytes
  import opened Wrappers
  import Text
  import Utf8

  const PERCENT: byte := '%' as int
  const PLUS: byte := '+' as int

  /** `u8::from_str_radix(.., 16)` on two bytes, which takes a sign before a single digit. */
  function HexPair(hi: byte, lo: byte): Option<byte> {
    match (Text.HexValue(hi as char), Text.HexValue(lo as char))
    case (Some(h), Some(l)) => (var b: byte := 16 * h + l; Some(b))
    case (None, Some(l)) => if hi == PLUS then Some(l) else None
    case _ => None
  }

  /** Each escape, and each byte outside escapes, becomes the character of that number. */
  function Decoded(b: seq<byte>): string {
    if b == [] then []
    else if b[0] == PERCENT && |b| > 2 && HexPair(b[1], b[2]).Some?
    then [HexPair(b[1], b[2]).value as char] + Decoded(b[3..])
    else [b[0] as char] + Decoded(b[1..])
  }

  method PercentDecode(s: string) returns (result: string)
    ensures result == Decoded(Utf8.Encode(s))
  {
    hide HexPair, Utf8.Encode;
    result := "";
    var bytes := Utf8.Encode(s);
    var i := 0;
    assert bytes[0..] == bytes && "" + Decoded(bytes) == Decoded(bytes);
    while i < |bytes|
      invariant 0 <= i <= |bytes|
      invariant result + Decoded(bytes[i..]) == Decoded(bytes)
    {
      DecodedStep(result, bytes[i..]);
      if bytes[i] == PERCENT && i + 2 < |bytes| {
        var escape := HexPair(bytes[i + 1], bytes[i + 2]);
        if escape.Some? {
          assert bytes[i..][3..] == bytes[i + 3..];
          result := result + [escape.value as char];
          i := i + 3;
          continue;
        }
      }
      assert bytes[i..][1..] == bytes[i + 1..];
      result := result + [bytes[i] as char];
      i := i + 1;
    }
    assert bytes[i..] == [];
    assert result + [] == result;
  }

  lemma DecodedStep(before: string, b: seq<byte>)
    requires b != []
    ensures if b[0] == PERCENT && |b| > 2 && HexPair(b[1], b[2]).Some?
            then before + Decoded(b) == (before + [HexPair(b[1], b[2]).value as char]) + Decoded(b[3..])
            else before + Decoded(b) == (before + [b[0] as char]) + Decoded(b[1..])
  {
    hide HexPair;
    if b[0] == PERCENT && |b| > 2 && HexPair(b[1], b[2]).Some? {
      Regroup(before, [HexPair(b[1], b[2]).value as char], Decoded(b[3..]));
    } else {
      Regroup(before, [b[0] as char], Decoded(b[1..]));
    }
  }

  // ---------------------------------------------------------------------------
  // The encoding
  // ---------------------------------------------------------------------------

  /** Letters, digits, `-`, `.`, `_` and `~`. */
  predicate Unreserved(c: char) {
    'a' <= c <= 'z' || 'A' <= c <= 'Z' || '0' <= c <= '9' || c == '-' || c == '.' || c == '_' || c == '~'
  }

  function EncodeByte(b: byte): string {
    if Unreserved(b as char) then [b as char] else ['%', Text.HexDigit(b / 16), Text.HexDigit(b % 16)]
  }

  function Encoded(b: seq<byte>): string {
    if b == [] then [] else EncodeByte(b[0]) + Encoded(b[1..])
  }

  function PercentEncode(s: string): string { Encoded(Utf8.Encode(s)) }

  predicate Ascii(s: string) { forall c :: c in s ==> c as int < 0x80 }

  /** The characters with the numbers of the bytes. */
  function Latin1(b: seq<byte>): (s: string)
    ensures |s| == |b|
  {
    if b == [] then [] else [b[0] as char] + Latin1(b[1..])
  }

  lemma {:induction false} EncodeConcat(a: string, b: string)
    ensures Utf8.Encode(a + b) == Utf8.Encode(a) + Utf8.Encode(b)
  {
    hide Utf8.EncodeChar;
    if a == [] {
      assert a + b == b;
    } else {
      EncodeConcat(a[1..], b);
      assert (a + b)[1..] == a[1..] + b;
      Regroup(Utf8.EncodeChar(a[0]), Utf8.Encode(a[1..]), Utf8.Encode(b));
    }
  }

  lemma ThreeAscii(a: char, b: char, c: char)
    requires a as int < 0x80 && b as int < 0x80 && c as int < 0x80
    ensures Utf8.Encode([a]) == [a as int]
    ensures Utf8.Encode([a, b, c]) == [a as int, b as int, c as int]
  {
    assert [a][1..] == [] && [a, b, c][1..] == [b, c] && [b, c][1..] == [c] && [c][1..] == [];
    assert Utf8.Encode([c]) == [c as int];
    assert Utf8.Encode([b, c]) == [b as int, c as int];
  }

  /** Decoding an encoded byte string gives its bytes as characters. */
  lemma {:induction false} DecodedOfEncoded(b: seq<byte>)
    ensures Decoded(Utf8.Encode(Encoded(b))) == Latin1(b)
  {
    hide Utf8.Encode;
    if b == [] {
      assert Utf8.Encode([]) == [] by { NothingEncoded(); }
    } else {
      var rest := Utf8.Encode(Encoded(b[1..]));
      DecodedOfEncoded(b[1..]);
      EncodeConcat(EncodeByte(b[0]), Encoded(b[1..]));
      DecodedByte(b[0], rest);
    }
  }

  lemma NothingEncoded()
    ensures Utf8.Encode([]) == []
  {
  }

  lemma DecodedByte(b: byte, rest: seq<byte>)
    ensures Decoded(Utf8.Encode(EncodeByte(b)) + rest) == [b as char] + Decoded(rest)
  {
    hide Utf8.Encode, Decoded;
    var e := Utf8.Encode(EncodeByte(b));
    DecodedStep("", e + rest);
    assert "" + Decoded(e + rest) == Decoded(e + rest);
    if Unreserved(b as char) {
      ThreeAscii(b as char, '0', '0');
      assert e + rest == [b] + rest && (e + rest)[1..] == rest;
      assert "" + [b as char] == [b as char];
    } else {
      var h, l := Text.HexDigit(b / 16), Text.HexDigit(b % 16);
      ThreeAscii('%', h, l);
      assert e + rest == [PERCENT, h as int, l as int] + rest && (e + rest)[3..] == rest;
      assert HexPair(h as int, l as int) == Some(b);
      assert "" + [b as char] == [b as char];
    }
  }

  lemma {:induction false} Latin1OfAscii(s: string)
    requires Ascii(s)
    ensures Latin1(Utf8.Encode(s)) == s
  {
    if s != [] {
      assert forall c :: c in s[1..] ==> c in s;
      Latin1OfAscii(s[1..]);
      assert s[0] in s;
      assert Utf8.EncodeChar(s[0]) == [s[0] as int];
      assert Utf8.Encode(s)[1..] == Utf8.Encode(s[1..]);
      assert [s[0]] + s[1..] == s;
    }
  }

  lemma AsciiCons(s: string)
    requires s != []
    ensures Ascii(s) <==> s[0] as int < 0x80 && Ascii(s[1..])
  {
    assert s[0] in s;
    assert forall c :: c in s[1..] ==> c in s;
    assert forall c :: c in s ==> c == s[0] || c in s[1..];
  }

  lemma {:induction false} LongerThanText(s: string)
    ensures |Utf8.Encode(s)| == |s| <==> Ascii(s)
  {
    hide Utf8.EncodeChar;
    if s != [] {
      LongerThanText(s[1..]);
      AsciiCons(s);
    }
  }

  /** Decoding undoes encoding exactly on ASCII texts: other characters come back as the characters of their UTF-8
      bytes. */
  lemma PercentRoundTrip(s: string)
    ensures Decoded(Utf8.Encode(PercentEncode(s))) == Latin1(Utf8.Encode(s))
    ensures Decoded(Utf8.Encode(PercentEncode(s))) == s <==> Ascii(s)
  {
    DecodedOfEncoded(Utf8.Encode(s));
    LongerThanText(s);
    if Ascii(s) { Latin1OfAscii(s); }
  }

  /** An accented letter comes back as two other characters. */
  lemma AccentLost()
    ensures Decoded(Utf8.Encode(PercentEncode("\U{e9}"))) == "\U{c3}\U{a9}"
  {
    hide Decoded, PercentEncode;
    var s := "\U{e9}";
    PercentRoundTrip(s);
    assert s[1..] == "";
    var b: seq<byte> := [0xc3, 0xa9];
    assert Utf8.Encode(s) == b;
    assert b[1..] == [0xa9] && b[1..][1..] == [];
    assert Latin1([0xa9]) == [0xa9 as char];
  }

  /** No delimiter of a DSN is left in an encoded text. */
  lemma {:induction false} EncodedIsSafe(b: seq<byte>)
    ensures forall c :: c in Encoded(b) ==> Unreserved(c) || c == '%'
  {
    if b != [] { EncodedIsSafe(b[1..]); }
  }

  /** A sign is taken for part of an escape: `%+a` is a line feed. */
  lemma SignedEscape()
    ensures Decoded(Utf8.Encode("%+a")) == [10 as char]
  {
    ThreeAscii('%', '+', 'a');
    var b: seq<byte> := [PERCENT, PLUS, 'a' as int];
    assert b[3..] == [];
    assert HexPair(PLUS, 'a' as int) == Some(10);
  }

  // ---------------------------------------------------------------------------
  // What is an escape
  // ---------------------------------------------------------------------------

  const LOWER: string := "0123456789abcdef"
  const UPPER: string := "0123456789ABCDEF"

  /** The digits of either case, and no other character. */
  lemma HexDigits(n: nat, c: char)
    requires n < 16
    ensures Text.HexValue(LOWER[n]) == Text.HexValue(UPPER[n]) == Some(n)
    ensures Text.HexValue(c).Some? <==> c in LOWER || c in UPPER
  {
    match Text.HexValue(c)
    case Some(v) => assert c == LOWER[v] || c == UPPER[v];
    case None =>
  }

  lemma DigitByte(n: nat, c: char)
    requires n < 16 && (c == LOWER[n] || c == UPPER[n])
    ensures c as int < 0x80 && Text.HexValue((c as int) as char) == Some(n)
  {
    HexDigits(n, c);
    assert c in LOWER || c in UPPER;
  }

  /** An escape with digits of any case is the byte it spells. */
  lemma EscapeDecodes(h: nat, l: nat, hi: char, lo: char, rest: seq<byte>)
    requires h < 16 && l < 16 && (hi == LOWER[h] || hi == UPPER[h]) && (lo == LOWER[l] || lo == UPPER[l])
    ensures hi as int < 0x80 && lo as int < 0x80
    ensures Decoded([0x25, hi as int, lo as int] + rest) == [(16 * h + l) as char] + Decoded(rest)
  {
    DigitByte(h, hi);
    DigitByte(l, lo);
    var b: seq<byte> := [0x25, hi as int, lo as int] + rest;
    assert HexPair(hi as int, lo as int) == Some(16 * h + l);
    hide Decoded, HexPair, Text.HexValue, LOWER, UPPER;
    DecodedStep("", b);
    assert b[3..] == rest && "" + Decoded(b) == Decoded(b);
    assert "" + [(16 * h + l) as char] == [(16 * h + l) as char];
  }

  /** Everything else stays as it is: other characters, and a percent sign that two digits, or a plus sign and a digit,
      do not follow. */
  lemma NoEscape(b: seq<byte>)
    requires b != []
    requires b[0] == 0x25 && |b| > 2 ==>
               !(b[2] as char in LOWER + UPPER && (b[1] as char in LOWER + UPPER || b[1] as char == '+'))
    ensures Decoded(b) == [b[0] as char] + Decoded(b[1..])
  {
    if b[0] == PERCENT && |b| > 2 {
      HexDigits(0, b[1] as char);
      HexDigits(0, b[2] as char);
    }
  }

  lemma EscapedSlash()
    ensures Decoded(Utf8.Encode("%2F")) == Decoded(Utf8.Encode("%2f")) == "/"
  {
    ThreeAscii('%', '2', 'F');
    ThreeAscii('%', '2', 'f');
    hide Decoded, Utf8.Encode;
    EscapeDecodes(2, 15, '2', 'F', []);
    EscapeDecodes(2, 15, '2', 'f', []);
    NothingDecoded();
    assert [0x25, 0x32, 0x46] + [] == [0x25, 0x32, 0x46];
    assert [0x25, 0x32, 0x66] + [] == [0x25, 0x32, 0x66];
  }

  lemma NothingDecoded()
    ensures Decoded([]) == []
  {
  }
}
