/** Decimal and hexadecimal text. */
module Text {
  import opened Bytes
  import opened Wrappers

  function Digit(n: nat): (c: char)
    requires n < 10
    ensures '0' <= c <= '9'
  {
    ('0' as int + n) as char
  }

  predicate IsDigit(c: char) { '0' <= c <= '9' }

  /** The decimal digits of n, without leading zeros. */
  function Digits(n: nat): (s: string)
    ensures s != [] && forall c :: c in s ==> IsDigit(c)
  {
    if n < 10 then [Digit(n)] else Digits(n / 10) + [Digit(n % 10)]
  }

  /** The value of a digit string; None if there is any other character. */
  function Number(s: string): Option<nat> {
    if s == [] then Some(0)
    else
      var last := s[|s| - 1];
      match Number(s[..|s| - 1])
      case Some(n) => if IsDigit(last) then Some(10 * n + (last as int - '0' as int)) else None
      case None => None
  }

  lemma {:induction false} NumberOfDigits(n: nat)
    ensures Number(Digits(n)) == Some(n)
  {
    if n < 10 {
      assert Number([]) == Some(0);
    } else {
      NumberOfDigits(n / 10);
      var s := Digits(n);
      assert s[..|s| - 1] == Digits(n / 10);
    }
  }

  /** `to_string` of a signed integer. */
  function Decimal(n: int): (s: string)
    ensures s != [] && forall c :: c in s ==> IsDigit(c) || c == '-'
  {
    if n < 0 then ['-'] + Digits(-n) else Digits(n)
  }

  /** Reads back a signed decimal. */
  function Integer(s: string): Option<int> {
    if s != [] && s[0] == '-' then
      match Number(s[1..])
      case Some(n) => Some(-(n as int))
      case None => None
    else
      match Number(s)
      case Some(n) => Some(n)
      case None => None
  }

  lemma IntegerOfDecimal(n: int)
    ensures Integer(Decimal(n)) == Some(n)
  {
    if n < 0 {
      NumberOfDigits(-n);
      assert Decimal(n)[1..] == Digits(-n);
    } else {
      NumberOfDigits(n);
      assert IsDigit(Digits(n)[0]);
    }
  }

  function ZeroDigits(n: nat): (s: string)
    ensures |s| == n && forall c :: c in s ==> c == '0'
  {
    if n == 0 then [] else ['0'] + ZeroDigits(n - 1)
  }

  /** Digits filled up with zeros on the left. */
  function Filled(n: nat, width: int): (s: string)
    ensures s != [] && forall c :: c in s ==> IsDigit(c)
  {
    var gap := width - |Digits(n)|;
    ZeroDigits(if gap > 0 then gap else 0) + Digits(n)
  }

  /** `{n:0width}`: the zeros go between the sign and the digits. */
  function Padded(n: int, width: nat): (s: string)
    ensures s != [] && forall c :: c in s ==> IsDigit(c) || c == '-'
  {
    if n < 0 then ['-'] + Filled(-n, width - 1) else Filled(n, width)
  }

  lemma {:induction false} NumberIgnoresZeros(k: nat, s: string)
    ensures Number(ZeroDigits(k) + s) == Number(s)
  {
    if s == [] {
      assert ZeroDigits(k) + s == ZeroDigits(k);
      NumberOfZeros(k);
    } else {
      NumberIgnoresZeros(k, s[..|s| - 1]);
      var t := ZeroDigits(k) + s;
      assert t[..|t| - 1] == ZeroDigits(k) + s[..|s| - 1];
    }
  }

  lemma {:induction false} NumberOfZeros(k: nat)
    ensures Number(ZeroDigits(k)) == Some(0)
  {
    if k > 0 {
      NumberOfZeros(k - 1);
      var s := ZeroDigits(k);
      assert s[k - 1] in s;
      ZerosSnoc(k - 1);
    }
  }

  lemma {:induction false} ZerosSnoc(k: nat)
    ensures ZeroDigits(k + 1)[..k] == ZeroDigits(k)
  {
    if k > 0 {
      ZerosSnoc(k - 1);
    }
  }

  lemma NumberOfFilled(n: nat, width: int)
    ensures Number(Filled(n, width)) == Some(n)
  {
    var gap := width - |Digits(n)|;
    NumberIgnoresZeros(if gap > 0 then gap else 0, Digits(n));
    NumberOfDigits(n);
  }

  lemma IntegerOfPadded(n: int, width: nat)
    ensures Integer(Padded(n, width)) == Some(n)
  {
    hide Filled, Number;
    if n < 0 {
      NumberOfFilled(-n, width - 1);
      assert Padded(n, width)[1..] == Filled(-n, width - 1);
    } else {
      NumberOfFilled(n, width);
      assert IsDigit(Filled(n, width)[0]);
    }
  }

  function HexDigit(n: nat): (c: char)
    requires n < 16
    ensures '0' <= c <= '9' || 'a' <= c <= 'f'
  {
    if n < 10 then ('0' as int + n) as char else ('a' as int + n - 10) as char
  }

  /** The value of a hexadecimal digit of either case. */
  function HexValue(c: char): (r: Option<nat>)
    ensures r.Some? ==> r.value < 16
  {
    if '0' <= c <= '9' then Some(c as int - '0' as int)
    else if 'a' <= c <= 'f' then Some(c as int - 'a' as int + 10)
    else if 'A' <= c <= 'F' then Some(c as int - 'A' as int + 10)
    else None
  }

  /** Two lower-case digits a byte. */
  function Hex(b: seq<byte>): (s: string)
    ensures |s| == 2 * |b|
    ensures forall c :: c in s ==> '0' <= c <= '9' || 'a' <= c <= 'f'
  {
    if b == [] then [] else [HexDigit(b[0] / 16), HexDigit(b[0] % 16)] + Hex(b[1..])
  }

  function UnHex(s: string): Option<seq<byte>> {
    if s == [] then Some([])
    else if |s| == 1 then None
    else match (HexValue(s[0]), HexValue(s[1]), UnHex(s[2..]))
      case (Some(hi), Some(lo), Some(rest)) => (var b: byte := 16 * hi + lo; Some([b] + rest))
      case _ => None
  }

  lemma {:induction false} UnHexOfHex(b: seq<byte>)
    ensures UnHex(Hex(b)) == Some(b)
  {
    if b != [] {
      UnHexOfHex(b[1..]);
      assert Hex(b)[2..] == Hex(b[1..]);
      assert [b[0]] + b[1..] == b;
    }
  }
}
