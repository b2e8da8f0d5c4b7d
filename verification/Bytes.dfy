/** Bytes and the big-endian integers of the CAS wire format. */
module Bytes {
  type byte = x: int | 0 <= x < 0x100
  type i16 = x: int | -0x8000 <= x < 0x8000
  type i32 = x: int | -0x8000_0000 <= x < 0x8000_0000
  type i64 = x: int | -0x8000_0000_0000_0000 <= x < 0x8000_0000_0000_0000
  type u16 = x: int | 0 <= x < 0x1_0000
  type u32 = x: int | 0 <= x < 0x1_0000_0000
  type u64 = x: int | 0 <= x < 0x1_0000_0000_0000_0000

  const I32_MAX: int := 0x7fff_ffff
  const USIZE_SPAN: int := 0x1_0000_0000_0000_0000

  function Pow256(k: nat): (r: nat)
    ensures r >= 1
  {
    if k == 0 then 1 else 256 * Pow256(k - 1)
  }

  lemma Pow256Widths()
    ensures Pow256(2) == 0x1_0000
    ensures Pow256(4) == 0x1_0000_0000
    ensures Pow256(8) == 0x1_0000_0000_0000_0000
  {
    assert Pow256(3) == 0x100_0000;
    assert Pow256(5) == 0x100_0000_0000;
    assert Pow256(6) == 0x1_0000_0000_0000;
    assert Pow256(7) == 0x100_0000_0000_0000;
  }

  /** The k-byte big-endian form of an unsigned value. */
  function BigEndian(v: nat, k: nat): (s: seq<byte>)
    requires v < Pow256(k)
    ensures |s| == k
  {
    if k == 0 then [] else BigEndian(v / 256, k - 1) + [v % 256]
  }

  /** The unsigned value of a big-endian byte string. */
  function Unsigned(s: seq<byte>): (v: nat)
    ensures v < Pow256(|s|)
  {
    if s == [] then 0 else 256 * Unsigned(s[..|s| - 1]) + s[|s| - 1]
  }

  lemma {:induction false} UnsignedOfBigEndian(v: nat, k: nat)
    requires v < Pow256(k)
    ensures Unsigned(BigEndian(v, k)) == v
  {
    if k > 0 {
      UnsignedOfBigEndian(v / 256, k - 1);
      assert BigEndian(v, k)[..k - 1] == BigEndian(v / 256, k - 1);
    }
  }

  lemma {:induction false} BigEndianOfUnsigned(s: seq<byte>)
    ensures BigEndian(Unsigned(s), |s|) == s
  {
    if s != [] {
      BigEndianOfUnsigned(s[..|s| - 1]);
    }
  }

  /** Two's complement reading of a big-endian byte string. */
  function Signed(s: seq<byte>): (v: int)
    ensures -(Pow256(|s|) as int) <= 2 * v < Pow256(|s|)
  {
    var u := Unsigned(s);
    if 2 * u >= Pow256(|s|) then u - Pow256(|s|) else u
  }

  /** Two's complement big-endian form on k bytes. */
  function Twos(v: int, k: nat): (s: seq<byte>)
    requires -(Pow256(k) as int) <= 2 * v < Pow256(k)
    ensures |s| == k
  {
    BigEndian(if v < 0 then v + Pow256(k) else v, k)
  }

  lemma {:induction false} SignedOfTwos(v: int, k: nat)
    requires -(Pow256(k) as int) <= 2 * v < Pow256(k)
    ensures Signed(Twos(v, k)) == v
  {
    UnsignedOfBigEndian(if v < 0 then v + Pow256(k) else v, k);
  }

  function Be16(v: i16): (s: seq<byte>)
    ensures |s| == 2 && Signed(s) == v
  {
    Pow256Widths();
    SignedOfTwos(v, 2);
    Twos(v, 2)
  }

  function Be32(v: i32): (s: seq<byte>)
    ensures |s| == 4 && Signed(s) == v
  {
    Pow256Widths();
    SignedOfTwos(v, 4);
    Twos(v, 4)
  }

  function Be64(v: i64): (s: seq<byte>)
    ensures |s| == 8 && Signed(s) == v
  {
    Pow256Widths();
    SignedOfTwos(v, 8);
    Twos(v, 8)
  }

  lemma Be32OfSigned(b: seq<byte>)
    requires |b| == 4
    ensures -0x8000_0000 <= Signed(b) < 0x8000_0000 && Be32(Signed(b)) == b
  {
    Pow256Widths();
    BigEndianOfUnsigned(b);
    assert Twos(Signed(b), 4) == b;
  }

  lemma Be16OfSigned(b: seq<byte>)
    requires |b| == 2
    ensures -0x8000 <= Signed(b) < 0x8000 && Be16(Signed(b)) == b
  {
    Pow256Widths();
    BigEndianOfUnsigned(b);
    assert Twos(Signed(b), 2) == b;
  }

  /** The bit pattern of a 32-bit float, or an unsigned length. */
  function BeU32(v: u32): (s: seq<byte>)
    ensures |s| == 4 && Unsigned(s) == v
  {
    Pow256Widths();
    UnsignedOfBigEndian(v, 4);
    BigEndian(v, 4)
  }

  /** The bit pattern of a 64-bit float. */
  function BeU64(v: u64): (s: seq<byte>)
    ensures |s| == 8 && Unsigned(s) == v
  {
    Pow256Widths();
    UnsignedOfBigEndian(v, 8);
    BigEndian(v, 8)
  }

  /** The most significant byte comes first. */
  lemma BigEndianBytes(a: byte, b: byte, c: byte, d: byte)
    ensures Unsigned([a, b]) == 0x100 * a + b
    ensures Unsigned([a, b, c, d]) == 0x100_0000 * a + 0x1_0000 * b + 0x100 * c + d
    ensures Signed([a, b]) == 0x100 * a + b - if a >= 0x80 then 0x1_0000 else 0
    ensures Signed([a, b, c, d])
            == 0x100_0000 * a + 0x1_0000 * b + 0x100 * c + d - if a >= 0x80 then 0x1_0000_0000 else 0
  {
    Pow256Widths();
    assert [a][..0] == [] && [a, b][..1] == [a] && [a, b, c][..2] == [a, b] && [a, b, c, d][..3] == [a, b, c];
    assert Unsigned([a]) == a;
    assert Unsigned([a, b, c]) == 0x100 * Unsigned([a, b]) + c;
  }

  lemma SmallInts(n: byte)
    requires n < 0x80
    ensures Be32(n) == [0, 0, 0, n] && Be16(n) == [0, n]
  {
    BigEndianBytes(0, 0, 0, n);
    BigEndianBytes(0, n, 0, 0);
    Be32OfSigned([0, 0, 0, n]);
    Be16OfSigned([0, n]);
  }

  /** `n as i32` for a usize: the low 32 bits, read as two's complement. */
  function AsI32(n: nat): (v: i32)
    ensures n <= I32_MAX ==> v == n
  {
    var low := n % 0x1_0000_0000;
    if low >= 0x8000_0000 then low - 0x1_0000_0000 else low
  }

  /** `v as usize` for an i32 on a 64-bit machine: negative values sign-extend to huge ones. */
  function AsUsize(v: i32): (n: nat)
    ensures v >= 0 ==> n == v
    ensures v < 0 ==> n >= 0x8000_0000_0000_0000
  {
    if v < 0 then v + USIZE_SPAN else v
  }

  function Zeros(n: nat): (s: seq<byte>)
    ensures |s| == n && forall i :: 0 <= i < n ==> s[i] == 0
  {
    seq(n, i => 0)
  }

  lemma Regroup<T>(a: seq<T>, b: seq<T>, c: seq<T>)
    ensures (a + b) + c == a + (b + c)
  {
  }
}
