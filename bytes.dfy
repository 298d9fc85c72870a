/**
 * Machine-level values shared by the AVI writer and the stream helpers:
 * bytes as bit patterns, Java's 32-bit `int`, and the narrowing casts the
 * Java code applies.
 */
module Bytes {

  /** An octet as stored in a file or in a Java `byte[]`, given by its bit pattern. */
  type Byte = b: int | 0 <= b < 256

  /** A Java `short`. */
  type Short = x: int | -0x8000 <= x < 0x8000

  /** A Java `int`. */
  type Int32 = x: int | -0x8000_0000 <= x < 0x8000_0000

  /** A four-character code, as it appears in the file. */
  type FourCC = s: seq<Byte> | |s| == 4 witness [0, 0, 0, 0]

  const TwoTo32: int := 0x1_0000_0000

  /** Java's `(int)` cast of a wider integer: keep the low 32 bits and read
      them as a two's complement number. */
  function Int32Of(x: int): (r: Int32)
    ensures (x - r) % TwoTo32 == 0
    ensures -0x8000_0000 <= x < 0x8000_0000 ==> r == x
  {
    var m := x % TwoTo32;
    if m < 0x8000_0000 then m else m - TwoTo32
  }

  /** Java's `(int)` cast of a non-negative `double`: the fraction is
      dropped (the caller passes the whole part) and a value past the
      largest `int` saturates there instead of wrapping. */
  function SaturatedInt32(x: nat): (r: Int32)
    ensures 0 <= r <= x
    ensures r == x || r == 0x7FFF_FFFF
  {
    if x < 0x8000_0000 then x else 0x7FFF_FFFF
  }

  /** `n` zero bytes. */
  function Zeros(n: nat): (r: seq<Byte>)
    ensures |r| == n
  {
    seq(n, _ => 0)
  }

  /** The bytes of an ASCII string (`String.getBytes("UTF8")` on ASCII text). */
  function Ascii(s: string): (r: seq<Byte>)
    requires forall i :: 0 <= i < |s| ==> s[i] < 128 as char
    ensures |r| == |s|
    ensures forall i :: 0 <= i < |s| ==> r[i] == s[i] as int
  {
    seq(|s|, i requires 0 <= i < |s| => s[i] as int)
  }

  /** The four-character code spelled by a four-letter ASCII string. */
  function Code(s: string): (r: FourCC)
    requires |s| == 4
    requires forall i :: 0 <= i < |s| ==> s[i] < 128 as char
    ensures r == Ascii(s)
  {
    Ascii(s)
  }

  /** Euclidean division is determined by its quotient and remainder. */
  lemma DivModUnique(v: int, k: int, q: int, r: int)
    requires k > 0 && v == q * k + r && 0 <= r < k
    ensures v / k == q && v % k == r
  {
    var q', r' := v / k, v % k;
    assert (q' - q) * k == r - r' by {
      assert v == q' * k + r';
      assert (q' - q) * k == q' * k - q * k;
    }
    if q' != q {
      var d := if q' > q then q' - q else q - q';
      AtLeastOneMultiple(d, k);
      assert false;
    }
  }

  lemma AtLeastOneMultiple(d: int, k: int)
    requires d >= 1 && k > 0
    ensures d * k >= k
  {
    assert d * k == (d - 1) * k + k;
    assert (d - 1) * k >= 0;
  }

  lemma MulNonNegative(x: int, y: int)
    requires x >= 0 && y >= 0
    ensures x * y >= 0
  {
  }

  /** Dividing twice is dividing by the product. */
  lemma DivDiv(v: int, a: int, b: int)
    requires a > 0 && b > 0
    ensures v / a / b == v / (a * b)
    ensures v % (a * b) == v % a + a * ((v / a) % b)
  {
    var q1, r1 := v / a, v % a;
    var q2, r2 := q1 / b, q1 % b;
    assert v == q1 * a + r1;
    assert q1 == q2 * b + r2;
    assert v == q2 * (a * b) + (r2 * a + r1) by {
      assert q1 * a == (q2 * b + r2) * a;
      assert (q2 * b + r2) * a == q2 * (a * b) + r2 * a;
    }
    assert 0 <= r2 * a + r1 < a * b by {
      assert (b - 1) * a - r2 * a == (b - 1 - r2) * a;
      MulNonNegative(b - 1 - r2, a);
      assert (b - 1) * a == a * b - a;
    }
    DivModUnique(v, a * b, q2, r2 * a + r1);
  }
}
