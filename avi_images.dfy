/**
 * The byte-array helpers of the AVI writer that prepare frame data:
 * `read32LE`, the tail of `Image2DIB` that cuts the pixel data out of a
 * BMP file, and `JPEG2MJPEG`, which rewrites the JFIF marker of a JPEG
 * in place.
 *
 * These helpers do bit arithmetic on Java `byte` and `int` values, so an
 * array element is its 8-bit pattern (`bv8`) and an `int` being built is
 * its 32-bit pattern (`bv32`); `IntOfBits` reads a pattern as an `int`.
 */
module AviImages {
  import opened Bytes
  import opened JavaErrors
  import IO
  import Riff

  // ---------------------------------------------------------------------
  // Bit patterns
  // ---------------------------------------------------------------------

  /** The Java `int` whose bit pattern is `x`. */
  function IntOfBits(x: bv32): Int32
  {
    Int32Of(x as int)
  }

  /** The value of a Java `byte` whose bit pattern is `x`. */
  function ByteValue(x: bv8): (r: int)
    ensures -128 <= r < 128
    ensures (x as int - r) % 256 == 0
  {
    if x < 0x80 then x as int else x as int - 256
  }

  /** A `byte` widened to `int`, as Java does before `|` and `<<`: the
      sign bit is copied into the upper 24 bits, keeping the value. */
  function Widen(x: bv8): (r: bv32)
    ensures IntOfBits(r) == ByteValue(x)
    ensures x >= 0x80 ==> r & 0xFFFF_FF00 == 0xFFFF_FF00
  {
    ZeroExtended(x);
    if x < 0x80 then
      x as bv32
    else
      HighOnes(x);
      (x as bv32) | 0xFFFF_FF00
  }

  /** A `byte` masked with `0xFF` after widening: the octet, zero-extended. */
  function Unsigned(x: bv8): (r: bv32)
    ensures r as int == x as int
  {
    ZeroExtended(x);
    x as bv32
  }

  lemma ZeroExtended(x: bv8)
    ensures (x as bv32) as int == x as int
  {
  }

  lemma HighOnes(x: bv8)
    requires x >= 0x80
    ensures (x as bv32) | 0xFFFF_FF00 == (x as bv32) + 0xFFFF_FF00
    ensures ((x as bv32) + 0xFFFF_FF00) as int == x as int + 0xFFFF_FF00
  {
  }

  /** The octets of `s` as the file writer's bytes. */
  function Octets(s: seq<bv8>): (r: seq<Byte>)
    ensures |r| == |s| && forall k :: 0 <= k < |s| ==> r[k] == s[k] as int
  {
    seq(|s|, k requires 0 <= k < |s| => s[k] as int)
  }

  /** The unsigned value of four octets, low octet first: the stream
      helpers' little-endian value of the same bytes. */
  function Le32(s: seq<bv8>): (v: nat)
    requires |s| == 4
    ensures v < TwoTo32
  {
    IO.Le32Value(Octets(s))
  }

  // ---------------------------------------------------------------------
  // write32LE and read32LE
  // ---------------------------------------------------------------------

  /** `write32LE(raf, v)`: the four octets of `v`, low octet first
      (`v & 0xFF`, then `(v >>> 8) & 0xFF` and so on). */
  function Write32LE(v: bv32): (r: seq<bv8>)
    ensures |r| == 4
  {
    [(v & 0xFF) as bv8, ((v >> 8) & 0xFF) as bv8, ((v >> 16) & 0xFF) as bv8, ((v >> 24) & 0xFF) as bv8]
  }

  /** `write32LE` on a bit pattern writes the octets that `WriteInt32LE`
      writes for its unsigned value: both are the value's four octets, low
      octet first. */
  lemma Write32LEIsWriteInt32LE(v: bv32)
    ensures Octets(Write32LE(v)) == IO.WriteInt32LE(v as int)
  {
    var s := Write32LE(v);
    MaskUndoesWrite(v);
    MaskedIsLe32(s);
    var n := v as int;
    assert IO.Le32Value(Octets(s)) == n;
    assert IO.Le32Value(IO.WriteInt32LE(n)) == n by {
      IO.WriteInt32LEValue(n);
      DivModUnique(n, TwoTo32, 0, n);
    }
    Riff.Le32Injective(Octets(s), IO.WriteInt32LE(n));
  }

  lemma MaskUndoesWrite(v: bv32)
    ensures Masked(Write32LE(v)) == v
  {
  }

  /** The first index of `ab[iPos..iPos + 4]` that Java finds out of range. */
  function FirstBadIndex(ab: seq<bv8>, iPos: int): (i: int)
    requires iPos < 0 || |ab| < iPos + 4
    ensures iPos <= i <= iPos + 3 && (i < 0 || i >= |ab|)
    ensures i > iPos ==> 0 <= iPos && i == |ab|
  {
    if iPos < 0 || iPos >= |ab| then iPos else |ab|
  }

  /** `read32LE(ab, iPos)` as written: each `byte` is sign-extended before
      the `|`, so a byte of 0x80 or more sets every bit above its own. */
  function Read32LEAsWritten(ab: seq<bv8>, iPos: int): (r: Result<Int32>)
    ensures r.Ok? <==> 0 <= iPos && iPos + 4 <= |ab|
    ensures r.Err? ==> r.error == ArrayIndexOutOfBoundsException(FirstBadIndex(ab, iPos))
  {
    if iPos < 0 || |ab| < iPos + 4 then
      Err(ArrayIndexOutOfBoundsException(FirstBadIndex(ab, iPos)))
    else
      Ok(IntOfBits(Widen(ab[iPos]) | (Widen(ab[iPos + 1]) << 8)
        | (Widen(ab[iPos + 2]) << 16) | (Widen(ab[iPos + 3]) << 24)))
  }

  /** `read32LE` with each byte masked (`ab[i] & 0xFF`), as a little-endian
      reader needs: the four octets, low octet first, read as an `int`. */
  function Read32LE(ab: seq<bv8>, iPos: int): (r: Result<Int32>)
    ensures r.Ok? <==> 0 <= iPos && iPos + 4 <= |ab|
    ensures r.Err? ==> r.error == ArrayIndexOutOfBoundsException(FirstBadIndex(ab, iPos))
    ensures r.Ok? ==> r.value == Int32Of(Le32(ab[iPos..iPos + 4]))
  {
    if iPos < 0 || |ab| < iPos + 4 then
      Err(ArrayIndexOutOfBoundsException(FirstBadIndex(ab, iPos)))
    else
      MaskedIsLe32(ab[iPos..iPos + 4]);
      Ok(IntOfBits(Masked(ab[iPos..iPos + 4])))
  }

  /** The four masked octets of `s` or-ed into their places. */
  function Masked(s: seq<bv8>): bv32
    requires |s| == 4
  {
    Unsigned(s[0]) | (Unsigned(s[1]) << 8) | (Unsigned(s[2]) << 16) | (Unsigned(s[3]) << 24)
  }

  /** The masked octets occupy disjoint bits, so or-ing them is adding them:
      the pattern has the little-endian value of the octets. */
  lemma MaskedIsLe32(s: seq<bv8>)
    requires |s| == 4
    ensures Masked(s) as int == Le32(s)
  {
    assert s == [s[0], s[1], s[2], s[3]];
    OrIsSum(s[0], s[1], s[2], s[3]);
    SumValue(s[0], s[1], s[2], s[3]);
  }

  /** The octets placed by addition, as `OrIsSum` shows or-ing places them. */
  function Sum4(x0: bv8, x1: bv8, x2: bv8, x3: bv8): bv32
  {
    (x0 as bv32) + (x1 as bv32) * 0x100 + (x2 as bv32) * 0x1_0000 + (x3 as bv32) * 0x100_0000
  }

  lemma SumValue(x0: bv8, x1: bv8, x2: bv8, x3: bv8)
    ensures Sum4(x0, x1, x2, x3) as int ==
      x0 as int + 0x100 * (x1 as int) + 0x1_0000 * (x2 as int) + 0x100_0000 * (x3 as int)
  {
    Sum1Value(x0, x1);
    Sum2Value(x0, x1, x2);
    Sum3Value(x0, x1, x2, x3);
  }

  lemma Sum1Value(x0: bv8, x1: bv8)
    ensures ((x0 as bv32) + (x1 as bv32) * 0x100) as int == x0 as int + 0x100 * (x1 as int)
  {
    ZeroExtended(x0);
    Shifted8(x0 as bv32, x1);
  }

  lemma Sum2Value(x0: bv8, x1: bv8, x2: bv8)
    ensures ((x0 as bv32) + (x1 as bv32) * 0x100 + (x2 as bv32) * 0x1_0000) as int ==
      ((x0 as bv32) + (x1 as bv32) * 0x100) as int + 0x1_0000 * (x2 as int)
  {
    var y := (x0 as bv32) + (x1 as bv32) * 0x100;
    assert y < 0x1_0000;
    Shifted16(y, x2);
  }

  lemma Sum3Value(x0: bv8, x1: bv8, x2: bv8, x3: bv8)
    ensures Sum4(x0, x1, x2, x3) as int ==
      ((x0 as bv32) + (x1 as bv32) * 0x100 + (x2 as bv32) * 0x1_0000) as int + 0x100_0000 * (x3 as int)
  {
    var y := (x0 as bv32) + (x1 as bv32) * 0x100 + (x2 as bv32) * 0x1_0000;
    assert y < 0x100_0000;
    Shifted24(y, x3);
  }

  lemma OrIsSum(x0: bv8, x1: bv8, x2: bv8, x3: bv8)
    ensures Masked([x0, x1, x2, x3]) == Sum4(x0, x1, x2, x3)
  {
  }

  /** Adding an octet above the bits already in use does not wrap. */
  lemma Shifted8(y: bv32, x: bv8)
    requires y < 0x100
    ensures (y + (x as bv32) * 0x100) as int == y as int + (x as int) * 0x100
  {
  }

  lemma Shifted16(y: bv32, x: bv8)
    requires y < 0x1_0000
    ensures (y + (x as bv32) * 0x1_0000) as int == y as int + (x as int) * 0x1_0000
  {
  }

  lemma Shifted24(y: bv32, x: bv8)
    requires y < 0x100_0000
    ensures (y + (x as bv32) * 0x100_0000) as int == y as int + (x as int) * 0x100_0000
  {
  }

  /** The masked reader undoes `write32LE`: the four octets written for an
      `int` read back as that `int`. */
  lemma Read32LEInvertsWrite(v: bv32)
    ensures Read32LE(Write32LE(v), 0) == Ok(IntOfBits(v))
  {
    var s := Write32LE(v);
    assert s[0..4] == s;
    MaskUndoesWrite(v);
  }

  /** As written, a low byte of 0x80 or more decides the result alone: it
      reads as that byte's negative value and the other three are lost. */
  lemma AsWrittenHighLowByte(ab: seq<bv8>, iPos: int)
    requires 0 <= iPos && iPos + 4 <= |ab| && ab[iPos] >= 0x80
    ensures Read32LEAsWritten(ab, iPos) == Ok(ByteValue(ab[iPos]))
  {
    var w := Widen(ab[iPos]);
    OrKeepsHighOnes(w, Widen(ab[iPos + 1]) << 8, Widen(ab[iPos + 2]) << 16, Widen(ab[iPos + 3]) << 24);
  }

  lemma OrKeepsHighOnes(w: bv32, a: bv32, b: bv32, c: bv32)
    requires w & 0xFFFF_FF00 == 0xFFFF_FF00
    requires a & 0xFF == 0 && b & 0xFF == 0 && c & 0xFF == 0
    ensures w | a | b | c == w
  {
  }

  /** As written, the octets `write32LE` produces for 128 read back as -128. */
  lemma AsWrittenMisreads128()
    ensures Write32LE(128) == [0x80, 0, 0, 0]
    ensures Read32LEAsWritten(Write32LE(128), 0) == Ok(-128)
    ensures Read32LE(Write32LE(128), 0) == Ok(128)
  {
    AsWrittenHighLowByte([0x80, 0, 0, 0], 0);
    Read32LEInvertsWrite(128);
  }

  /** When none of the three lower octets has its top bit set, sign
      extension changes nothing and both readers agree. */
  lemma AsWrittenAgreesBelow0x80(ab: seq<bv8>, iPos: int)
    requires 0 <= iPos && iPos + 4 <= |ab|
    requires ab[iPos] < 0x80 && ab[iPos + 1] < 0x80 && ab[iPos + 2] < 0x80
    ensures Read32LEAsWritten(ab, iPos) == Read32LE(ab, iPos)
  {
    TopByteShifted(ab[iPos + 3]);
  }

  /** As written, the result is the octets' little-endian value when all
      four are below 0x80, and negative as soon as one of them is not: its
      copied sign bits reach bit 31. */
  lemma AsWrittenSign(ab: seq<bv8>, iPos: int)
    requires 0 <= iPos && iPos + 4 <= |ab|
    ensures ab[iPos] < 0x80 && ab[iPos + 1] < 0x80 && ab[iPos + 2] < 0x80 && ab[iPos + 3] < 0x80 ==>
      Read32LEAsWritten(ab, iPos) == Ok(Le32(ab[iPos..iPos + 4]))
    ensures ab[iPos] >= 0x80 || ab[iPos + 1] >= 0x80 || ab[iPos + 2] >= 0x80 || ab[iPos + 3] >= 0x80 ==>
      Read32LEAsWritten(ab, iPos).value < 0
  {
    if ab[iPos] < 0x80 && ab[iPos + 1] < 0x80 && ab[iPos + 2] < 0x80 && ab[iPos + 3] < 0x80 {
      AsWrittenAllLow(ab, iPos);
    } else {
      AsWrittenSomeHigh(ab, iPos);
    }
  }

  lemma AsWrittenAllLow(ab: seq<bv8>, iPos: int)
    requires 0 <= iPos && iPos + 4 <= |ab|
    requires ab[iPos] < 0x80 && ab[iPos + 1] < 0x80 && ab[iPos + 2] < 0x80 && ab[iPos + 3] < 0x80
    ensures Read32LEAsWritten(ab, iPos) == Ok(Le32(ab[iPos..iPos + 4]))
  {
    AsWrittenAgreesBelow0x80(ab, iPos);
    LowLe32Fits(ab[iPos..iPos + 4]);
  }

  lemma AsWrittenSomeHigh(ab: seq<bv8>, iPos: int)
    requires 0 <= iPos && iPos + 4 <= |ab|
    requires ab[iPos] >= 0x80 || ab[iPos + 1] >= 0x80 || ab[iPos + 2] >= 0x80 || ab[iPos + 3] >= 0x80
    ensures Read32LEAsWritten(ab, iPos).Ok? && Read32LEAsWritten(ab, iPos).value < 0
  {
    var x0, x1, x2, x3 := ab[iPos], ab[iPos + 1], ab[iPos + 2], ab[iPos + 3];
    var y := Widen(x0) | (Widen(x1) << 8) | (Widen(x2) << 16) | (Widen(x3) << 24);
    SignBitSet(x0, x1, x2, x3);
    TopBitNegative(y);
  }

  /** Four octets whose top one is below 0x80 make a non-negative `int`. */
  lemma LowLe32Fits(s: seq<bv8>)
    requires |s| == 4 && s[3] < 0x80
    ensures Int32Of(Le32(s)) == Le32(s)
  {
    assert s[3] as int < 0x80;
  }

  lemma SignBitSet(x0: bv8, x1: bv8, x2: bv8, x3: bv8)
    requires x0 >= 0x80 || x1 >= 0x80 || x2 >= 0x80 || x3 >= 0x80
    ensures (Widen(x0) | (Widen(x1) << 8) | (Widen(x2) << 16) | (Widen(x3) << 24)) & 0x8000_0000 != 0
  {
    if x3 >= 0x80 {
      assert (Widen(x3) << 24) & 0x8000_0000 != 0;
    }
  }

  /** A pattern with bit 31 set is a negative `int`. */
  lemma TopBitNegative(y: bv32)
    requires y & 0x8000_0000 != 0
    ensures IntOfBits(y) < 0
  {
    var s := Write32LE(y);
    TopOctetHigh(y);
    MaskedIsLe32(s);
    HighLe32Negative(s);
  }

  lemma TopOctetHigh(y: bv32)
    requires y & 0x8000_0000 != 0
    ensures Masked(Write32LE(y)) == y && Write32LE(y)[3] >= 0x80
  {
  }

  /** Four octets whose top one is 0x80 or more make a negative `int`. */
  lemma HighLe32Negative(s: seq<bv8>)
    requires |s| == 4 && s[3] >= 0x80
    ensures Int32Of(Le32(s)) < 0
  {
    assert s[3] as int >= 0x80;
    var v := Le32(s);
    DivModUnique(v, TwoTo32, 0, v);
  }

  /** Shifting left by 24 discards the copied sign bits of the top octet. */
  lemma TopByteShifted(x: bv8)
    ensures Widen(x) << 24 == (x as bv32) << 24
  {
  }

  // ---------------------------------------------------------------------
  // Image2DIB: the pixel data of a BMP file
  // ---------------------------------------------------------------------

  /** Where a BMP file header stores `bfOffBits`, the offset of the pixels. */
  const BfOffBitsAt: int := 10

  const CopyRangeMessage: string := "from > to"

  /** `copyOfRange(ab, from, ab.length)`: the octets from `from` on. A start
      past the end is an `IllegalArgumentException`, a negative one an
      `ArrayIndexOutOfBoundsException`. */
  function CopyTail(ab: seq<bv8>, from: int): (r: Result<seq<bv8>>)
    ensures r.Ok? <==> 0 <= from <= |ab|
    ensures r.Ok? ==> |r.value| == |ab| - from && ab[..from] + r.value == ab
    ensures from > |ab| ==> r == Err(IllegalArgumentException(CopyRangeMessage))
    ensures from < 0 ==> r == Err(ArrayIndexOutOfBoundsException(from))
  {
    if from > |ab| then Err(IllegalArgumentException(CopyRangeMessage))
    else if from < 0 then Err(ArrayIndexOutOfBoundsException(from))
    else Ok(ab[from..])
  }

  /** The tail of `Image2DIB` as written: given the BMP file the encoder
      produced, the octets from `bfOffBits` on, with `bfOffBits` read by the
      unmasked `read32LE`. It succeeds only when no octet of the field has
      its top bit set, and then agrees with the corrected tail. */
  function DibPixelDataAsWritten(abDIB: seq<bv8>): (r: Result<seq<bv8>>)
    ensures |abDIB| < BfOffBitsAt + 4 ==> r == Err(ArrayIndexOutOfBoundsException(
      if |abDIB| <= BfOffBitsAt then BfOffBitsAt else |abDIB|))
    ensures r.Ok? <==> (|abDIB| >= BfOffBitsAt + 4
      && abDIB[BfOffBitsAt] < 0x80 && abDIB[BfOffBitsAt + 1] < 0x80
      && abDIB[BfOffBitsAt + 2] < 0x80 && abDIB[BfOffBitsAt + 3] < 0x80
      && Le32(abDIB[BfOffBitsAt..BfOffBitsAt + 4]) <= |abDIB|)
    ensures r.Ok? ==> r == DibPixelData(abDIB)
  {
    var start := Read32LEAsWritten(abDIB, BfOffBitsAt);
    if start.Err? then Err(start.error)
    else
      DibTailFacts(abDIB);
      CopyTail(abDIB, start.value)
  }

  lemma DibTailFacts(abDIB: seq<bv8>)
    requires |abDIB| >= BfOffBitsAt + 4
    ensures abDIB[BfOffBitsAt] < 0x80 && abDIB[BfOffBitsAt + 1] < 0x80 &&
            abDIB[BfOffBitsAt + 2] < 0x80 && abDIB[BfOffBitsAt + 3] < 0x80 ==>
      Read32LEAsWritten(abDIB, BfOffBitsAt).value == Le32(abDIB[BfOffBitsAt..BfOffBitsAt + 4]) &&
      DibPixelData(abDIB) == CopyTail(abDIB, Le32(abDIB[BfOffBitsAt..BfOffBitsAt + 4]))
    ensures abDIB[BfOffBitsAt] >= 0x80 || abDIB[BfOffBitsAt + 1] >= 0x80 ||
            abDIB[BfOffBitsAt + 2] >= 0x80 || abDIB[BfOffBitsAt + 3] >= 0x80 ==>
      Read32LEAsWritten(abDIB, BfOffBitsAt).value < 0
  {
    AsWrittenSign(abDIB, BfOffBitsAt);
    CorrectedTail(abDIB);
    var field := abDIB[BfOffBitsAt..BfOffBitsAt + 4];
    if field[3] < 0x80 {
      LowLe32Fits(field);
    }
  }

  lemma CorrectedTail(abDIB: seq<bv8>)
    requires |abDIB| >= BfOffBitsAt + 4
    ensures DibPixelData(abDIB) == CopyTail(abDIB, Int32Of(Le32(abDIB[BfOffBitsAt..BfOffBitsAt + 4])))
  {
  }

  /** The tail of `Image2DIB` corrected: the octets from `bfOffBits` on,
      with `bfOffBits` read by the masked `read32LE`. */
  function DibPixelData(abDIB: seq<bv8>): (r: Result<seq<bv8>>)
    ensures |abDIB| < BfOffBitsAt + 4 ==> r == Err(ArrayIndexOutOfBoundsException(
      if |abDIB| <= BfOffBitsAt then BfOffBitsAt else |abDIB|))
    ensures r.Ok? <==> (|abDIB| >= BfOffBitsAt + 4
      && 0 <= Int32Of(Le32(abDIB[BfOffBitsAt..BfOffBitsAt + 4])) <= |abDIB|)
  {
    var start := Read32LE(abDIB, BfOffBitsAt);
    if start.Err? then Err(start.error) else CopyTail(abDIB, start.value)
  }

  /** A BMP file whose `bfOffBits` field holds the length of its headers
      yields exactly the octets after them. */
  lemma DibPixelDataAfterHeaders(headers: seq<bv8>, pixels: seq<bv8>)
    requires BfOffBitsAt + 4 <= |headers| < 0x8000_0000
    requires Le32(headers[BfOffBitsAt..BfOffBitsAt + 4]) == |headers|
    ensures DibPixelData(headers + pixels) == Ok(pixels)
  {
    var ab := headers + pixels;
    assert ab[BfOffBitsAt..BfOffBitsAt + 4] == headers[BfOffBitsAt..BfOffBitsAt + 4];
    assert ab[|headers|..] == pixels;
  }

  /** As written, a BMP file whose `bfOffBits` has an octet of 0x80 or
      more gets a negative start and is refused. A file with a version 5
      info header and no palette has its pixels at 138 (`8A 00 00 00`):
      the corrected tail yields them, the tail as written throws. */
  lemma AsWrittenRefusesDib(abDIB: seq<bv8>)
    requires |abDIB| >= BfOffBitsAt + 4
    requires abDIB[BfOffBitsAt] >= 0x80 || abDIB[BfOffBitsAt + 1] >= 0x80 ||
             abDIB[BfOffBitsAt + 2] >= 0x80 || abDIB[BfOffBitsAt + 3] >= 0x80
    ensures Read32LEAsWritten(abDIB, BfOffBitsAt).Ok? && Read32LEAsWritten(abDIB, BfOffBitsAt).value < 0
    ensures DibPixelDataAsWritten(abDIB) ==
      Err(ArrayIndexOutOfBoundsException(Read32LEAsWritten(abDIB, BfOffBitsAt).value))
    ensures abDIB[BfOffBitsAt..BfOffBitsAt + 4] == [0x8A, 0, 0, 0] && |abDIB| >= 138 ==>
      DibPixelData(abDIB) == Ok(abDIB[138..])
  {
    AsWrittenSign(abDIB, BfOffBitsAt);
  }

  // ---------------------------------------------------------------------
  // JPEG2MJPEG
  // ---------------------------------------------------------------------

  /** The marker of a JFIF file, at offset 6: 'J' 'F' 'I' 'F'. */
  const Jfif: seq<bv8> := [0x4A, 0x46, 0x49, 0x46]

  /** The marker an MJPG frame carries instead: 'A' 'V' 'I' '1'. */
  const Avi1: seq<bv8> := [0x41, 0x56, 0x49, 0x31]

  const JfifMissingMessage: string := "JFIF header not found in jpeg data"

  /** Whether `s` carries the JFIF marker at offset 6. */
  predicate HasJfifMarker(s: seq<bv8>)
  {
    |s| >= 10 && s[6..10] == Jfif
  }

  /** `JPEG2MJPEG(ab)`: checks the JFIF marker byte by byte, stopping at
      the first byte that is out of range or differs, and on success
      rewrites it to `AVI1` in place. */
  method Jpeg2Mjpeg(ab: array<bv8>) returns (r: Outcome)
    modifies ab
    ensures r.Pass? <==> old(HasJfifMarker(ab[..]))
    ensures r.Pass? ==> ab[..] == old(ab[..6]) + Avi1 + old(ab[10..])
    ensures r.Pass? ==> !HasJfifMarker(ab[..])
    ensures r.Fail? ==> ab[..] == old(ab[..])
    ensures r == Fail(IOException(JfifMissingMessage)) <==>
      exists i :: 6 <= i < 10 && i < ab.Length && old(ab[i]) != Jfif[i - 6]
    ensures r.Fail? && !r.error.IOException? ==>
      r.error == ArrayIndexOutOfBoundsException(if ab.Length < 6 then 6 else ab.Length)
  {
    if ab.Length <= 6 {
      return Fail(ArrayIndexOutOfBoundsException(6));
    }
    if ab[6] != Jfif[0] {
      return Fail(IOException(JfifMissingMessage));
    }
    if ab.Length <= 7 {
      return Fail(ArrayIndexOutOfBoundsException(7));
    }
    if ab[7] != Jfif[1] {
      return Fail(IOException(JfifMissingMessage));
    }
    if ab.Length <= 8 {
      return Fail(ArrayIndexOutOfBoundsException(8));
    }
    if ab[8] != Jfif[2] {
      return Fail(IOException(JfifMissingMessage));
    }
    if ab.Length <= 9 {
      return Fail(ArrayIndexOutOfBoundsException(9));
    }
    if ab[9] != Jfif[3] {
      return Fail(IOException(JfifMissingMessage));
    }
    ab[6] := Avi1[0];
    ab[7] := Avi1[1];
    ab[8] := Avi1[2];
    ab[9] := Avi1[3];
    r := Pass;
  }
}
