/**
 * The stream helpers of `IO.java`: little-endian readers and writers over
 * byte streams, a bulk reader that tolerates partial reads, a read counter,
 * and the stream that interleaves per-channel samples into 16-bit PCM.
 *
 * A stream is modelled by the bytes it still holds; the readers return the
 * value read together with what remains.
 */
module IO {
  import opened Bytes
  import opened JavaErrors

  // ---------------------------------------------------------------------
  // Little-endian values
  // ---------------------------------------------------------------------

  /** The unsigned value of two bytes, low byte first. */
  function Le16Value(s: seq<Byte>): (v: nat)
    requires |s| == 2
    ensures v < 0x1_0000
  {
    s[0] as int + 0x100 * (s[1] as int)
  }

  /** The unsigned value of four bytes, low byte first. */
  function Le32Value(s: seq<Byte>): (v: nat)
    requires |s| == 4
    ensures v < TwoTo32
  {
    s[0] as int + 0x100 * (s[1] as int) + 0x1_0000 * (s[2] as int) + 0x100_0000 * (s[3] as int)
  }

  /** `WriteInt16LE`: the low 16 bits of `lng`, low byte first
      (`lng & 0xFF`, then `(lng >>> 8) & 0xFF`). Both overloads agree. */
  function WriteInt16LE(lng: int): (r: seq<Byte>)
    ensures |r| == 2
  {
    [lng % 0x100, (lng / 0x100) % 0x100]
  }

  /** `WriteInt32LE` (and the writer's private `write32LE`): the low 32 bits
      of `lng`, low byte first. */
  function WriteInt32LE(lng: int): (r: seq<Byte>)
    ensures |r| == 4
  {
    [lng % 0x100, (lng / 0x100) % 0x100, (lng / 0x1_0000) % 0x100, (lng / 0x100_0000) % 0x100]
  }

  /** The two bytes `WriteInt16LE` writes hold `lng` modulo 2^16. */
  lemma WriteInt16LEValue(lng: int)
    ensures Le16Value(WriteInt16LE(lng)) == lng % 0x1_0000
  {
    DivDiv(lng, 0x100, 0x100);
  }

  /** The four bytes `WriteInt32LE` writes hold `lng` modulo 2^32. */
  lemma WriteInt32LEValue(lng: int)
    ensures Le32Value(WriteInt32LE(lng)) == lng % TwoTo32
  {
    Low32Digits(lng);
  }

  lemma Low32Digits(v: int)
    ensures v % TwoTo32 ==
      v % 0x100 + 0x100 * ((v / 0x100) % 0x100) + 0x1_0000 * ((v / 0x1_0000) % 0x100)
      + 0x100_0000 * ((v / 0x100_0000) % 0x100)
  {
    DivDiv(v, 0x100, 0x100_0000);
    DivDiv(v / 0x100, 0x100, 0x1_0000);
    DivDiv(v, 0x100, 0x100);
    DivDiv(v / 0x1_0000, 0x100, 0x100);
    DivDiv(v, 0x1_0000, 0x100);
  }

  const EofIn16 := "Unexpected end of file in ReadUInt16LE"
  const EofIn32 := "Unexpected end of file in ReadUInt32LE"

  /** `ReadUInt16LE` (both overloads): `(b2 << 8) | b1` from the next two
      bytes, or `EOFException` when the stream ends first. */
  function ReadUInt16LE(s: seq<Byte>): (r: Result<(int, seq<Byte>)>)
    ensures r.Ok? <==> |s| >= 2
    ensures r.Err? ==> r.error == EOFException(EofIn16)
    ensures r.Ok? ==> r.value.0 == Le16Value(s[..2]) && r.value.1 == s[2..]
    ensures r.Ok? ==> 0 <= r.value.0 < 0x1_0000
  {
    if |s| < 1 then Err(EOFException(EofIn16))
    else if |s| < 2 then Err(EOFException(EofIn16))
    else
      // the two bytes occupy disjoint bits, so `|` adds them
      Ok((s[1] as int * 0x100 + s[0], s[2..]))
  }

  /** Reading back what `WriteInt16LE` wrote yields `lng & 0xFFFF`. */
  lemma ReadBackInt16(lng: int, rest: seq<Byte>)
    ensures ReadUInt16LE(WriteInt16LE(lng) + rest) == Ok((lng % 0x1_0000, rest))
  {
    var w := WriteInt16LE(lng);
    assert (w + rest)[..2] == w;
    assert (w + rest)[2..] == rest;
    WriteInt16LEValue(lng);
  }

  /** `ReadUInt32LE(InputStream)`: `(b4 << 24) | (b3 << 16) | (b2 << 8) | b1`
      evaluated in 32-bit `int` arithmetic and then widened, so a top byte of
      0x80 or more yields a negative number. */
  function ReadUInt32LE(s: seq<Byte>): (r: Result<(Int32, seq<Byte>)>)
    ensures r.Ok? <==> |s| >= 4
    ensures r.Err? ==> r.error == EOFException(EofIn32)
    ensures r.Ok? ==> r.value.1 == s[4..]
    ensures r.Ok? && s[3] < 0x80 ==> r.value.0 == Le32Value(s[..4])
    ensures r.Ok? && s[3] >= 0x80 ==> r.value.0 == Le32Value(s[..4]) - TwoTo32
  {
    if |s| < 1 then Err(EOFException(EofIn32))
    else if |s| < 2 then Err(EOFException(EofIn32))
    else if |s| < 3 then Err(EOFException(EofIn32))
    else if |s| < 4 then Err(EOFException(EofIn32))
    else
      Ok((Int32Of(s[3] as int * 0x100_0000 + s[2] as int * 0x1_0000 + s[1] as int * 0x100 + s[0]), s[4..]))
  }

  /** `Int32Of` only looks at its argument modulo 2^32. */
  lemma Int32OfMod(x: int)
    ensures Int32Of(x % TwoTo32) == Int32Of(x)
  {
  }

  /** Reading back what `WriteInt32LE` wrote yields `(int) lng`: values of
      2^31 and above come back negative. */
  lemma ReadBackInt32(lng: int, rest: seq<Byte>)
    ensures ReadUInt32LE(WriteInt32LE(lng) + rest) == Ok((Int32Of(lng), rest))
  {
    var w := WriteInt32LE(lng);
    assert (w + rest)[..4] == w;
    assert (w + rest)[4..] == rest;
    WriteInt32LEValue(lng);
    Int32OfMod(lng);
  }

  /** The overflow the doc comment warns about: 0xFFFFFFFF reads as -1. */
  lemma AllOnesReadAsMinusOne(rest: seq<Byte>)
    ensures ReadUInt32LE([0xFF, 0xFF, 0xFF, 0xFF] + rest) == Ok((-1, rest))
  {
    var s := [0xFF, 0xFF, 0xFF, 0xFF] + rest;
    assert s[..4] == [0xFF, 0xFF, 0xFF, 0xFF];
    assert s[4..] == rest;
  }

  const Overflow32 := "Reading of unsigned 32 bits 0xFFFFFFFF -> -1"

  /** `ReadUInt32LE(RandomAccessFile)`: `readUnsignedByte` itself throws
      `EOFException` (without a message) at the end of the file, so the
      source's own `< 0` checks never fire; a total of -1 is refused. */
  function ReadUInt32LEFile(s: seq<Byte>): (r: Result<(Int32, seq<Byte>)>)
    ensures r.Ok? ==> |s| >= 4 && r.value.1 == s[4..] && r.value.0 != -1
    ensures r.Ok? ==> r == ReadUInt32LE(s)
    ensures |s| < 4 ==> r == Err(EOFException(""))
    ensures r.Err? && r.error.IOException? <==> |s| >= 4 && s[..4] == [0xFF, 0xFF, 0xFF, 0xFF]
    ensures |s| >= 4 && s[..4] != [0xFF, 0xFF, 0xFF, 0xFF] ==> r == ReadUInt32LE(s)
  {
    if |s| < 4 then Err(EOFException(""))
    else
      var total := Int32Of(s[3] as int * 0x100_0000 + s[2] as int * 0x1_0000 + s[1] as int * 0x100 + s[0]);
      if total == -1 then Err(IOException(Overflow32)) else Ok((total, s[4..]))
  }

  // ---------------------------------------------------------------------
  // Streams with partial reads
  // ---------------------------------------------------------------------

  /** A `java.io.InputStream` over fixed content. `data` is everything the
      stream will ever deliver and `pos` how much of it has been delivered.
      A bulk read may hand over fewer bytes than asked for: `grants` says
      how many each successive bulk read offers (at least one; once the
      list is used up, a read offers all that was asked for). */
  class ByteStream {
    const data: seq<Byte>
    var pos: nat
    var grants: seq<nat>

    ghost predicate Valid()
      reads this
    {
      pos <= |data|
    }

    constructor (data: seq<Byte>, grants: seq<nat>)
      ensures Valid() && this.data == data && pos == 0 && this.grants == grants
    {
      this.data := data;
      pos := 0;
      this.grants := grants;
    }

    /** `read()`: the next byte, or -1 at the end of the stream. */
    method Read() returns (r: int)
      requires Valid()
      modifies this
      ensures Valid() && grants == old(grants)
      ensures old(pos) < |data| ==> r == data[old(pos)] && pos == old(pos) + 1
      ensures old(pos) == |data| ==> r == -1 && pos == old(pos)
    {
      if pos == |data| {
        r := -1;
      } else {
        r := data[pos];
        pos := pos + 1;
      }
    }

    /** `read(b, off, len)`: 0 when `len` is 0, -1 at the end of the stream,
        otherwise copies between 1 and `len` bytes into `b[off..]`. */
    method ReadInto(b: array<Byte>, off: nat, len: nat) returns (n: int)
      requires Valid() && off + len <= b.Length
      modifies this, b
      ensures Valid()
      ensures len == 0 ==> n == 0 && pos == old(pos) && b[..] == old(b[..])
      ensures len > 0 && old(pos) == |data| ==> n == -1 && pos == old(pos) && b[..] == old(b[..])
      ensures len > 0 && old(pos) < |data| ==>
        1 <= n <= len && pos == old(pos) + n &&
        b[..off] == old(b[..off]) && b[off..off + n] == data[old(pos)..pos] && b[off + n..] == old(b[off + n..])
    {
      if len == 0 {
        return 0;
      }
      if pos == |data| {
        return -1;
      }
      var offer := if grants == [] then len else if grants[0] == 0 then 1 else grants[0];
      n := len;
      if offer < n { n := offer; }
      if |data| - pos < n { n := |data| - pos; }
      forall i | off <= i < off + n {
        b[i] := data[pos + (i - off)];
      }
      pos := pos + n;
      if grants != [] { grants := grants[1..]; }
    }
  }

  /** `readByteArray`: reads exactly `iBytes` bytes, however the stream
      splits them over its bulk reads, or throws `EOFException` when the
      stream ends first. The source asserts `iBytes > 0`. */
  method ReadByteArray(s: ByteStream, iBytes: Int32) returns (r: Result<array<Byte>>)
    requires s.Valid() && iBytes > 0
    modifies s
    ensures s.Valid()
    ensures r.Ok? <==> old(|s.data| - s.pos) >= iBytes
    ensures r.Ok? ==>
      fresh(r.value) && s.pos == old(s.pos) + iBytes && r.value[..] == s.data[old(s.pos)..s.pos]
    ensures r.Err? ==> r.error == EOFException("") && s.pos == |s.data|
  {
    var ab := new Byte[iBytes](_ => 0);
    ghost var p0 := s.pos;
    var pos := s.ReadInto(ab, 0, iBytes);
    if pos < 0 {
      return Err(EOFException(""));
    }
    while pos < iBytes
      invariant s.Valid() && 0 <= pos <= iBytes
      invariant s.pos == p0 + pos
      invariant ab[..pos] == s.data[p0..s.pos]
      decreases iBytes - pos
    {
      ghost var done := ab[..pos];
      var i := s.ReadInto(ab, pos, iBytes - pos);
      if i < 0 {
        return Err(EOFException(""));
      }
      assert ab[..pos + i] == ab[..pos] + ab[pos..pos + i];
      assert s.data[p0..p0 + pos + i] == s.data[p0..p0 + pos] + s.data[p0 + pos..p0 + pos + i];
      pos := pos + i;
    }
    assert ab[..] == ab[..pos];
    return Ok(ab);
  }

  // ---------------------------------------------------------------------
  // InputStreamWithFP
  // ---------------------------------------------------------------------

  /** The bytes among the results of successive `read()` calls (a result of
      -1 marks the end of the stream and delivers nothing). */
  function Delivered(results: seq<int>): (d: seq<Byte>)
    ensures |d| <= |results|
  {
    if results == [] then []
    else
      var x := results[|results| - 1];
      Delivered(results[..|results| - 1]) + (if 0 <= x < 0x100 then [x] else [])
  }

  /** How many of the results are the end-of-stream marker. */
  function EndReads(results: seq<int>): nat
  {
    if results == [] then 0
    else EndReads(results[..|results| - 1]) + (if results[|results| - 1] == -1 then 1 else 0)
  }

  /** Every `read()` call either delivers a byte or reports the end. */
  lemma {:induction false} CallsAreDeliveriesPlusEnds(results: seq<int>)
    requires forall k :: 0 <= k < |results| ==> -1 <= results[k] < 0x100
    ensures |results| == |Delivered(results)| + EndReads(results)
  {
    if results != [] {
      CallsAreDeliveriesPlusEnds(results[..|results| - 1]);
    }
  }

  /** `InputStreamWithFP`: counts the `read()` calls made through it. */
  class InputStreamWithFP {
    const inner: ByteStream
    var i: int
    /** The result of every `read()` call so far. */
    ghost var Results: seq<int>
    ghost const start: nat

    ghost predicate Valid()
      reads this, inner
    {
      inner.Valid() && i == |Results| &&
      (forall k :: 0 <= k < |Results| ==> -1 <= Results[k] < 0x100) &&
      start <= inner.pos && inner.data[start..inner.pos] == Delivered(Results)
    }

    constructor (stream: ByteStream)
      requires stream.Valid()
      ensures Valid() && inner == stream && Results == [] && start == stream.pos
    {
      inner := stream;
      i := 0;
      Results := [];
      start := stream.pos;
    }

    /** `read()`: counts the call, then reads from the wrapped stream. */
    method Read() returns (r: int)
      requires Valid()
      modifies this, inner
      ensures Valid()
      ensures i == old(i) + 1 && Results == old(Results) + [r]
      ensures r == -1 <==> old(inner.pos) == |inner.data|
      ensures r != -1 ==> r == inner.data[old(inner.pos)]
    {
      i := i + 1;
      r := inner.Read();
      Results := Results + [r];
      assert Results[..|Results| - 1] == old(Results);
    }

    /** `getFilePointer()`: the number of `read()` calls made, including
        the calls that found the stream at its end. */
    method GetFilePointer() returns (fp: int)
      requires Valid()
      ensures fp == |Results|
      ensures fp == |Delivered(Results)| + EndReads(Results)
    {
      CallsAreDeliveriesPlusEnds(Results);
      fp := i;
    }
  }

  // ---------------------------------------------------------------------
  // Short2DArrayInputStream
  // ---------------------------------------------------------------------

  /** Sample `i` of channels `0 .. k-1`, each as 16-bit little-endian. */
  function PartialFrame(chans: seq<seq<Short>>, i: nat, k: nat): (r: seq<Byte>)
    requires k <= |chans| && forall c :: 0 <= c < k ==> i < |chans[c]|
    ensures |r| == 2 * k
    decreases k
  {
    if k == 0 then [] else PartialFrame(chans, i, k - 1) + WriteInt16LE(chans[k - 1][i])
  }

  /** 16-bit little-endian PCM of the first `n` samples of every channel,
      channels interleaved sample by sample. */
  function Interleaved(chans: seq<seq<Short>>, n: nat): (r: seq<Byte>)
    requires forall c :: 0 <= c < |chans| ==> n <= |chans[c]|
    ensures |r| == 2 * |chans| * n
  {
    if n == 0 then []
    else
      var r := Interleaved(chans, n - 1) + PartialFrame(chans, n - 1, |chans|);
      assert 2 * |chans| * n == 2 * |chans| * (n - 1) + 2 * |chans|;
      r
  }

  /** The counters of a `Short2DArrayInputStream` that has not yet read
      past the data it was given. */
  ghost predicate ReaderState(chans: seq<seq<Short>>, si: int, ch: int, bi: int)
  {
    |chans| > 0 && 0 <= bi <= 1 && 0 <= ch < |chans| && 0 <= si &&
    (forall c :: 0 <= c < |chans| ==> si <= |chans[c]|) &&
    (forall c :: 0 <= c < ch ==> si < |chans[c]|) &&
    (bi == 1 ==> si < |chans[ch]|)
  }

  /** The bytes a stream in state (si, ch, bi) has delivered. */
  ghost function Produced(chans: seq<seq<Short>>, si: int, ch: int, bi: int): (r: seq<Byte>)
    requires ReaderState(chans, si, ch, bi)
    ensures |r| == (si * |chans| + ch) * 2 + bi
  {
    assert (si * |chans| + ch) * 2 == 2 * |chans| * si + 2 * ch;
    Interleaved(chans, si) + PartialFrame(chans, si, ch) +
      (if bi == 1 then WriteInt16LE(chans[ch][si])[..1] else [])
  }

  /** The three counters are the digits of the number of bytes read: the
      byte index changes on every call, the channel index every 2 calls and
      the sample index every 2·C calls. */
  lemma PositionDigits(c: nat, si: nat, ch: nat, bi: nat)
    requires 0 < c && ch < c && bi < 2
    ensures ((si * c + ch) * 2 + bi) / (2 * c) == si
    ensures ((si * c + ch) * 2 + bi) / 2 % c == ch
    ensures ((si * c + ch) * 2 + bi) % 2 == bi
  {
    var p := (si * c + ch) * 2 + bi;
    DivModUnique(p, 2, si * c + ch, bi);
    DivModUnique(si * c + ch, c, si, ch);
    assert p == si * (2 * c) + (2 * ch + bi);
    DivModUnique(p, 2 * c, si, 2 * ch + bi);
  }

  /** With every channel holding N samples, a stream that reports the end
      has delivered exactly the 2·C·N bytes of the interleaved PCM. */
  lemma DrainedIsInterleaved(chans: seq<seq<Short>>, n: nat, si: int, ch: int, bi: int)
    requires ReaderState(chans, si, ch, bi)
    requires forall c :: 0 <= c < |chans| ==> |chans[c]| == n
    requires si >= |chans[ch]|
    ensures Produced(chans, si, ch, bi) == Interleaved(chans, n)
    ensures |Produced(chans, si, ch, bi)| == 2 * |chans| * n
  {
    assert si == n;
  }

  /** The counters after one byte: the byte index flips, and after the
      high byte the channel advances, wrapping to the next sample. */
  function NextCounters(c: int, si: int, ch: int, bi: int): (int, int, int)
  {
    if bi == 0 then (si, ch, 1)
    else if ch + 1 < c then (si, ch + 1, 0)
    else (si + 1, 0, 0)
  }

  /** `Short2DArrayInputStream`: reads the samples of each channel as 16-bit
      little-endian PCM, interleaving the channels. */
  class Short2DArrayInputStream {
    const shortArray: seq<seq<Short>>
    var sampleIndex: int
    var channelIndex: int
    var byteIndex: int
    /** Every byte returned so far. */
    ghost var Emitted: seq<Byte>

    /** With no channels the counters stay at 0 and nothing is ever read. */
    ghost predicate Valid()
      reads this
    {
      (|shortArray| == 0 ==> sampleIndex == 0 && channelIndex == 0 && byteIndex == 0 && Emitted == []) &&
      (|shortArray| > 0 ==>
        ReaderState(shortArray, sampleIndex, channelIndex, byteIndex) &&
        Emitted == Produced(shortArray, sampleIndex, channelIndex, byteIndex))
    }

    /** How many bytes have been read. */
    ghost function Position(): int
      reads this
    {
      (sampleIndex * |shortArray| + channelIndex) * 2 + byteIndex
    }

    constructor (shortArray: seq<seq<Short>>)
      ensures Valid() && this.shortArray == shortArray && Emitted == []
      ensures sampleIndex == 0 && channelIndex == 0 && byteIndex == 0
    {
      this.shortArray := shortArray;
      sampleIndex, channelIndex, byteIndex := 0, 0, 0;
      Emitted := [];
    }

    /** `read()`: the next byte, or -1 once the sample index reaches the
        length of the current channel. With no channels, looking up the
        current channel throws. */
    method Read() returns (r: Result<int>)
      requires Valid()
      modifies this
      ensures Valid()
      ensures r.Err? <==> |shortArray| == 0
      ensures r.Err? ==> r.error == ArrayIndexOutOfBoundsException(0)
      ensures r == Ok(-1) <==> |shortArray| > 0 && old(sampleIndex) >= |shortArray[old(channelIndex)]|
      ensures r.Err? || r == Ok(-1) ==> unchanged(this)
      ensures r.Ok? && r.value != -1 ==>
        0 <= r.value < 0x100 && Position() == old(Position()) + 1 &&
        r.value == WriteInt16LE(shortArray[old(channelIndex)][old(sampleIndex)])[old(byteIndex)] &&
        Emitted == old(Emitted) + [r.value]
    {
      if channelIndex >= |shortArray| {
        return Err(ArrayIndexOutOfBoundsException(channelIndex));
      }
      if sampleIndex >= |shortArray[channelIndex]| {
        return Ok(-1);
      }
      var iRet: int := shortArray[channelIndex][sampleIndex];
      if byteIndex == 0 {
        iRet := iRet % 0x100;
      } else {
        iRet := (iRet / 0x100) % 0x100;
      }
      ghost var before := Emitted;
      ghost var si, ch, bi := sampleIndex, channelIndex, byteIndex;
      Increment();
      r := Ok(iRet);
      Emitted := Emitted + [iRet];
      ProducedStep(shortArray, si, ch, bi);
    }

    /** Advances the byte, channel and sample counters by one byte. */
    method Increment()
      requires |shortArray| > 0 && 0 <= byteIndex <= 1
      requires 0 <= channelIndex < |shortArray| && 0 <= sampleIndex
      modifies this
      ensures 0 <= byteIndex <= 1 && 0 <= channelIndex < |shortArray|
      ensures Position() == old(Position()) + 1
      ensures (sampleIndex, channelIndex, byteIndex) ==
        NextCounters(|shortArray|, old(sampleIndex), old(channelIndex), old(byteIndex))
      ensures Emitted == old(Emitted)
    {
      var c := |shortArray|;
      byteIndex := (byteIndex + 1) % 2;
      if byteIndex == 0 {
        if channelIndex + 1 < c {
          DivModUnique(channelIndex + 1, c, 0, channelIndex + 1);
        } else {
          DivModUnique(channelIndex + 1, c, 1, 0);
        }
        channelIndex := (channelIndex + 1) % c;
        if channelIndex == 0 {
          assert (sampleIndex + 1) * c == sampleIndex * c + c;
          sampleIndex := sampleIndex + 1;
        }
      }
    }
  }

  /** One `read()` that does not hit the end adds exactly the next byte to
      what has been produced. */
  lemma ProducedStep(chans: seq<seq<Short>>, si: int, ch: int, bi: int)
    requires ReaderState(chans, si, ch, bi) && si < |chans[ch]|
    ensures var (si', ch', bi') := NextCounters(|chans|, si, ch, bi);
      ReaderState(chans, si', ch', bi') &&
      Produced(chans, si', ch', bi') == Produced(chans, si, ch, bi) + [WriteInt16LE(chans[ch][si])[bi]]
  {
    if bi == 0 {
      LowByteStep(chans, si, ch);
    } else if ch + 1 < |chans| {
      HighByteStep(chans, si, ch);
    } else {
      LastChannelStep(chans, si, ch);
    }
  }

  lemma LowByteStep(chans: seq<seq<Short>>, si: int, ch: int)
    requires ReaderState(chans, si, ch, 0) && si < |chans[ch]|
    ensures ReaderState(chans, si, ch, 1)
    ensures Produced(chans, si, ch, 1) == Produced(chans, si, ch, 0) + [WriteInt16LE(chans[ch][si])[0]]
  {
    var w := WriteInt16LE(chans[ch][si]);
    assert w[..1] == [w[0]];
  }

  lemma HighByteStep(chans: seq<seq<Short>>, si: int, ch: int)
    requires ReaderState(chans, si, ch, 1) && ch + 1 < |chans|
    ensures ReaderState(chans, si, ch + 1, 0)
    ensures Produced(chans, si, ch + 1, 0) == Produced(chans, si, ch, 1) + [WriteInt16LE(chans[ch][si])[1]]
  {
    var w := WriteInt16LE(chans[ch][si]);
    var i := Interleaved(chans, si);
    assert w[..1] + [w[1]] == w;
    assert PartialFrame(chans, si, ch + 1) == PartialFrame(chans, si, ch) + w;
    assert i + PartialFrame(chans, si, ch) + w == i + PartialFrame(chans, si, ch) + w[..1] + [w[1]];
  }

  lemma LastChannelStep(chans: seq<seq<Short>>, si: int, ch: int)
    requires ReaderState(chans, si, ch, 1) && ch + 1 == |chans|
    ensures ReaderState(chans, si + 1, 0, 0)
    ensures Produced(chans, si + 1, 0, 0) == Produced(chans, si, ch, 1) + [WriteInt16LE(chans[ch][si])[1]]
  {
    assert forall c :: 0 <= c < |chans| ==> si < |chans[c]| by {
      assert forall c :: 0 <= c < ch ==> si < |chans[c]|;
    }
    CompleteFrame(chans, si);
  }

  /** The last byte of a frame completes the interleaved prefix. */
  lemma CompleteFrame(chans: seq<seq<Short>>, si: nat)
    requires |chans| > 0 && forall c :: 0 <= c < |chans| ==> si < |chans[c]|
    ensures var ch := |chans| - 1; var w := WriteInt16LE(chans[ch][si]);
      Interleaved(chans, si + 1) == Interleaved(chans, si) + PartialFrame(chans, si, ch) + w[..1] + [w[1]]
  {
    var ch := |chans| - 1;
    var w := WriteInt16LE(chans[ch][si]);
    var i := Interleaved(chans, si);
    var p := PartialFrame(chans, si, ch);
    assert w[..1] + [w[1]] == w;
    assert Interleaved(chans, si + 1) == i + (p + w);
    assert i + (p + w) == i + p + w[..1] + [w[1]];
  }
}
