/**
 * What an AVI file written by the writer looks like: the RIFF structure of
 * its headers, the `movi` list of padded data chunks, and the `idx1` index
 * built alongside them. These functions are the specification the writer's
 * methods are proved against.
 */
module AviLayout {
  import opened Bytes
  import opened IO
  import opened Riff

  const RiffId: FourCC := Code("RIFF")
  const AviId: FourCC := Code("AVI ")
  const ListId: FourCC := Code("LIST")
  const HdrlId: FourCC := Code("hdrl")
  const StrlId: FourCC := Code("strl")
  const StrfId: FourCC := Code("strf")
  const MoviId: FourCC := Code("movi")
  const Idx1Id: FourCC := Code("idx1")
  /** Chunk name of a video frame (stream 0, DIB or compressed). */
  const VideoId: FourCC := Code("00db")
  /** Chunk name of an audio block (stream 1, wave bytes). */
  const AudioId: FourCC := Code("01wb")

  /** `AVIIF_KEYFRAME`, the index flag of a key frame. */
  const AviifKeyframe: Int32 := 0x10

  /** Byte lengths of the fixed-size header records (`AVIMAINHEADER`,
      `AVISTREAMHEADER`, `BITMAPINFOHEADER`, `WAVEFORMATEX`). */
  datatype RecordSizes = RecordSizes(mainHeader: nat, streamHeader: nat, bitmapInfo: nat, waveFormat: nat)

  /** One data chunk written into the `movi` list: a video frame or an
      audio block, with its payload as given (before padding). */
  datatype DataChunk = DataChunk(video: bool, payload: seq<Byte>)

  /** One `idx1` record (`_avioldindex_entry`). */
  datatype IndexEntry = IndexEntry(chunkId: FourCC, flags: Int32, offset: Int32, size: Int32)

  // ---------------------------------------------------------------------
  // Padding
  // ---------------------------------------------------------------------

  /** `remaint`: the number of zero bytes that follow a payload of `n` bytes. */
  function PadLength(n: nat): nat
  {
    (4 - n % 4) % 4
  }

  /** A payload followed by its zero padding. */
  function Padded(p: seq<Byte>): (r: seq<Byte>)
    ensures |r| % 4 == 0 && |p| <= |r| < |p| + 4
  {
    p + Zeros(PadLength(|p|))
  }

  /** Padding keeps the payload in front and adds only zero bytes. */
  lemma PaddingIsZero(p: seq<Byte>)
    ensures Padded(p)[..|p|] == p
    ensures forall i :: |p| <= i < |Padded(p)| ==> Padded(p)[i] == 0
  {
    assert Padded(p) == p + Zeros(PadLength(|p|));
  }

  /** The padded length is the payload length rounded up to a multiple of 4. */
  lemma PaddedRoundsUp(p: seq<Byte>)
    ensures |Padded(p)| == (|p| + 3) / 4 * 4
  {
    var n := |p|;
    var q, r := n / 4, n % 4;
    assert n == q * 4 + r;
    if r == 0 {
      DivModUnique(n + 3, 4, q, 3);
    } else {
      DivModUnique(n + 3, 4, q + 1, r - 1);
    }
  }

  // ---------------------------------------------------------------------
  // The movi list and its index
  // ---------------------------------------------------------------------

  function ChunkId(video: bool): FourCC
  {
    if video then VideoId else AudioId
  }

  /** The bytes of one written data chunk: its padding is part of the chunk. */
  function DataChunkBytes(c: DataChunk): (r: seq<Byte>)
    ensures |r| == 8 + |Padded(c.payload)|
  {
    ChunkBytes(ChunkId(c.video), Padded(c.payload))
  }

  /** The payload of the `movi` list after its list type: the data chunks in
      the order they were written. */
  function MoviBody(ws: seq<DataChunk>): (r: seq<Byte>)
    ensures |r| == MoviLength(ws)
  {
    if ws == [] then [] else MoviBody(ws[..|ws| - 1]) + DataChunkBytes(ws[|ws| - 1])
  }

  /** The length of the movi body: each chunk takes 8 bytes of name and size
      plus its padded payload. */
  function MoviLength(ws: seq<DataChunk>): nat
  {
    if ws == [] then 0 else MoviLength(ws[..|ws| - 1]) + 8 + |Padded(ws[|ws| - 1].payload)|
  }

  /** How many video frames were written. */
  function VideoCount(ws: seq<DataChunk>): nat
  {
    if ws == [] then 0 else VideoCount(ws[..|ws| - 1]) + (if ws[|ws| - 1].video then 1 else 0)
  }

  /** How many audio bytes were written (before padding). */
  function AudioBytes(ws: seq<DataChunk>): nat
  {
    if ws == [] then 0
    else AudioBytes(ws[..|ws| - 1]) + (if ws[|ws| - 1].video then 0 else |ws[|ws| - 1].payload|)
  }

  /** The index entry recorded for chunk `c` written after the chunks
      `before`: the key-frame flag only for the first video frame, the offset
      of its name from the `movi` list type, and its padded size, both
      narrowed to `int`. */
  function EntryFor(before: seq<DataChunk>, c: DataChunk): IndexEntry
  {
    IndexEntry(
      ChunkId(c.video),
      if c.video && VideoCount(before) == 0 then AviifKeyframe else 0,
      Int32Of(4 + MoviLength(before)),
      Int32Of(|Padded(c.payload)|))
  }

  /** `indexList`: one entry per data chunk, in write order. */
  function Entries(ws: seq<DataChunk>): (es: seq<IndexEntry>)
    ensures |es| == |ws|
  {
    if ws == [] then [] else Entries(ws[..|ws| - 1]) + [EntryFor(ws[..|ws| - 1], ws[|ws| - 1])]
  }

  /** The `idx1` record of one entry: name, flags, offset, size. */
  function EntryBytes(e: IndexEntry): (r: seq<Byte>)
    ensures |r| == 16
  {
    e.chunkId + WriteInt32LE(e.flags) + WriteInt32LE(e.offset) + WriteInt32LE(e.size)
  }

  function IndexPayload(es: seq<IndexEntry>): (r: seq<Byte>)
    ensures |r| == 16 * |es|
  {
    if es == [] then [] else IndexPayload(es[..|es| - 1]) + EntryBytes(es[|es| - 1])
  }

  /** The trailing `idx1` chunk. */
  function Idx1Bytes(es: seq<IndexEntry>): seq<Byte>
  {
    ChunkBytes(Idx1Id, IndexPayload(es))
  }

  // ---------------------------------------------------------------------
  // Header region and whole file
  // ---------------------------------------------------------------------

  /** A `LIST 'strl'` holding a stream header placeholder and a `strf`
      chunk around a format record placeholder. */
  function StreamList(headerLen: nat, formatLen: nat): seq<Byte>
  {
    ListBytes(ListId, StrlId, Zeros(headerLen) + ChunkBytes(StrfId, Zeros(formatLen)))
  }

  /** The `LIST 'hdrl'`: main header, the video stream list, and the audio
      stream list when there is audio. Records are zero placeholders. */
  function HdrlBytes(sizes: RecordSizes, channels: int): seq<Byte>
  {
    ListBytes(ListId, HdrlId,
      Zeros(sizes.mainHeader) + StreamList(sizes.streamHeader, sizes.bitmapInfo) + AudioStreamList(sizes, channels))
  }

  /** The audio stream list, present only when there are audio channels. */
  function AudioStreamList(sizes: RecordSizes, channels: int): seq<Byte>
  {
    if channels > 0 then StreamList(sizes.streamHeader, sizes.waveFormat) else []
  }

  /** The header of the `movi` list as first written: its size still zero. */
  function MoviListHead(): seq<Byte>
  {
    ListId + Zeros(4) + MoviId
  }

  /** The file once the writer is open: the RIFF and movi sizes still zero. */
  function OpenedBytes(sizes: RecordSizes, channels: int): seq<Byte>
  {
    RiffId + Zeros(4) + AviId + HdrlBytes(sizes, channels) + MoviListHead()
  }

  /** Where the `movi` list's size field is. */
  function MoviSizeOffset(sizes: RecordSizes, channels: int): (p: nat)
    ensures p + 8 == |OpenedBytes(sizes, channels)|
  {
    12 + |HdrlBytes(sizes, channels)| + 4
  }

  /** The finished file: `RIFF 'AVI '` holding the header list, the movi list
      of data chunks, and the index. */
  function AviFileBytes(sizes: RecordSizes, channels: int, ws: seq<DataChunk>): seq<Byte>
  {
    ListBytes(RiffId, AviId,
      HdrlBytes(sizes, channels) + ListBytes(ListId, MoviId, MoviBody(ws)) + Idx1Bytes(Entries(ws)))
  }

  /** Offsets of the record placeholders in the opened file: `avih` after
      the RIFF and `hdrl` list headers, each stream header after its `strl`
      list header, each format record after its `strf` chunk header. */
  function MainHeaderOffset(): nat
  {
    24
  }

  function VideoHeaderOffset(sizes: RecordSizes): nat
  {
    MainHeaderOffset() + sizes.mainHeader + 12
  }

  function BitmapInfoOffset(sizes: RecordSizes): nat
  {
    VideoHeaderOffset(sizes) + sizes.streamHeader + 8
  }

  function AudioHeaderOffset(sizes: RecordSizes): nat
  {
    BitmapInfoOffset(sizes) + sizes.bitmapInfo + 12
  }

  function WaveFormatOffset(sizes: RecordSizes): nat
  {
    AudioHeaderOffset(sizes) + sizes.streamHeader + 8
  }

  /** `n` zero bytes at offset `at` of `s`. */
  ghost predicate ZerosAt(s: seq<Byte>, at: nat, n: nat)
  {
    at + n <= |s| && s[at..at + n] == Zeros(n)
  }

  lemma ZerosBetween(x: seq<Byte>, n: nat, y: seq<Byte>)
    ensures ZerosAt(x + Zeros(n) + y, |x|, n)
  {
    assert (x + Zeros(n) + y)[|x|..|x| + n] == Zeros(n);
  }

  /** The stream list's placeholders: the header right after the list
      header, the format record right after the `strf` chunk header. */
  lemma StreamListZeros(pre: seq<Byte>, headerLen: nat, formatLen: nat, post: seq<Byte>)
    ensures ZerosAt(pre + StreamList(headerLen, formatLen) + post, |pre| + 12, headerLen)
    ensures ZerosAt(pre + StreamList(headerLen, formatLen) + post, |pre| + 12 + headerLen + 8, formatLen)
  {
    var h := Zeros(headerLen);
    var f := Zeros(formatLen);
    var sl := StreamList(headerLen, formatLen);
    var a := ListId + WriteInt32LE(|StrlId + h + ChunkBytes(StrfId, f)|) + StrlId;
    var b := StrfId + WriteInt32LE(formatLen);
    assert sl == a + h + (b + f);
    assert pre + sl + post == (pre + a) + h + (b + f + post);
    ZerosBetween(pre + a, headerLen, b + f + post);
    assert pre + sl + post == (pre + a + h + b) + f + post;
    ZerosBetween(pre + a + h + b, formatLen, post);
  }

  /** Every record placeholder of the opened file is zero, at its offset. */
  lemma PlaceholdersAreZero(sizes: RecordSizes, channels: int)
    ensures var s := OpenedBytes(sizes, channels);
      ZerosAt(s, MainHeaderOffset(), sizes.mainHeader) &&
      ZerosAt(s, VideoHeaderOffset(sizes), sizes.streamHeader) &&
      ZerosAt(s, BitmapInfoOffset(sizes), sizes.bitmapInfo) &&
      (channels > 0 ==>
        ZerosAt(s, AudioHeaderOffset(sizes), sizes.streamHeader) &&
        ZerosAt(s, WaveFormatOffset(sizes), sizes.waveFormat))
  {
    var pre := OpenedShape(sizes, channels);
    LayoutZeros(OpenedBytes(sizes, channels), pre, sizes, channels);
  }

  lemma LayoutZeros(s: seq<Byte>, pre: seq<Byte>, sizes: RecordSizes, channels: int)
    requires |pre| == 24
    requires s == pre + Zeros(sizes.mainHeader) + StreamList(sizes.streamHeader, sizes.bitmapInfo)
      + AudioStreamList(sizes, channels) + MoviListHead()
    ensures ZerosAt(s, MainHeaderOffset(), sizes.mainHeader)
    ensures ZerosAt(s, VideoHeaderOffset(sizes), sizes.streamHeader)
    ensures ZerosAt(s, BitmapInfoOffset(sizes), sizes.bitmapInfo)
    ensures channels > 0 ==>
      ZerosAt(s, AudioHeaderOffset(sizes), sizes.streamHeader) &&
      ZerosAt(s, WaveFormatOffset(sizes), sizes.waveFormat)
  {
    var m := Zeros(sizes.mainHeader);
    var sl1 := StreamList(sizes.streamHeader, sizes.bitmapInfo);
    var sl2 := AudioStreamList(sizes, channels);
    var tail := MoviListHead();
    VideoZeros(s, pre, m, sl1, sl2, tail, sizes);
    if channels > 0 {
      AudioZeros(s, pre, m, sl1, sl2, tail, sizes);
    }
  }

  lemma VideoZeros(s: seq<Byte>, pre: seq<Byte>, m: seq<Byte>, sl1: seq<Byte>, sl2: seq<Byte>, tail: seq<Byte>,
                   sizes: RecordSizes)
    requires |pre| == 24 && m == Zeros(sizes.mainHeader) && sl1 == StreamList(sizes.streamHeader, sizes.bitmapInfo)
    requires s == pre + m + sl1 + sl2 + tail
    ensures ZerosAt(s, MainHeaderOffset(), sizes.mainHeader)
    ensures ZerosAt(s, VideoHeaderOffset(sizes), sizes.streamHeader)
    ensures ZerosAt(s, BitmapInfoOffset(sizes), sizes.bitmapInfo)
  {
    assert s == pre + m + (sl1 + sl2 + tail);
    assert s == (pre + m) + sl1 + (sl2 + tail);
    ZerosBetween(pre, sizes.mainHeader, sl1 + sl2 + tail);
    StreamListZeros(pre + m, sizes.streamHeader, sizes.bitmapInfo, sl2 + tail);
  }

  lemma AudioZeros(s: seq<Byte>, pre: seq<Byte>, m: seq<Byte>, sl1: seq<Byte>, sl2: seq<Byte>, tail: seq<Byte>,
                   sizes: RecordSizes)
    requires |pre| == 24 && |m| == sizes.mainHeader && |sl1| == 12 + sizes.streamHeader + 8 + sizes.bitmapInfo
    requires sl2 == StreamList(sizes.streamHeader, sizes.waveFormat)
    requires s == pre + m + sl1 + sl2 + tail
    ensures ZerosAt(s, AudioHeaderOffset(sizes), sizes.streamHeader)
    ensures ZerosAt(s, WaveFormatOffset(sizes), sizes.waveFormat)
  {
    StreamListZeros(pre + m + sl1, sizes.streamHeader, sizes.waveFormat, tail);
  }

  /** The opened file is 24 bytes of RIFF and `hdrl` headers, the main
      header placeholder, the stream lists and the `movi` list header. */
  lemma OpenedShape(sizes: RecordSizes, channels: int) returns (pre: seq<Byte>)
    ensures |pre| == 24
    ensures OpenedBytes(sizes, channels) == pre + Zeros(sizes.mainHeader)
      + StreamList(sizes.streamHeader, sizes.bitmapInfo) + AudioStreamList(sizes, channels) + MoviListHead()
  {
    pre := NestedListsShape(RiffId, AviId, ListId, HdrlId, Zeros(sizes.mainHeader),
      StreamList(sizes.streamHeader, sizes.bitmapInfo), AudioStreamList(sizes, channels), MoviListHead());
  }

  /** A list chunk nested in an opened outer chunk: everything before the
      list's children is 24 bytes of headers. */
  lemma NestedListsShape(outer: FourCC, outerType: FourCC, name: FourCC, sub: FourCC,
                         first: seq<Byte>, second: seq<Byte>, third: seq<Byte>, tail: seq<Byte>)
    returns (pre: seq<Byte>)
    ensures |pre| == 24
    ensures outer + Zeros(4) + outerType + ListBytes(name, sub, first + second + third) + tail
      == pre + first + second + third + tail
  {
    var w := WriteInt32LE(|sub + (first + second + third)|);
    var head := outer + Zeros(4) + outerType;
    assert ListBytes(name, sub, first + second + third) == name + w + (sub + (first + second + third));
    pre := head + name + w + sub;
    assert head + (name + w + (sub + (first + second + third))) + tail
      == (head + name + w + sub) + first + second + third + tail;
  }

  /** Closing: ending the movi list over the opened file followed by the
      movi body, appending the index chunk, then ending the RIFF chunk gives
      exactly the finished file. */
  lemma CloseLayout(sizes: RecordSizes, channels: int, body: seq<Byte>, idx: seq<Byte>)
    ensures var s0 := OpenedBytes(sizes, channels) + body;
      var p := MoviSizeOffset(sizes, channels);
      var s1 := s0[..p] + WriteInt32LE(|s0| - (p + 4)) + s0[p + 4..];
      var s2 := s1 + idx;
      p + 4 <= |s0| && 8 <= |s2| &&
      s2[..4] + WriteInt32LE(|s2| - 8) + s2[8..]
        == ListBytes(RiffId, AviId, HdrlBytes(sizes, channels) + ListBytes(ListId, MoviId, body) + idx)
  {
    CloseSteps(RiffId, AviId, ListId, MoviId, HdrlBytes(sizes, channels), body, idx);
  }

  lemma CloseSteps(riff: FourCC, avi: FourCC, list: FourCC, movi: FourCC,
                   hdrl: seq<Byte>, body: seq<Byte>, idx: seq<Byte>)
    ensures var s0 := riff + Zeros(4) + avi + hdrl + (list + Zeros(4) + movi) + body;
      var p := 12 + |hdrl| + 4;
      var s1 := s0[..p] + WriteInt32LE(|s0| - (p + 4)) + s0[p + 4..];
      var s2 := s1 + idx;
      p + 4 <= |s0| && 8 <= |s2| &&
      s2[..4] + WriteInt32LE(|s2| - 8) + s2[8..] == ListBytes(riff, avi, hdrl + ListBytes(list, movi, body) + idx)
  {
    var s0 := riff + Zeros(4) + avi + hdrl + (list + Zeros(4) + movi) + body;
    var pre := riff + Zeros(4) + avi + hdrl;
    var lb := ListBytes(list, movi, body);
    EndInnerList(pre, list, movi, body, s0);
    var s1 := pre + lb;
    var s2 := s1 + idx;
    EndOuterList(riff, avi, hdrl, lb, idx, s2);
  }

  /** Ending the `movi` list: backpatching its size over `pre` followed by
      the list header and the body yields `pre` followed by the list. */
  lemma EndInnerList(pre: seq<Byte>, list: FourCC, movi: FourCC, body: seq<Byte>, s0: seq<Byte>)
    requires s0 == pre + (list + Zeros(4) + movi) + body
    ensures |pre| + 8 <= |s0|
    ensures s0[..|pre| + 4] + WriteInt32LE(|s0| - (|pre| + 8)) + s0[|pre| + 8..] == pre + ListBytes(list, movi, body)
  {
    assert s0 == pre + list + Zeros(4) + (movi + body);
    EndChunkCloses(pre, list, movi + body, s0);
  }

  /** Ending the `RIFF` chunk over the whole file. */
  lemma EndOuterList(riff: FourCC, avi: FourCC, hdrl: seq<Byte>, lb: seq<Byte>, idx: seq<Byte>, s2: seq<Byte>)
    requires s2 == riff + Zeros(4) + avi + hdrl + lb + idx
    ensures 8 <= |s2|
    ensures s2[..4] + WriteInt32LE(|s2| - 8) + s2[8..] == ListBytes(riff, avi, hdrl + lb + idx)
  {
    var payload := avi + (hdrl + lb + idx);
    assert s2 == riff + Zeros(4) + payload;
    assert s2[..4] == riff;
    assert s2[8..] == payload;
  }

  // ---------------------------------------------------------------------
  // Properties of the index
  // ---------------------------------------------------------------------

  lemma {:induction false} MoviBodyAppend(a: seq<DataChunk>, b: seq<DataChunk>)
    ensures MoviBody(a + b) == MoviBody(a) + MoviBody(b)
    decreases |b|
  {
    if b == [] {
      assert a + b == a;
    } else {
      var b' := b[..|b| - 1];
      assert (a + b)[..|a + b| - 1] == a + b';
      assert (a + b)[|a + b| - 1] == b[|b| - 1];
      MoviBodyAppend(a, b');
      ConcatAssoc(MoviBody(a), MoviBody(b'), DataChunkBytes(b[|b| - 1]));
    }
  }

  /** Writing one more chunk appends its bytes to the movi body and its
      entry to the index, and adds to the frame count or the audio total. */
  lemma AppendChunk(ws: seq<DataChunk>, c: DataChunk)
    ensures MoviBody(ws + [c]) == MoviBody(ws) + DataChunkBytes(c)
    ensures Entries(ws + [c]) == Entries(ws) + [EntryFor(ws, c)]
    ensures VideoCount(ws + [c]) == VideoCount(ws) + (if c.video then 1 else 0)
    ensures AudioBytes(ws + [c]) == AudioBytes(ws) + (if c.video then 0 else |c.payload|)
  {
    assert (ws + [c])[..|ws|] == ws;
  }

  /** Entry `k` is the one recorded when chunk `k` was written. */
  lemma {:induction false} EntryAt(ws: seq<DataChunk>, k: nat)
    requires k < |ws|
    ensures Entries(ws)[k] == EntryFor(ws[..k], ws[k])
    decreases |ws|
  {
    if k < |ws| - 1 {
      var ws' := ws[..|ws| - 1];
      assert ws'[..k] == ws[..k];
      EntryAt(ws', k);
    }
  }

  /** The movi body around chunk `k`: the chunks before it, its bytes, and
      the chunks after it. */
  lemma MoviBodySplit(ws: seq<DataChunk>, k: nat)
    requires k < |ws|
    ensures MoviBody(ws) == MoviBody(ws[..k]) + DataChunkBytes(ws[k]) + MoviBody(ws[k + 1..])
  {
    assert ws == (ws[..k] + [ws[k]]) + ws[k + 1..];
    MoviBodyAppend(ws[..k] + [ws[k]], ws[k + 1..]);
    assert (ws[..k] + [ws[k]])[..k] == ws[..k];
  }

  /** Entry `k`'s offset and size are those of chunk `k` in the movi list,
      with nothing lost to the `int` casts while the list stays below 2 GiB. */
  lemma EntryFields(ws: seq<DataChunk>, k: nat)
    requires k < |ws|
    requires 4 + |MoviBody(ws)| < 0x8000_0000
    ensures Entries(ws)[k].offset == 4 + |MoviBody(ws[..k])|
    ensures Entries(ws)[k].size == |Padded(ws[k].payload)|
    ensures Entries(ws)[k].chunkId == ChunkId(ws[k].video)
  {
    EntryAt(ws, k);
    MoviBodySplit(ws, k);
  }

  /** An entry's offset, counted from the `movi` list type, lands on the
      name of the chunk it indexes; its size is that chunk's size field, and
      the chunk holds the padded payload (as long as the movi list stays
      below 2 GiB, so that the `int` casts keep the values). */
  lemma IndexLocatesChunk(ws: seq<DataChunk>, k: nat)
    requires k < |ws|
    requires 4 + |MoviBody(ws)| < 0x8000_0000
    ensures var e := Entries(ws)[k]; var movi := MoviId + MoviBody(ws);
      0 <= e.offset && e.offset + 8 + e.size <= |movi| &&
      e.size == |Padded(ws[k].payload)| &&
      movi[e.offset..e.offset + 8 + e.size] == ChunkBytes(e.chunkId, Padded(ws[k].payload))
  {
    EntryFields(ws, k);
    MoviBodySplit(ws, k);
    var m := MoviBody(ws[..k]);
    var y := DataChunkBytes(ws[k]);
    var z := MoviBody(ws[k + 1..]);
    ConcatAssoc(MoviId, m + y, z);
    ConcatAssoc(MoviId, m, y);
    assert ((MoviId + m) + y + z)[|MoviId + m|..|MoviId + m| + |y|] == y;
  }

  /** Concatenation regroups freely; the layout proofs call this to keep
      the regrouping out of their larger contexts. */
  lemma ConcatAssoc(x: seq<Byte>, y: seq<Byte>, z: seq<Byte>)
    ensures x + y + z == x + (y + z)
  {
  }

  /** Entries follow each other with no gap: the next offset is this offset
      plus the 8 bytes of name and size plus this chunk's size. */
  lemma ConsecutiveOffsets(ws: seq<DataChunk>, k: nat)
    requires k + 1 < |ws|
    requires 4 + |MoviBody(ws)| < 0x8000_0000
    ensures Entries(ws)[k + 1].offset == Entries(ws)[k].offset + 8 + Entries(ws)[k].size
  {
    EntryFields(ws, k);
    EntryFields(ws, k + 1);
    assert ws[..k + 1][..k] == ws[..k];
    assert MoviLength(ws[..k + 1]) == MoviLength(ws[..k]) + 8 + |Padded(ws[k].payload)|;
  }

  lemma {:induction false} NoVideoBefore(ws: seq<DataChunk>)
    ensures VideoCount(ws) == 0 <==> forall i :: 0 <= i < |ws| ==> !ws[i].video
    decreases |ws|
  {
    if ws != [] {
      var ws' := ws[..|ws| - 1];
      NoVideoBefore(ws');
      assert forall i :: 0 <= i < |ws'| ==> ws'[i] == ws[i];
    }
  }

  /** Only the first video frame is flagged as a key frame; every later
      frame and every audio block has flags 0. */
  lemma KeyframeOnlyFirstVideo(ws: seq<DataChunk>, k: nat)
    requires k < |ws|
    ensures Entries(ws)[k].flags == AviifKeyframe <==>
      ws[k].video && forall i :: 0 <= i < k ==> !ws[i].video
    ensures Entries(ws)[k].flags != AviifKeyframe ==> Entries(ws)[k].flags == 0
  {
    EntryAt(ws, k);
    NoVideoBefore(ws[..k]);
    assert forall i :: 0 <= i < k ==> ws[..k][i] == ws[i];
  }

  /** Sizes and offsets of an index with one entry per chunk, when each
      video chunk of `ws` is `n` bytes long and `n` is a multiple of 4:
      three frames of 320x240x3 bytes give entries 4, 230412 and 460820. */
  lemma ThreeDibFrames(p: seq<Byte>)
    requires |p| == 320 * 240 * 3
    ensures var ws := [DataChunk(true, p), DataChunk(true, p), DataChunk(true, p)];
      Entries(ws) == [
        IndexEntry(VideoId, AviifKeyframe, 4, 230400),
        IndexEntry(VideoId, 0, 230412, 230400),
        IndexEntry(VideoId, 0, 460820, 230400)] &&
      VideoCount(ws) == 3
  {
    var c := DataChunk(true, p);
    assert Padded(p) == p;
    var ws := [c, c, c];
    assert [c][..0] == [] && [c, c][..1] == [c] && ws[..2] == [c, c];
    assert VideoCount([c]) == 1 && VideoCount([c, c]) == 2 && VideoCount(ws) == 3;
    assert MoviBody([c]) == DataChunkBytes(c);
    assert |MoviBody([c, c])| == 2 * 230408;
    assert Entries([c]) == [IndexEntry(VideoId, AviifKeyframe, 4, 230400)];
    assert Entries([c, c]) == Entries([c]) + [IndexEntry(VideoId, 0, 230412, 230400)];
    assert Entries(ws) == Entries([c, c]) + [IndexEntry(VideoId, 0, 460820, 230400)];
  }
}
