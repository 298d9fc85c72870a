/**
 * The AVI writer session: an output file being built in one pass, the
 * settings the caller supplies, and the bookkeeping (frame count, audio
 * total, index entries) needed to backpatch sizes and headers on close.
 *
 * The writer keeps the invariant `Valid()`: while open, the file is the
 * opened header region followed by the data chunks written so far; once
 * closed, it is the finished RIFF file; the index list is always the index
 * of the chunks written so far.
 */
module Avi {
  import opened Bytes
  import opened JavaErrors
  import opened IO
  import opened Riff
  import opened AviLayout

  /** A Java `byte[]`: its length is an `int`. */
  type JavaArray = s: seq<Byte> | |s| < 0x8000_0000

  datatype Option<T> = None | Some(value: T)

  /** `AVIMAINHEADER`, as filled in on close (`dwMicroSecPerFrame` aside). */
  datatype MainHeader = MainHeader(
    dwMaxBytesPerSec: int, dwPaddingGranularity: int, dwFlags: int, dwTotalFrames: int,
    dwInitialFrames: int, dwStreams: int, dwSuggestedBufferSize: int, dwWidth: int, dwHeight: int)

  /** `AVISTREAMHEADER`. */
  datatype StreamHeader = StreamHeader(
    fccType: FourCC, fccHandler: FourCC, dwFlags: int, wPriority: int, wLanguage: int,
    dwInitialFrames: int, dwScale: int, dwRate: int, dwStart: int, dwLength: int,
    dwSuggestedBufferSize: int, dwQuality: int, dwSampleSize: int,
    left: int, top: int, right: int, bottom: int)

  /** `BITMAPINFOHEADER`. */
  datatype BitmapInfo = BitmapInfo(
    biWidth: int, biHeight: int, biBitCount: int, biCompression: FourCC, biSizeImage: int,
    biXPelsPerMeter: int, biYPelsPerMeter: int, biClrUsed: int, biClrImportant: int)

  /** `WAVEFORMATEX`. */
  datatype WaveFormat = WaveFormat(
    wFormatTag: int, nChannels: int, nSamplesPerSec: int, nAvgBytesPerSec: int,
    nBlockAlign: int, wBitsPerSample: int)

  const ClosedMessage: string := "Avi file is closed"
  const FrameSizeMessage: string := "Frame data size is not consistent"
  const FrameRateUnsetMessage: string := "Must set frames/second before closing avi"
  const SampleRateUnsetMessage: string := "Must set samples/second before closing avi"

  /** `AVIF_HASINDEX`. */
  const AvifHasIndex: int := 0x10
  /** `BI_RGB` (0), uncompressed DIB, as a 4-byte field. */
  const BiRgb: FourCC := [0, 0, 0, 0]
  /** `WAVE_FORMAT_PCM`. */
  const WaveFormatPcm: int := 1
  /** `m_iBytesPerSample`. */
  const BytesPerSample: int := 2

  // ---------------------------------------------------------------------
  // Header values filled in on close
  // ---------------------------------------------------------------------

  function ClosedMainHeader(frameCount: nat, channels: int, width: Int32, height: Int32): MainHeader
  {
    MainHeader(0, 0, AvifHasIndex, Int32Of(frameCount), 0, if channels > 0 then 2 else 1, 0, width, height)
  }

  function ClosedVideoHeader(mjpg: bool, frames: Int32, perSecond: Int32, frameCount: nat): StreamHeader
  {
    StreamHeader(Code("vids"), if mjpg then Code("MJPG") else Code("DIB "), 0, 0, 0, 0,
      perSecond, frames, 0, Int32Of(frameCount), 0, -1, 0, 0, 0, 0, 0)
  }

  function ClosedBitmapInfo(mjpg: bool, width: Int32, height: Int32): BitmapInfo
  {
    BitmapInfo(width, height, 24, if mjpg then Code("MJPG") else BiRgb, 0, 0, 0, 0, 0)
  }

  function ClosedAudioHeader(channels: int, samplesPerSecond: Int32, audioBytes: nat): StreamHeader
    requires channels > 0
  {
    StreamHeader(Code("auds"), [0, 0, 0, 0], 0, 0, 0, 0,
      1, samplesPerSecond, 0, SaturatedInt32(audioBytes / (BytesPerSample * channels)), 0, -1, 0, 0, 0, 0, 0)
  }

  function ClosedWaveFormat(channels: int, samplesPerSecond: Int32): WaveFormat
  {
    WaveFormat(WaveFormatPcm, channels, samplesPerSecond,
      Int32Of(BytesPerSample * samplesPerSecond * channels), BytesPerSample * channels, BytesPerSample * 8)
  }

  /** The headers filled in on close agree with each other: the frame
      total in the main header is the video stream's length, the stream
      count matches the streams present, the bitmap has the main header's
      dimensions and the stream handler's compression, and the audio stream
      and its wave format describe 16-bit PCM at the same sample rate. */
  lemma ClosedHeadersAgree(mjpg: bool, channels: int, width: Int32, height: Int32, frames: Int32,
      perSecond: Int32, samplesPerSecond: Int32, frameCount: nat, audioBytes: nat)
    ensures var m, v, b := ClosedMainHeader(frameCount, channels, width, height),
      ClosedVideoHeader(mjpg, frames, perSecond, frameCount), ClosedBitmapInfo(mjpg, width, height);
      m.dwTotalFrames == v.dwLength == Int32Of(frameCount)
      && m.dwFlags == AvifHasIndex
      && m.dwStreams == (if channels > 0 then 2 else 1)
      && b.biWidth == m.dwWidth == width && b.biHeight == m.dwHeight == height
      && v.dwRate == frames && v.dwScale == perSecond
      && (mjpg ==> v.fccHandler == b.biCompression == Code("MJPG"))
      && (!mjpg ==> v.fccHandler == Code("DIB ") && b.biCompression == BiRgb)
    ensures channels > 0 ==>
      var a, w := ClosedAudioHeader(channels, samplesPerSecond, audioBytes),
        ClosedWaveFormat(channels, samplesPerSecond);
      a.dwRate == w.nSamplesPerSec == samplesPerSecond && a.dwScale == 1
      && w.wBitsPerSample == 8 * BytesPerSample && w.nBlockAlign == BytesPerSample * w.nChannels
      && w.nAvgBytesPerSec == Int32Of(w.nSamplesPerSec * w.nBlockAlign)
  {
    if channels > 0 {
      assert BytesPerSample * samplesPerSecond * channels == samplesPerSecond * (BytesPerSample * channels);
    }
  }

  /** The audio stream's length is the number of whole sample frames
      (`2·channels` bytes each) written, held at the largest `int` once
      there are 2^31 of them or more, as the `(int)` cast of the `double`
      sample count does. */
  lemma AudioLengthIsSampleFrames(channels: int, samplesPerSecond: Int32, audioBytes: nat)
    requires channels > 0
    ensures var a, k := ClosedAudioHeader(channels, samplesPerSecond, audioBytes), BytesPerSample * channels;
      (audioBytes < k * 0x8000_0000 ==> 0 <= a.dwLength && a.dwLength * k <= audioBytes < (a.dwLength + 1) * k)
      && (audioBytes >= k * 0x8000_0000 ==> a.dwLength == 0x7FFF_FFFF)
  {
    var k := BytesPerSample * channels;
    var n := audioBytes / k;
    assert n * k <= audioBytes < (n + 1) * k;
  }

  // ---------------------------------------------------------------------
  // Writing to the file
  // ---------------------------------------------------------------------

  /** The padding loop: writes `n` zero bytes one at a time. */
  method WriteZeros(f: OutFile, n: nat)
    requires f.Valid() && f.fp == |f.bytes|
    modifies f
    ensures f.Valid() && f.fp == |f.bytes|
    ensures f.bytes == old(f.bytes) + Zeros(n)
  {
    var remaint := n;
    while remaint > 0
      invariant 0 <= remaint <= n
      invariant f.Valid() && f.fp == |f.bytes|
      invariant f.bytes == old(f.bytes) + Zeros(n - remaint)
    {
      f.Write([0]);
      assert Zeros(n - remaint) + [0] == Zeros(n - (remaint - 1));
      remaint := remaint - 1;
    }
  }

  /** A chunk around a zeroed record placeholder, as `strf` is written
      around the format record; returns where the placeholder was made. */
  method WriteRecordChunk(f: OutFile, name: FourCC, n: nat) returns (at: nat)
    requires f.Valid() && f.fp == |f.bytes|
    modifies f
    ensures f.Valid() && f.fp == |f.bytes|
    ensures f.bytes == old(f.bytes) + ChunkBytes(name, Zeros(n))
    ensures at == |old(f.bytes)| + 8
  {
    ghost var s0 := f.bytes;
    var c := NewChunk(f, name);
    at := f.fp;
    f.Write(Zeros(n));
    var _ := EndChunk(f, c);
    EndChunkCloses(s0, name, Zeros(n), s0 + name + Zeros(4) + Zeros(n));
  }

  /** A `LIST 'strl'` with a stream header placeholder and a `strf` chunk
      around a format record placeholder, as the constructor writes it;
      returns where the two placeholders were made. */
  method WriteStreamList(f: OutFile, headerLen: nat, formatLen: nat) returns (headerAt: nat, formatAt: nat)
    requires f.Valid() && f.fp == |f.bytes|
    modifies f
    ensures f.Valid() && f.fp == |f.bytes|
    ensures f.bytes == old(f.bytes) + StreamList(headerLen, formatLen)
    ensures headerAt == |old(f.bytes)| + 12 && formatAt == headerAt + headerLen + 8
  {
    ghost var s0 := f.bytes;
    var strl := NewList(f, ListId, StrlId);
    headerAt := f.fp;
    f.Write(Zeros(headerLen));
    formatAt := WriteRecordChunk(f, StrfId, formatLen);
    ghost var children := Zeros(headerLen) + ChunkBytes(StrfId, Zeros(formatLen));
    ConcatAssoc(s0 + ListId + Zeros(4) + StrlId, Zeros(headerLen), ChunkBytes(StrfId, Zeros(formatLen)));
    ConcatAssoc(s0 + ListId + Zeros(4), StrlId, children);
    var _ := EndChunk(f, strl);
    EndChunkCloses(s0, ListId, StrlId + children, s0 + ListId + Zeros(4) + (StrlId + children));
  }

  /** The `LIST 'hdrl'`: the main header placeholder, the video stream
      list, and the audio stream list only when there is audio (its
      placeholders are then left at 0). */
  method WriteHdrl(f: OutFile, sizes: RecordSizes, channels: int)
    returns (avihAt: nat, strhVidAt: nat, bifAt: nat, strhAudAt: nat, wavfmtAt: nat)
    requires f.Valid() && f.fp == |f.bytes|
    modifies f
    ensures f.Valid() && f.fp == |f.bytes|
    ensures f.bytes == old(f.bytes) + HdrlBytes(sizes, channels)
    ensures avihAt == |old(f.bytes)| + 12 && strhVidAt == avihAt + sizes.mainHeader + 12
    ensures bifAt == strhVidAt + sizes.streamHeader + 8
    ensures channels > 0 ==> strhAudAt == bifAt + sizes.bitmapInfo + 12 && wavfmtAt == strhAudAt + sizes.streamHeader + 8
  {
    ghost var pre := f.bytes;
    var hdrl := NewList(f, ListId, HdrlId);
    avihAt := f.fp;
    f.Write(Zeros(sizes.mainHeader));
    strhVidAt, bifAt := WriteStreamList(f, sizes.streamHeader, sizes.bitmapInfo);
    strhAudAt, wavfmtAt := 0, 0;
    ghost var s1 := f.bytes;
    if channels > 0 {
      strhAudAt, wavfmtAt := WriteStreamList(f, sizes.streamHeader, sizes.waveFormat);
    } else {
      assert f.bytes == s1 + [];
    }
    ghost var children := Zeros(sizes.mainHeader) + StreamList(sizes.streamHeader, sizes.bitmapInfo)
      + AudioStreamList(sizes, channels);
    ConcatAssoc(pre + ListId + Zeros(4) + HdrlId,
      Zeros(sizes.mainHeader) + StreamList(sizes.streamHeader, sizes.bitmapInfo), AudioStreamList(sizes, channels));
    ConcatAssoc(pre + ListId + Zeros(4) + HdrlId, Zeros(sizes.mainHeader), StreamList(sizes.streamHeader, sizes.bitmapInfo));
    ConcatAssoc(pre + ListId + Zeros(4), HdrlId, children);
    var _ := EndChunk(f, hdrl);
    EndChunkCloses(pre, ListId, HdrlId + children, pre + ListId + Zeros(4) + (HdrlId + children));
  }

  /** The header region the constructor writes into the empty file: the
      RIFF header, the `hdrl` list, and the opened `movi` list. */
  method WriteHeaderRegion(f: OutFile, sizes: RecordSizes, channels: int)
    returns (riff: Chunk, movi: Chunk, avihAt: nat, strhVidAt: nat, bifAt: nat, strhAudAt: nat, wavfmtAt: nat)
    requires f.Valid() && f.bytes == [] && f.fp == 0
    modifies f
    ensures f.Valid() && f.fp == |f.bytes|
    ensures f.bytes == OpenedBytes(sizes, channels)
    ensures riff == Chunk(4) && movi.pos + 8 == |f.bytes|
    ensures avihAt == MainHeaderOffset() && strhVidAt == VideoHeaderOffset(sizes) && bifAt == BitmapInfoOffset(sizes)
    ensures channels > 0 ==> strhAudAt == AudioHeaderOffset(sizes) && wavfmtAt == WaveFormatOffset(sizes)
  {
    riff := NewList(f, RiffId, AviId);
    ghost var pre := f.bytes;
    assert pre == RiffId + Zeros(4) + AviId;
    avihAt, strhVidAt, bifAt, strhAudAt, wavfmtAt := WriteHdrl(f, sizes, channels);
    movi := NewList(f, ListId, MoviId);
    assert pre + HdrlBytes(sizes, channels) + ListId + Zeros(4) + MoviId
      == pre + HdrlBytes(sizes, channels) + (ListId + Zeros(4) + MoviId);
  }

  /** The end of a data chunk: the padding loop, then `endChunk`, whose
      size is returned. */
  method PadAndEndChunk(f: OutFile, c: Chunk, remaint: nat, ghost pre: seq<Byte>, ghost name: FourCC,
                        ghost payload: seq<Byte>) returns (size: int)
    requires f.Valid() && f.fp == |f.bytes| && f.bytes == pre + name + Zeros(4) + payload
    requires c.pos == |pre| + 4 && remaint == PadLength(|payload|)
    modifies f
    ensures f.Valid() && f.fp == |f.bytes|
    ensures f.bytes == pre + ChunkBytes(name, Padded(payload))
    ensures size == |Padded(payload)|
  {
    WriteZeros(f, remaint);
    assert pre + name + Zeros(4) + payload + Zeros(remaint) == pre + name + Zeros(4) + (payload + Zeros(remaint));
    size := EndChunk(f, c);
    EndChunkCloses(pre, name, Padded(payload), pre + name + Zeros(4) + Padded(payload));
  }

  /** One data chunk of `writeStreamDataChunk`: the name and a size
      placeholder, the payload, its zero padding, and the backpatched size,
      which is returned. */
  method WriteDataChunk(f: OutFile, name: FourCC, data: seq<Byte>) returns (size: int)
    requires f.Valid() && f.fp == |f.bytes|
    modifies f
    ensures f.Valid() && f.fp == |f.bytes|
    ensures f.bytes == old(f.bytes) + ChunkBytes(name, Padded(data))
    ensures size == |Padded(data)|
  {
    ghost var s0 := f.bytes;
    var c := NewChunk(f, name);
    var remaint := (4 - |data| % 4) % 4;
    f.Write(data);
    size := PadAndEndChunk(f, c, remaint, s0, name, data);
  }

  /** The bytes an audio stream yields: its blocks up to the first empty
      one (a read that returned no data ends the copy loop). */
  function Streamed(blocks: seq<seq<Byte>>): seq<Byte>
  {
    if blocks == [] || blocks[0] == [] then [] else blocks[0] + Streamed(blocks[1..])
  }

  /** The copy loop of `writeAudio(AudioInputStream)`: writes each block
      read until a read returns no data. */
  method CopyBlocks(f: OutFile, blocks: seq<seq<Byte>>) returns (copied: nat)
    requires f.Valid() && f.fp == |f.bytes|
    modifies f
    ensures f.Valid() && f.fp == |f.bytes|
    ensures f.bytes == old(f.bytes) + Streamed(blocks) && copied == |Streamed(blocks)|
  {
    ghost var s0 := f.bytes;
    var k := 0;
    copied := 0;
    while k < |blocks| && |blocks[k]| > 0
      invariant 0 <= k <= |blocks|
      invariant f.Valid() && f.fp == |f.bytes|
      invariant f.bytes + Streamed(blocks[k..]) == s0 + Streamed(blocks)
      invariant copied + |Streamed(blocks[k..])| == |Streamed(blocks)|
    {
      copied := copied + |blocks[k]|;
      f.Write(blocks[k]);
      assert blocks[k..][1..] == blocks[k + 1..];
      k := k + 1;
    }
    assert Streamed(blocks[k..]) == [];
  }

  /** The data chunk of `writeAudio(AudioInputStream)`: the stream is copied
      block by block, then padded by the distance from the size field. */
  method WriteStreamChunk(f: OutFile, name: FourCC, blocks: seq<seq<Byte>>) returns (size: int, copied: nat)
    requires f.Valid() && f.fp == |f.bytes|
    modifies f
    ensures f.Valid() && f.fp == |f.bytes|
    ensures f.bytes == old(f.bytes) + ChunkBytes(name, Padded(Streamed(blocks)))
    ensures size == |Padded(Streamed(blocks))| && copied == |Streamed(blocks)|
  {
    ghost var s0 := f.bytes;
    ghost var streamed := Streamed(blocks);
    var c := NewChunk(f, name);
    ghost var s1 := f.bytes;
    copied := CopyBlocks(f, blocks);
    var remaint := (4 - ((f.fp - (c.pos + 4)) % 4)) % 4;
    size := PadAndEndChunk(f, c, remaint, s0, name, streamed);
  }

  /** `LIST_movi.endChunk`: backpatches the movi list's size. */
  method EndMovi(f: OutFile, movi: Chunk, ghost pre: seq<Byte>, ghost body: seq<Byte>)
    requires f.Valid() && f.fp == |f.bytes| && f.bytes == pre + MoviListHead() + body
    requires movi.pos == |pre| + 4
    modifies f
    ensures f.Valid() && f.fp == |f.bytes|
    ensures f.bytes == pre + ListBytes(ListId, MoviId, body)
  {
    ghost var s0 := f.bytes;
    var _ := EndChunk(f, movi);
    EndInnerList(pre, ListId, MoviId, body, s0);
  }

  /** `RIFF_chunk.endChunk`: backpatches the RIFF chunk's size. */
  method EndRiff(f: OutFile, riff: Chunk, ghost hdrl: seq<Byte>, ghost lb: seq<Byte>, ghost idx: seq<Byte>)
    requires f.Valid() && f.fp == |f.bytes| && f.bytes == RiffId + Zeros(4) + AviId + hdrl + lb + idx
    requires riff == Chunk(4)
    modifies f
    ensures f.Valid() && f.fp == |f.bytes|
    ensures f.bytes == ListBytes(RiffId, AviId, hdrl + lb + idx)
  {
    ghost var s2 := f.bytes;
    var _ := EndChunk(f, riff);
    EndOuterList(RiffId, AviId, hdrl, lb, idx, s2);
  }

  /** The file part of `close`: ends the movi list, appends the index chunk
      and ends the RIFF chunk, turning the opened file and its movi body
      into the finished file. */
  method EndFile(f: OutFile, sizes: RecordSizes, channels: int, riff: Chunk, movi: Chunk,
                 ghost body: seq<Byte>, idx: seq<Byte>)
    requires f.Valid() && f.fp == |f.bytes|
    requires riff == Chunk(4) && movi.pos + 8 == |OpenedBytes(sizes, channels)|
    requires f.bytes == OpenedBytes(sizes, channels) + body
    modifies f
    ensures f.Valid() && f.fp == |f.bytes|
    ensures f.bytes == ListBytes(RiffId, AviId, HdrlBytes(sizes, channels) + ListBytes(ListId, MoviId, body) + idx)
  {
    ghost var hdrl := HdrlBytes(sizes, channels);
    ghost var pre := RiffId + Zeros(4) + AviId + hdrl;
    EndMovi(f, movi, pre, body);
    f.Write(idx);
    EndRiff(f, riff, hdrl, ListBytes(ListId, MoviId, body), idx);
  }

  /** Every video chunk among `ws` has a payload of `n` bytes. */
  ghost predicate FramesOfSize(ws: seq<DataChunk>, n: int)
  {
    forall i :: 0 <= i < |ws| && ws[i].video ==> |ws[i].payload| == n
  }

  lemma FramesOfSizeAppend(ws: seq<DataChunk>, c: DataChunk, n: int)
    requires FramesOfSize(ws, n) && (c.video ==> |c.payload| == n)
    ensures FramesOfSize(ws + [c], n)
  {
    assert forall i :: 0 <= i < |ws| ==> (ws + [c])[i] == ws[i];
  }

  // ---------------------------------------------------------------------
  // The writer
  // ---------------------------------------------------------------------

  class AviWriter {
    /** `m_blnMJPG`: MJPG frames if true, uncompressed DIB frames otherwise. */
    const mjpg: bool
    /** `m_iChannels`: 0 for no audio, 1 for mono, 2 for stereo. */
    const channels: int
    /** The lengths of the header record placeholders. */
    const sizes: RecordSizes
    /** `raFile`. */
    const file: OutFile
    /** `RIFF_chunk` and `LIST_movi`. */
    const riffChunk: Chunk
    const moviChunk: Chunk
    /** Where the placeholders of `avih`, `strh_vid`, `bif`, `strh_aud` and
        `wavfmt` were made. */
    const avihAt: nat
    const strhVidAt: nat
    const bifAt: nat
    const strhAudAt: nat
    const wavfmtAt: nat

    var width: Int32
    var height: Int32
    var frames: Int32
    var perSecond: Int32
    /** `m_iFrameByteSize`: the DIB frame size fixed by the first frame. */
    var frameByteSize: Int32
    var samplesPerSecond: Int32
    /** `m_iFrameCount`. */
    var frameCount: nat
    /** The audio bytes written (the sample total times 2·channels). */
    var audioBytes: nat
    /** `raFile != null`. */
    var isOpen: bool
    /** `indexList`. */
    var indexList: seq<IndexEntry>
    /** The header record values, once close has filled them in. */
    var avih: Option<MainHeader>
    var strhVid: Option<StreamHeader>
    var bif: Option<BitmapInfo>
    var strhAud: Option<StreamHeader>
    var wavfmt: Option<WaveFormat>

    /** The data chunks written so far, in order. */
    ghost var Written: seq<DataChunk>

    /** The opened header region. */
    ghost const Header: seq<Byte>

    /** Where the header region put its chunks and record placeholders. */
    ghost predicate HeaderPlaced()
    {
      Header == OpenedBytes(sizes, channels) && riffChunk == Chunk(4) &&
      avihAt == MainHeaderOffset() && strhVidAt == VideoHeaderOffset(sizes) && bifAt == BitmapInfoOffset(sizes) &&
      (channels > 0 ==> strhAudAt == AudioHeaderOffset(sizes) && wavfmtAt == WaveFormatOffset(sizes))
    }

    /** In DIB mode every frame written has the size the first one fixed;
        MJPG mode never fixes one. */
    ghost predicate FramesUniform()
      reads this`frameByteSize, this`Written
    {
      (mjpg ==> frameByteSize == -1) && (!mjpg ==> FramesOfSize(Written, frameByteSize))
    }

    /** The index list, frame count and audio total describe the chunks written. */
    ghost predicate Indexed()
      reads this`Written, this`indexList, this`frameCount, this`audioBytes
    {
      indexList == Entries(Written) &&
      frameCount == VideoCount(Written) &&
      audioBytes == AudioBytes(Written)
    }

    /** While open, the file is the header region followed by the chunks written. */
    ghost predicate Contents()
      reads this`isOpen, this`Written, file
    {
      file.Valid() && file.fp == |file.bytes| &&
      (isOpen ==> file.bytes == Header + MoviBody(Written))
    }

    ghost predicate Valid()
      reads this, file
    {
      0 <= channels <= 2 && moviChunk.pos + 8 == |Header| &&
      Indexed() && FramesUniform() && Contents()
    }

    /** The invariant holds again once chunk `c` has been written after the
        chunks written before, recorded in the index and counted. */
    twostate lemma ChunkAppendedValid(c: DataChunk)
      requires old(Valid()) && old(isOpen) && isOpen
      requires Written == old(Written) + [c]
      requires indexList == old(indexList) + [EntryFor(old(Written), c)]
      requires frameCount == old(frameCount) + (if c.video then 1 else 0)
      requires audioBytes == old(audioBytes) + (if c.video then 0 else |c.payload|)
      requires frameByteSize == old(frameByteSize)
      requires c.video && !mjpg ==> |c.payload| == frameByteSize
      requires file.Valid() && file.fp == |file.bytes| && file.bytes == old(file.bytes) + DataChunkBytes(c)
      ensures Valid()
    {
      AppendChunk(old(Written), c);
      ConcatAssoc(Header, MoviBody(old(Written)), DataChunkBytes(c));
      if !mjpg {
        FramesOfSizeAppend(old(Written), c, frameByteSize);
      }
    }

    /** The constructor after its argument checks: writes the header region
        and opens the `movi` list; nothing is configured yet. */
    constructor Create(mjpg: bool, channels: Int32, sizes: RecordSizes)
      requires 0 <= channels <= 2
      ensures Valid() && HeaderPlaced() && isOpen && fresh(file)
      ensures this.mjpg == mjpg && this.channels == channels && this.sizes == sizes
      ensures Written == [] && indexList == [] && frameCount == 0 && audioBytes == 0
      ensures file.bytes == OpenedBytes(sizes, channels)
      ensures width == -1 && height == -1 && frames == -1 && perSecond == -1
      ensures frameByteSize == -1 && samplesPerSecond == -1
      ensures avih == None && strhVid == None && bif == None && strhAud == None && wavfmt == None
    {
      var f := new OutFile();
      var riff, movi, a, sv, b, sa, w := WriteHeaderRegion(f, sizes, channels);
      this.mjpg := mjpg;
      this.channels := channels;
      this.sizes := sizes;
      Header := OpenedBytes(sizes, channels);
      file := f;
      riffChunk, moviChunk := riff, movi;
      avihAt, strhVidAt, bifAt, strhAudAt, wavfmtAt := a, sv, b, sa, w;
      width, height, frames, perSecond := -1, -1, -1, -1;
      frameByteSize, samplesPerSecond := -1, -1;
      frameCount, audioBytes := 0, 0;
      isOpen := true;
      indexList := [];
      avih, strhVid, bif, strhAud, wavfmt := None, None, None, None, None;
      Written := [];
    }

    /** `AVIWriter(file, blnMJPG, iAudChannels)`: rejects a channel count
        outside 0..2, and MJPG when the platform cannot encode JPEG, before
        the file is touched; otherwise opens the writer. */
    static method Open(canEncodeJpg: bool, mjpg: bool, channels: Int32, sizes: RecordSizes)
      returns (r: Result<AviWriter>)
      ensures (channels < 0 || channels > 2) <==> r == Err(IllegalArgumentException("Channels must be 0, 1 or 2"))
      ensures 0 <= channels <= 2 && mjpg && !canEncodeJpg <==>
        r == Err(UnsupportedOperationException("Unable to encode 'jpeg' on this platform."))
      ensures r.Ok? <==> 0 <= channels <= 2 && (mjpg ==> canEncodeJpg)
      ensures r.Ok? ==>
        var w := r.value;
        fresh(w) && fresh(w.file) && w.Valid() && w.HeaderPlaced() && w.isOpen &&
        w.mjpg == mjpg && w.channels == channels && w.sizes == sizes &&
        w.Written == [] && w.indexList == [] && w.frameCount == 0 && w.audioBytes == 0 &&
        w.file.bytes == OpenedBytes(sizes, channels) &&
        w.width == -1 && w.height == -1 && w.frames == -1 && w.perSecond == -1 &&
        w.frameByteSize == -1 && w.samplesPerSecond == -1 &&
        w.avih == None && w.strhVid == None && w.bif == None && w.strhAud == None && w.wavfmt == None
    {
      if channels < 0 || channels > 2 {
        return Err(IllegalArgumentException("Channels must be 0, 1 or 2"));
      }
      if mjpg && !canEncodeJpg {
        return Err(UnsupportedOperationException("Unable to encode 'jpeg' on this platform."));
      }
      var w := new AviWriter.Create(mjpg, channels, sizes);
      r := Ok(w);
    }

    // -------------------------------------------------------------------
    // Settings
    // -------------------------------------------------------------------

    method SetSamplesPerSecond(i: Int32) returns (r: Outcome)
      requires Valid()
      modifies this`samplesPerSecond
      ensures Valid()
      ensures i < 1 <==> r == Fail(IllegalArgumentException("Samples/Second must be greater than 0"))
      ensures r.Pass? <==> i >= 1
      ensures samplesPerSecond == if i < 1 then old(samplesPerSecond) else i
    {
      if i < 1 {
        return Fail(IllegalArgumentException("Samples/Second must be greater than 0"));
      }
      samplesPerSecond := i;
      r := Pass;
    }

    /** The frame rate as the fraction `i / j` frames per second. */
    method SetFramesPerSecond(i: Int32, j: Int32) returns (r: Outcome)
      requires Valid()
      modifies this`frames, this`perSecond
      ensures Valid()
      ensures (i < 1 || j < 1) <==> r == Fail(IllegalArgumentException("frames/sec must be greater than 0"))
      ensures r.Pass? <==> i >= 1 && j >= 1
      ensures r.Pass? ==> frames == i && perSecond == j
      ensures r.Fail? ==> frames == old(frames) && perSecond == old(perSecond)
    {
      if i < 1 || j < 1 {
        return Fail(IllegalArgumentException("frames/sec must be greater than 0"));
      }
      frames := i;
      perSecond := j;
      r := Pass;
    }

    /** Width and height may each be set once. The width is set before the
        height is checked, so a call that finds the width unset and the
        height set sets the width and then fails. */
    method SetDimensions(i: Int32, j: Int32) returns (r: Outcome)
      requires Valid()
      modifies this`width, this`height
      ensures Valid()
      ensures (i < 1 || j < 1) ==>
        r == Fail(IllegalArgumentException("Dimensions must be greater than 0")) &&
        width == old(width) && height == old(height)
      ensures i >= 1 && j >= 1 && old(width) >= 0 ==>
        r == Fail(IllegalArgumentException("Width has already been set.")) && width == old(width) && height == old(height)
      ensures i >= 1 && j >= 1 && old(width) < 0 && old(height) >= 0 ==>
        r == Fail(IllegalArgumentException("Height has already been set.")) && width == i && height == old(height)
      ensures r == Pass <==> i >= 1 && j >= 1 && old(width) < 0 && old(height) < 0
      ensures r == Pass ==> width == i && height == j
    {
      if i < 1 || j < 1 {
        return Fail(IllegalArgumentException("Dimensions must be greater than 0"));
      }
      if width < 0 {
        width := i;
      } else {
        return Fail(IllegalArgumentException("Width has already been set."));
      }
      if height < 0 {
        height := j;
      } else {
        return Fail(IllegalArgumentException("Height has already been set."));
      }
      r := Pass;
    }

    // -------------------------------------------------------------------
    // Writing data
    // -------------------------------------------------------------------

    /** `writeStreamDataChunk`: records the index entry's offset (the file
        position less the movi size field's offset and 4), picks the chunk
        name and flags (the key-frame flag while no frame has been counted),
        writes the padded chunk and appends the index entry with the chunk
        size. */
    method WriteStreamDataChunk(data: JavaArray, video: bool)
      requires Valid() && isOpen
      requires video && !mjpg ==> |data| == frameByteSize
      modifies this`frameCount, this`audioBytes, this`indexList, this`Written, file
      ensures Valid() && isOpen
      ensures Written == old(Written) + [DataChunk(video, data)]
      ensures indexList == old(indexList) + [EntryFor(old(Written), DataChunk(video, data))]
      ensures frameCount == old(frameCount) + (if video then 1 else 0)
      ensures audioBytes == old(audioBytes) + (if video then 0 else |data|)
      ensures file.bytes == old(file.bytes) + DataChunkBytes(DataChunk(video, data))
    {
      ghost var ws, c := Written, DataChunk(video, data);
      var offset := Int32Of(file.fp - (moviChunk.pos + 4));
      assert offset == Int32Of(4 + MoviLength(ws));
      var id, flags;
      if video {
        id := VideoId;
        flags := if frameCount == 0 then AviifKeyframe else 0;
        frameCount := frameCount + 1;
      } else {
        id := AudioId;
        flags := 0;
        audioBytes := audioBytes + |data|;
      }
      var size := WriteDataChunk(file, id, data);
      indexList := indexList + [IndexEntry(id, flags, offset, Int32Of(size))];
      Written := ws + [c];
      ChunkAppendedValid(c);
    }

    /** `writeFrame(byte[])`: in DIB mode the first frame fixes the frame
        size and a frame of another size is rejected before anything is
        written; MJPG frames are not checked. */
    method WriteFrame(data: JavaArray) returns (r: Outcome)
      requires Valid()
      modifies this`frameByteSize, this`frameCount, this`audioBytes, this`indexList, this`Written, file
      ensures Valid()
      ensures !old(isOpen) ==> r == Fail(IOException(ClosedMessage))
      ensures old(isOpen) && !mjpg && old(frameByteSize) >= 0 && old(frameByteSize) != |data| ==>
        r == Fail(IllegalArgumentException(FrameSizeMessage))
      ensures r.Fail? ==> unchanged(this) && unchanged(file)
      ensures r.Pass? <==> old(isOpen) && (mjpg || old(frameByteSize) < 0 || old(frameByteSize) == |data|)
      ensures r.Pass? ==>
        Written == old(Written) + [DataChunk(true, data)] &&
        indexList == old(indexList) + [EntryFor(old(Written), DataChunk(true, data))] &&
        frameCount == old(frameCount) + 1 &&
        frameByteSize == (if mjpg then -1 else |data|) &&
        file.bytes == old(file.bytes) + DataChunkBytes(DataChunk(true, data))
    {
      if !isOpen {
        return Fail(IOException(ClosedMessage));
      }
      if !mjpg {
        if frameByteSize < 0 {
          frameByteSize := |data|;
        } else if frameByteSize != |data| {
          return Fail(IllegalArgumentException(FrameSizeMessage));
        }
      }
      WriteStreamDataChunk(data, true);
      r := Pass;
    }

    /** `writeAudio(byte[])`: appends one `01wb` chunk. */
    method WriteAudio(data: JavaArray) returns (r: Outcome)
      requires Valid()
      modifies this`frameCount, this`audioBytes, this`indexList, this`Written, file
      ensures Valid()
      ensures !old(isOpen) <==> r == Fail(IOException(ClosedMessage))
      ensures r.Pass? <==> old(isOpen)
      ensures r.Fail? ==> unchanged(this) && unchanged(file)
      ensures r.Pass? ==>
        Written == old(Written) + [DataChunk(false, data)] &&
        indexList == old(indexList) + [EntryFor(old(Written), DataChunk(false, data))] &&
        audioBytes == old(audioBytes) + |data| && frameCount == old(frameCount) &&
        file.bytes == old(file.bytes) + DataChunkBytes(DataChunk(false, data))
    {
      if !isOpen {
        return Fail(IOException(ClosedMessage));
      }
      WriteStreamDataChunk(data, false);
      r := Pass;
    }

    /** The copy of `writeAudio(AudioInputStream)` once the format checks
        pass: one `01wb` chunk holding the stream, with its index entry. */
    method WriteAudioChunk(blocks: seq<seq<Byte>>)
      requires Valid() && isOpen
      modifies this`audioBytes, this`indexList, this`Written, file
      ensures Valid() && isOpen
      ensures Written == old(Written) + [DataChunk(false, Streamed(blocks))]
      ensures indexList == old(indexList) + [EntryFor(old(Written), DataChunk(false, Streamed(blocks)))]
      ensures audioBytes == old(audioBytes) + |Streamed(blocks)|
      ensures file.bytes == old(file.bytes) + DataChunkBytes(DataChunk(false, Streamed(blocks)))
    {
      ghost var c := DataChunk(false, Streamed(blocks));
      var offset := Int32Of(file.fp - (moviChunk.pos + 4));
      assert offset == Int32Of(4 + MoviLength(Written));
      var size, copied := WriteStreamChunk(file, AudioId, blocks);
      audioBytes := audioBytes + copied;
      indexList := indexList + [IndexEntry(AudioId, 0, offset, Int32Of(size))];
      Written := Written + [c];
      ChunkAppendedValid(c);
    }

    /** `writeAudio(AudioInputStream)`: checks the stream's format (16-bit
        samples, the writer's channel count, and its sample rate, which is
        adopted if none was set), then copies the stream into one `01wb`
        chunk. The stream is the sequence of blocks its reads return, at
        most 1024 bytes each; it ends at the first empty block or after the
        last one. */
    method WriteAudioStream(sampleBits: Int32, fmtChannels: Int32, sampleRate: Int32, blocks: seq<seq<Byte>>)
      returns (r: Outcome)
      requires Valid()
      requires forall k :: 0 <= k < |blocks| ==> |blocks[k]| <= 1024
      modifies this`samplesPerSecond, this`audioBytes, this`indexList, this`Written, file
      ensures Valid()
      ensures !old(isOpen) ==> r == Fail(IOException(ClosedMessage))
      ensures old(isOpen) && (sampleBits != 16 || fmtChannels != channels) ==> r == Fail(IOException(""))
      ensures (old(isOpen) && sampleBits == 16 && fmtChannels == channels &&
               old(samplesPerSecond) >= 0 && old(samplesPerSecond) != sampleRate) ==>
        r == Fail(IOException(""))
      ensures r.Fail? ==> unchanged(this) && unchanged(file)
      ensures r.Pass? <==>
        old(isOpen) && sampleBits == 16 && fmtChannels == channels &&
        (old(samplesPerSecond) < 0 || old(samplesPerSecond) == sampleRate)
      ensures r.Pass? ==>
        samplesPerSecond == sampleRate &&
        Written == old(Written) + [DataChunk(false, Streamed(blocks))] &&
        indexList == old(indexList) + [EntryFor(old(Written), DataChunk(false, Streamed(blocks)))] &&
        audioBytes == old(audioBytes) + |Streamed(blocks)| &&
        file.bytes == old(file.bytes) + DataChunkBytes(DataChunk(false, Streamed(blocks)))
    {
      if !isOpen {
        return Fail(IOException(ClosedMessage));
      }
      if sampleBits != BytesPerSample * 8 {
        return Fail(IOException(""));
      }
      if channels != fmtChannels {
        return Fail(IOException(""));
      }
      if samplesPerSecond < 0 {
        samplesPerSecond := sampleRate;
      } else if samplesPerSecond != sampleRate {
        return Fail(IOException(""));
      }
      WriteAudioChunk(blocks);
      r := Pass;
    }

    // -------------------------------------------------------------------
    // Closing
    // -------------------------------------------------------------------

    /** The state `close` leaves: the file is closed and holds the finished
        RIFF file, and the header records hold the settings and counts (the
        audio records only when there is audio). */
    ghost predicate Closed()
      reads this, file
    {
      !isOpen && file.bytes == AviFileBytes(sizes, channels, Written) &&
      avih == Some(ClosedMainHeader(frameCount, channels, width, height)) &&
      strhVid == Some(ClosedVideoHeader(mjpg, frames, perSecond, frameCount)) &&
      bif == Some(ClosedBitmapInfo(mjpg, width, height)) &&
      (channels > 0 ==>
        strhAud == Some(ClosedAudioHeader(channels, samplesPerSecond, audioBytes)) &&
        wavfmt == Some(ClosedWaveFormat(channels, samplesPerSecond)))
    }

    /** The header records `close` fills in from the settings and counts;
        the audio records only when there is audio. */
    method FillHeaders()
      modifies this`avih, this`strhVid, this`bif, this`strhAud, this`wavfmt
      ensures avih == Some(ClosedMainHeader(frameCount, channels, width, height))
      ensures strhVid == Some(ClosedVideoHeader(mjpg, frames, perSecond, frameCount))
      ensures bif == Some(ClosedBitmapInfo(mjpg, width, height))
      ensures channels > 0 ==>
        strhAud == Some(ClosedAudioHeader(channels, samplesPerSecond, audioBytes)) &&
        wavfmt == Some(ClosedWaveFormat(channels, samplesPerSecond))
      ensures channels <= 0 ==> strhAud == old(strhAud) && wavfmt == old(wavfmt)
    {
      avih := Some(ClosedMainHeader(frameCount, channels, width, height));
      strhVid := Some(ClosedVideoHeader(mjpg, frames, perSecond, frameCount));
      bif := Some(ClosedBitmapInfo(mjpg, width, height));
      if channels > 0 {
        strhAud := Some(ClosedAudioHeader(channels, samplesPerSecond, audioBytes));
        wavfmt := Some(ClosedWaveFormat(channels, samplesPerSecond));
      }
    }

    /** Ends the movi list, appends the index and ends the RIFF chunk. */
    method WriteTrailer()
      requires Valid() && HeaderPlaced() && isOpen
      modifies file
      ensures file.Valid() && file.fp == |file.bytes|
      ensures file.bytes == AviFileBytes(sizes, channels, Written)
    {
      EndFile(file, sizes, channels, riffChunk, moviChunk, MoviBody(Written), Idx1Bytes(indexList));
    }

    /** What `close` does once its checks pass: ends the movi list, appends
        the index, ends the RIFF chunk, fills in the header records and
        closes the file. */
    method Finish()
      requires Valid() && HeaderPlaced() && isOpen
      modifies this`avih, this`strhVid, this`bif, this`strhAud, this`wavfmt, this`isOpen, file
      ensures Valid() && Closed()
    {
      WriteTrailer();
      FillHeaders();
      isOpen := false;
    }

    /** `close`: fails if already closed, if the frame rate is unset, or if
        there is audio and the sample rate is unset; otherwise ends the
        movi list, appends the index, ends the RIFF chunk, fills in the
        header records, and closes the file, after which every write and
        close fails. */
    method Close() returns (r: Outcome)
      requires Valid() && HeaderPlaced()
      modifies this`avih, this`strhVid, this`bif, this`strhAud, this`wavfmt, this`isOpen, file
      ensures Valid()
      ensures !old(isOpen) ==> r == Fail(IOException(ClosedMessage))
      ensures old(isOpen && (frames < 1 || perSecond < 1)) ==>
        r == Fail(IllegalStateException(FrameRateUnsetMessage))
      ensures old(isOpen && frames >= 1 && perSecond >= 1 && channels > 0 && samplesPerSecond < 1) ==>
        r == Fail(IllegalStateException(SampleRateUnsetMessage))
      ensures r.Fail? ==> unchanged(this) && unchanged(file)
      ensures r.Pass? <==> old(isOpen && frames >= 1 && perSecond >= 1 && (channels > 0 ==> samplesPerSecond >= 1))
      ensures r.Pass? ==> Closed() && Written == old(Written)
    {
      if !isOpen {
        return Fail(IOException(ClosedMessage));
      }
      if frames < 1 || perSecond < 1 {
        return Fail(IllegalStateException(FrameRateUnsetMessage));
      }
      if channels > 0 && samplesPerSecond < 1 {
        return Fail(IllegalStateException(SampleRateUnsetMessage));
      }
      Finish();
      r := Pass;
    }
  }

  /** Uncompressed video frames, in order. */
  function DibFrames(fs: seq<JavaArray>): (r: seq<DataChunk>)
    ensures |r| == |fs| && forall k :: 0 <= k < |fs| ==> r[k] == DataChunk(true, fs[k])
  {
    seq(|fs|, k requires 0 <= k < |fs| => DataChunk(true, fs[k]))
  }

  /** The writer a session without audio in DIB mode starts from: open,
      nothing written, the frame rate set. */
  ghost predicate ReadyForDib(w: AviWriter, sizes: RecordSizes, num: Int32, den: Int32)
    reads w, w.file
  {
    w.Valid() && w.HeaderPlaced() && w.isOpen && !w.mjpg && w.channels == 0 && w.sizes == sizes &&
    w.frames == num && w.perSecond == den
  }

  /** Opening a writer without audio in DIB mode, on a platform that may
      lack a JPEG encoder, and setting its frame rate. */
  method OpenDib(sizes: RecordSizes, num: Int32, den: Int32) returns (w: AviWriter)
    requires num >= 1 && den >= 1
    ensures fresh(w) && fresh(w.file) && ReadyForDib(w, sizes, num, den)
    ensures w.Written == [] && w.frameByteSize == -1
  {
    var o := AviWriter.Open(false, false, 0, sizes);
    w := o.value;
    var s := w.SetFramesPerSecond(num, den);
  }

  /** Writing frames that all have the first one's size to a writer that
      has not written any: every call succeeds. */
  method WriteDibFrames(w: AviWriter, fs: seq<JavaArray>, ghost sizes: RecordSizes, ghost num: Int32, ghost den: Int32)
    requires ReadyForDib(w, sizes, num, den) && w.Written == [] && w.frameByteSize == -1
    requires forall k :: 0 <= k < |fs| ==> |fs[k]| == |fs[0]|
    modifies w`frameByteSize, w`frameCount, w`audioBytes, w`indexList, w`Written, w.file
    ensures ReadyForDib(w, sizes, num, den) && w.Written == DibFrames(fs) && w.frameCount == |fs|
  {
    var i := 0;
    while i < |fs|
      invariant 0 <= i <= |fs| && ReadyForDib(w, sizes, num, den)
      invariant w.frameByteSize == if i == 0 then -1 else |fs[0]|
      invariant w.Written == DibFrames(fs[..i]) && w.frameCount == i
    {
      var r := w.WriteFrame(fs[i]);
      assert DibFrames(fs[..i + 1]) == DibFrames(fs[..i]) + [DataChunk(true, fs[i])];
      i := i + 1;
    }
    assert fs[..i] == fs;
  }

  /** A whole session without audio in DIB mode: open, set the frame rate,
      write frames that all have the first one's size, and close. Every
      step succeeds, and the file is the finished AVI file of those frames,
      indexed in order. */
  method DibSession(sizes: RecordSizes, num: Int32, den: Int32, fs: seq<JavaArray>)
    returns (w: AviWriter, r: Outcome)
    requires num >= 1 && den >= 1
    requires forall k :: 0 <= k < |fs| ==> |fs[k]| == |fs[0]|
    ensures r == Pass && w.Closed()
    ensures w.Written == DibFrames(fs) && w.frameCount == |fs|
    ensures w.file.bytes == AviFileBytes(sizes, 0, DibFrames(fs))
    ensures w.indexList == Entries(DibFrames(fs))
  {
    w := OpenDib(sizes, num, den);
    WriteDibFrames(w, fs, sizes, num, den);
    r := w.Close();
  }
}
