# jpsxdec AVI writer — a Dafny model

This project models the streaming AVI writer of jpsxdec
(`src/jpsxdec/util/aviwriter/AVIWriter.java`) and the stream helpers it
relies on (`src/jpsxdec/util/IO.java`), and proves what they promise.

The writer builds a RIFF file in one pass:

- **Constructor.** It writes `RIFF 'AVI '` and a `LIST 'hdrl'` with zeroed
  placeholders for the main header, the video stream header and bitmap
  format, and (with audio) the audio stream header and wave format. Then it
  opens `LIST 'movi'`.
- **Writes.** Every `writeFrame` / `writeAudio` call appends one `00db` or
  `01wb` chunk. The chunk is padded with zeros to a multiple of 4 bytes and
  gets one `idx1` entry.
- **`close`.** It backpatches the `movi` size, appends the `idx1` chunk,
  backpatches the RIFF size and fills in the header records.

A `Chunk` is the offset of a reserved 4-byte size field. `endChunk` seeks
back, writes the number of bytes since that field (little-endian) and
returns to where it was.

Modules:

- `Bytes`: Java's `int` and its `(int)` cast (`Int32Of`), and octets.
- `JavaErrors`: the exceptions thrown, returned as `Result` / `Outcome`
  values.
- `IO`: the little-endian readers and writers, `readByteArray`,
  `InputStreamWithFP` and `Short2DArrayInputStream`, over streams modelled
  as byte sequences whose reads may deliver fewer bytes than asked.
- `Riff`: the output `RandomAccessFile` (a class holding bytes and a file
  pointer) and the `Chunk` helper, plus the RIFF chunk grammar.
- `AviLayout`: the specification of the file. It defines:
  - the header region;
  - the padded data chunks of the `movi` list;
  - the index entry recorded for each chunk;
  - the finished file.
- `Avi`: the `AviWriter` class itself. Its invariant `Valid()` says:
  - while open, the file is the header region followed by exactly the
    chunks written so far;
  - the index list is the index of those chunks;
  - the frame count and audio total count them.
- `AviImages`: `read32LE`, the header-stripping tail of `Image2DIB` and
  `JPEG2MJPEG`. These work on Java `byte` and `int` bit patterns
  (`bv8`, `bv32`).

## Model

Paths are relative to the repository root. A = `src/jpsxdec/util/aviwriter/AVIWriter.java`, I = `src/jpsxdec/util/IO.java`.

| member | source | states |
|---|---|---|
| Bytes.Int32Of | src/jpsxdec/util/aviwriter/AVIWriter.java:662-664 | the `(int)` cast keeps the value modulo 2^32 and is the identity on values that fit in an `int` |
| Bytes.SaturatedInt32 | src/jpsxdec/util/aviwriter/AVIWriter.java:500 | Java's `(int)` of a non-negative whole `double`: the value itself when it fits, otherwise the largest `int`, never more than the value |
| IO.WriteInt16LEValue | src/jpsxdec/util/IO.java:82-91 | the two bytes `WriteInt16LE` writes are the value modulo 2^16, low byte first |
| IO.WriteInt32LEValue | src/jpsxdec/util/IO.java:93-99 | the four bytes `WriteInt32LE` (and `write32LE`) writes are the value modulo 2^32, low byte first |
| IO.ReadUInt16LE | src/jpsxdec/util/IO.java:58-80 | succeeds exactly when two bytes remain, else `EOFException`; the value is `b2 << 8` or-ed with `b1`, the two bytes' unsigned little-endian value, so it is in 0..65535; exactly two bytes are consumed |
| IO.ReadBackInt16 | src/jpsxdec/util/IO.java:58-91 | reading back what `WriteInt16LE(v)` wrote gives `v & 0xFFFF` and leaves the rest of the stream |
| IO.ReadUInt32LE | src/jpsxdec/util/IO.java:123-142 | succeeds exactly when four bytes remain, else `EOFException`; the value is the unsigned little-endian value when the top byte is below 0x80, and that value minus 2^32 otherwise |
| IO.ReadBackInt32 | src/jpsxdec/util/IO.java:93-142 | reading back what `WriteInt32LE(v)` wrote gives `(int) v`, so values of 2^31 and more come back negative |
| IO.AllOnesReadAsMinusOne | src/jpsxdec/util/IO.java:123-127 | the bytes FF FF FF FF read as -1, the overflow the doc comment warns about |
| IO.ReadUInt32LEFile | src/jpsxdec/util/IO.java:101-121 | `IOException` exactly when the four bytes are all 0xFF (total -1); `EOFException` when fewer than four remain; in every other case it succeeds with the same value as the stream reader |
| IO.ReadByteArray | src/jpsxdec/util/IO.java:147-173 | succeeds exactly when `iBytes` bytes remain, and then returns exactly the next `iBytes` bytes of the stream however the reads were split; otherwise `EOFException` with the stream drained |
| IO.InputStreamWithFP.constructor | src/jpsxdec/util/IO.java:40-42 | a new wrapper has counted no calls |
| IO.InputStreamWithFP.Read | src/jpsxdec/util/IO.java:44-48 | each call increments the counter by one and returns the wrapped stream's next byte, or -1 at its end |
| IO.InputStreamWithFP.GetFilePointer | src/jpsxdec/util/IO.java:50-52 | the pointer is the number of `read()` calls made, those that returned -1 included |
| IO.CallsAreDeliveriesPlusEnds | src/jpsxdec/util/IO.java:44-52 | every `read()` call either delivered a byte or reported the end, so the count is bytes delivered plus end reports |
| IO.Short2DArrayInputStream.constructor | src/jpsxdec/util/IO.java:182-191 | accepts any array, including one with no channels; all three counters start at 0 and nothing has been emitted |
| IO.Short2DArrayInputStream.Read | src/jpsxdec/util/IO.java:193-208 | with no channels, looking up channel 0 throws `ArrayIndexOutOfBoundsException`; otherwise returns -1, changing nothing, exactly when the sample index has reached the current channel's length, and else the next byte of the interleaved 16-bit little-endian PCM, in 0..255 |
| IO.Short2DArrayInputStream.Increment | src/jpsxdec/util/IO.java:210-218 | the byte index stays in {0,1} and the channel index in [0, C); the position advances by exactly one byte, so the sample index advances once every 2·C calls |
| IO.PositionDigits | src/jpsxdec/util/IO.java:210-218 | the three counters are the digits of the number of bytes read: sample = n / 2C, channel = n / 2 mod C, byte = n mod 2 |
| IO.ProducedStep | src/jpsxdec/util/IO.java:193-218 | one `read()` that does not hit the end appends exactly the next byte of the interleaving (low byte, then high byte, channel by channel) |
| IO.CompleteFrame | src/jpsxdec/util/IO.java:193-218 | the high byte of the last channel completes sample `i` of every channel in the interleaved output |
| IO.DrainedIsInterleaved | src/jpsxdec/util/IO.java:182-218 | with every channel holding N samples, a drained stream has emitted exactly the interleaving of all samples, 2·C·N bytes |
| Riff.NewChunk | src/jpsxdec/util/aviwriter/AVIWriter.java:645-649 | appends the name and a zero size field, and remembers the offset of that field |
| Riff.NewList | src/jpsxdec/util/aviwriter/AVIWriter.java:651-654 | a list chunk: name, zero size field, list type |
| Riff.EndChunk | src/jpsxdec/util/aviwriter/AVIWriter.java:659-668 | the size is `cur - (pos + 4)`; the four bytes at `pos` become that size little-endian, no other byte changes, and the file pointer is back at `cur` |
| Riff.WriteInt32LECast | src/jpsxdec/util/aviwriter/AVIWriter.java:662-664 | casting the `long` size to `int` before `write32LE` does not change the bytes written |
| Riff.Le32Injective | src/jpsxdec/util/aviwriter/AVIWriter.java:566-571 | four bytes are determined by their little-endian value |
| Riff.EndChunkCloses | src/jpsxdec/util/aviwriter/AVIWriter.java:645-668 | opening a chunk, writing its payload and ending it yields exactly name, payload length, payload |
| AviLayout.Padded | src/jpsxdec/util/aviwriter/AVIWriter.java:358-360 | a padded payload's length is a multiple of 4 and at most 3 bytes longer |
| AviLayout.PaddingIsZero | src/jpsxdec/util/aviwriter/AVIWriter.java:358-360 | padding keeps the payload in front and adds only zero bytes |
| AviLayout.PaddedRoundsUp | src/jpsxdec/util/aviwriter/AVIWriter.java:358-365 | the chunk size written is the payload length rounded up to a multiple of 4 |
| AviLayout.Entries | src/jpsxdec/util/aviwriter/AVIWriter.java:366 | exactly one index entry per data chunk |
| AviLayout.MoviSizeOffset | src/jpsxdec/util/aviwriter/AVIWriter.java:231 | the `movi` size field sits 8 bytes before the end of the opened header region |
| AviLayout.PlaceholdersAreZero | src/jpsxdec/util/aviwriter/AVIWriter.java:192-231 | each header record placeholder is zero bytes at its recorded offset |
| AviLayout.AppendChunk | src/jpsxdec/util/aviwriter/AVIWriter.java:332-366 | writing one chunk appends its bytes to the `movi` body and its entry to the index, and counts a frame or the audio bytes |
| AviLayout.EntryAt | src/jpsxdec/util/aviwriter/AVIWriter.java:366 | index entry k is the one recorded when chunk k was written, in write order |
| AviLayout.EntryFields | src/jpsxdec/util/aviwriter/AVIWriter.java:336-366 | entry k's offset is 4 plus the bytes of the chunks before it, its size is chunk k's padded length, its id is `00db` or `01wb` |
| AviLayout.IndexLocatesChunk | src/jpsxdec/util/aviwriter/AVIWriter.java:337 | counted from the `movi` list type, an entry's offset lands on its chunk's name, followed by its size and payload |
| AviLayout.ConsecutiveOffsets | src/jpsxdec/util/aviwriter/AVIWriter.java:337-365 | the next entry's offset is this one's plus 8 plus its size: the chunks leave no gaps |
| AviLayout.NoVideoBefore | src/jpsxdec/util/aviwriter/AVIWriter.java:342 | the frame count is 0 exactly when no video chunk has been written |
| AviLayout.KeyframeOnlyFirstVideo | src/jpsxdec/util/aviwriter/AVIWriter.java:339-351 | an entry is flagged `AVIIF_KEYFRAME` exactly when it is the first video chunk; every other entry has flags 0 |
| AviLayout.ThreeDibFrames | src/jpsxdec/util/aviwriter/AVIWriter.java:332-366 | three 320x240 DIB frames get offsets 4, 230412, 460820 and size 230400 each |
| AviLayout.CloseLayout | src/jpsxdec/util/aviwriter/AVIWriter.java:378-386 | ending `movi` over the opened region and the chunks, appending `idx1` and ending RIFF gives the finished file layout |
| Avi.ClosedHeadersAgree | src/jpsxdec/util/aviwriter/AVIWriter.java:395-522 | the headers filled in on close agree: total frames = video length = frame count, streams = 2 with audio else 1, flags 0x10, scale/rate = per-second/frames, bitmap size = main header size, 16-bit PCM with block align 2·channels and bytes/s = rate·block align |
| Avi.AudioLengthIsSampleFrames | src/jpsxdec/util/aviwriter/AVIWriter.java:500 | the audio stream's length is the number of whole sample frames (2·channels bytes each) written; from 2^31 frames on it stays at 2^31-1, as Java's `(int)` cast of the `double` count saturates |
| Avi.WriteZeros | src/jpsxdec/util/aviwriter/AVIWriter.java:360 | the padding loop appends exactly n zero bytes |
| Avi.WriteRecordChunk | src/jpsxdec/util/aviwriter/AVIWriter.java:204-209 | a `strf` chunk around a zeroed placeholder, whose offset is returned |
| Avi.WriteStreamList | src/jpsxdec/util/aviwriter/AVIWriter.java:199-211 | a `LIST 'strl'` with the stream header and format placeholders at the returned offsets |
| Avi.WriteHdrl | src/jpsxdec/util/aviwriter/AVIWriter.java:194-229 | appends the `hdrl` list, with the audio stream list only when channels > 0, and the placeholder offsets |
| Avi.WriteHeaderRegion | src/jpsxdec/util/aviwriter/AVIWriter.java:192-231 | the constructor's output is the opened header region, with the RIFF and `movi` size fields at their places |
| Avi.PadAndEndChunk | src/jpsxdec/util/aviwriter/AVIWriter.java:358-365 | the padding loop plus `endChunk` turn the open chunk into name, padded size, padded payload |
| Avi.WriteDataChunk | src/jpsxdec/util/aviwriter/AVIWriter.java:348-365 | appends one complete padded data chunk and returns its size |
| Avi.CopyBlocks | src/jpsxdec/util/aviwriter/AVIWriter.java:314-319 | the copy loop appends the stream's blocks up to the first empty read |
| Avi.WriteStreamChunk | src/jpsxdec/util/aviwriter/AVIWriter.java:311-328 | the audio-stream chunk holds the copied bytes padded to 4, and its size is the padded length |
| Avi.EndMovi | src/jpsxdec/util/aviwriter/AVIWriter.java:379 | ending the `movi` list turns it into a complete list chunk |
| Avi.EndRiff | src/jpsxdec/util/aviwriter/AVIWriter.java:386 | ending the RIFF chunk turns the file into one complete RIFF list |
| Avi.EndFile | src/jpsxdec/util/aviwriter/AVIWriter.java:378-386 | the file part of close yields RIFF of `hdrl`, the complete `movi` list and `idx1` |
| Avi.AviWriter.Open | src/jpsxdec/util/aviwriter/AVIWriter.java:172-180 | channels outside 0..2 give `IllegalArgumentException`, and MJPG without JPEG support gives `UnsupportedOperationException`, before the file is created; it succeeds exactly when neither applies, with an open writer over the opened header region, nothing written, and every setting unset |
| Avi.AviWriter.Create | src/jpsxdec/util/aviwriter/AVIWriter.java:182-236 | a new writer is open, has an empty index, no frames and no audio, unset settings, and a file holding exactly the opened header region |
| Avi.AviWriter.SetSamplesPerSecond | src/jpsxdec/util/aviwriter/AVIWriter.java:105-108 | a rate below 1 is rejected with `IllegalArgumentException`, changing nothing; it succeeds exactly when the rate is at least 1, and then adopts it; no other field changes |
| Avi.AviWriter.SetFramesPerSecond | src/jpsxdec/util/aviwriter/AVIWriter.java:112-116 | either value below 1 is rejected, changing nothing; it succeeds exactly when both are at least 1, and then sets both; no other field changes |
| Avi.AviWriter.SetDimensions | src/jpsxdec/util/aviwriter/AVIWriter.java:123-133 | rejects values below 1; rejects a second setting of the width, or of the height (the width is set before the height is checked); succeeds exactly when both were unset |
| Avi.AviWriter.ChunkAppendedValid | src/jpsxdec/util/aviwriter/AVIWriter.java:332-366 | appending a chunk together with its entry and counts keeps the writer's invariant |
| Avi.AviWriter.WriteStreamDataChunk | src/jpsxdec/util/aviwriter/AVIWriter.java:332-367 | appends one padded chunk and exactly one entry (offset from the `movi` type, key frame only for the first video frame, padded size); counts a frame or the audio bytes; keeps the invariant |
| Avi.AviWriter.WriteFrame | src/jpsxdec/util/aviwriter/AVIWriter.java:243-255 | closed: `IOException`; DIB frame of another size than the first: `IllegalArgumentException` before any byte is written; it succeeds exactly when neither applies, appending one video chunk and entry, and the first DIB frame fixes the size; the open state and the settings never change |
| Avi.AviWriter.WriteAudio | src/jpsxdec/util/aviwriter/AVIWriter.java:280-283 | closed: `IOException` and nothing changes; it succeeds exactly when the writer is open, appending one audio chunk and entry; the open state and the settings never change |
| Avi.AviWriter.WriteAudioChunk | src/jpsxdec/util/aviwriter/AVIWriter.java:303-329 | the streamed audio is written as one padded `01wb` chunk with its entry, and the audio total grows by the bytes copied |
| Avi.AviWriter.WriteAudioStream | src/jpsxdec/util/aviwriter/AVIWriter.java:285-330 | closed: `IOException`; sample size other than 16 bits, channel count mismatch or a sample rate differing from a set one: `IOException` and nothing changes; otherwise an unset rate is adopted and one chunk is appended |
| Avi.AviWriter.FillHeaders | src/jpsxdec/util/aviwriter/AVIWriter.java:395-522 | the main, video, bitmap and (with audio) audio and wave-format records get their closing values |
| Avi.AviWriter.WriteTrailer | src/jpsxdec/util/aviwriter/AVIWriter.java:378-386 | the file becomes the finished AVI file of the chunks written |
| Avi.AviWriter.Finish | src/jpsxdec/util/aviwriter/AVIWriter.java:378-543 | after the checks pass, the file is finished, the headers are filled in and the writer is closed |
| Avi.AviWriter.Close | src/jpsxdec/util/aviwriter/AVIWriter.java:370-543 | already closed: `IOException`; frame rate unset: `IllegalStateException`; audio with sample rate unset: `IllegalStateException`; a failure changes nothing; it succeeds exactly when none applies, and then the file is the finished AVI file, the headers hold their closing values, and later writes and closes fail |
| Avi.OpenDib | src/jpsxdec/util/aviwriter/AVIWriter.java:172-237 | opening a writer without audio in DIB mode and setting a frame rate of at least 1 both succeed, leaving it open, empty and ready |
| Avi.WriteDibFrames | src/jpsxdec/util/aviwriter/AVIWriter.java:243-367 | writing frames that all have the first one's size succeeds for every frame, keeps the writer open with its settings, and records exactly those frames |
| Avi.DibSession | src/jpsxdec/util/aviwriter/AVIWriter.java:172-543 | a whole session (open, set the frame rate, write equal-size DIB frames, close) succeeds at every step; the file is the finished AVI file of those frames and the index lists them in order |
| AviImages.Widen | src/jpsxdec/util/aviwriter/AVIWriter.java:607-612 | widening a `byte` to `int` keeps its signed value, and sets all upper 24 bits for bytes 0x80 and up |
| AviImages.Read32LEAsWritten | src/jpsxdec/util/aviwriter/AVIWriter.java:607-612 | succeeds exactly when the four indices are in range, else `ArrayIndexOutOfBoundsException` at the first bad index |
| AviImages.Read32LE | src/jpsxdec/util/aviwriter/AVIWriter.java:607-612 | with the bytes masked, the same error cases, and the value is the four bytes' little-endian value read as an `int` |
| AviImages.MaskedIsLe32 | src/jpsxdec/util/aviwriter/AVIWriter.java:607-612 | the masked bytes or-ed into place equal the little-endian value, because their bit fields do not overlap |
| AviImages.Read32LEInvertsWrite | src/jpsxdec/util/aviwriter/AVIWriter.java:566-571 | the masked reader reads back the `int` that `write32LE` wrote |
| AviImages.Write32LEIsWriteInt32LE | src/jpsxdec/util/aviwriter/AVIWriter.java:566-571 | `write32LE` on an `int`'s bit pattern writes the same four bytes as `IO.WriteInt32LE` on its unsigned value |
| AviImages.AsWrittenHighLowByte | src/jpsxdec/util/aviwriter/AVIWriter.java:607-612 | as written, a low byte of 0x80 or more yields that byte's negative value and the other three bytes are lost |
| AviImages.AsWrittenMisreads128 | src/jpsxdec/util/aviwriter/AVIWriter.java:607-612 | as written, the bytes `write32LE` produces for 128 read back as -128; the masked reader gives 128 |
| AviImages.AsWrittenAgreesBelow0x80 | src/jpsxdec/util/aviwriter/AVIWriter.java:607-612 | when the three low bytes are below 0x80, the as-written and the masked readers agree |
| AviImages.AsWrittenSign | src/jpsxdec/util/aviwriter/AVIWriter.java:607-612 | as written, four bytes below 0x80 read as their little-endian value, and any byte of 0x80 or more makes the result negative |
| AviImages.CopyTail | src/jpsxdec/util/aviwriter/AVIWriter.java:603 | the bytes from `from` on; a start past the end or a negative start throws |
| AviImages.DibPixelDataAsWritten | src/jpsxdec/util/aviwriter/AVIWriter.java:598-603 | the tail as written: a file shorter than 14 bytes throws; otherwise it succeeds exactly when no byte of `bfOffBits` is 0x80 or more and its value lies within the file, and then agrees with the corrected tail |
| AviImages.DibPixelData | src/jpsxdec/util/aviwriter/AVIWriter.java:598-603 | the tail with the corrected reader: a file shorter than 14 bytes throws `ArrayIndexOutOfBoundsException`; otherwise it succeeds exactly when `bfOffBits`, read unsigned, lies within the file |
| AviImages.DibPixelDataAfterHeaders | src/jpsxdec/util/aviwriter/AVIWriter.java:598-603 | with the corrected reader, a BMP file whose `bfOffBits` is its header length yields exactly the pixel bytes after the headers |
| AviImages.AsWrittenRefusesDib | src/jpsxdec/util/aviwriter/AVIWriter.java:601-603 | as written, a BMP file whose `bfOffBits` has any byte of 0x80 or more gets a negative start and the copy throws; pixels at 138 (`8A 00 00 00`, a version 5 info header) are refused as written and found by the corrected tail |
| AviImages.Jpeg2Mjpeg | src/jpsxdec/util/aviwriter/AVIWriter.java:627-634 | succeeds exactly when bytes 6..9 are `JFIF`; then only those four bytes change, to `AVI1`, and the result no longer passes the check; a mismatch in range gives `IOException`, a too-short array `ArrayIndexOutOfBoundsException`; on failure the array is unchanged |

## Left out

- Image conversion is not modelled: colour conversion, `ImageIO` and `Graphics2D` encoding (`Image2DIB` before line 598, `Image2MJPEG`, `writeFrame(BufferedImage)`). These are foreign library calls. `AviImages` starts from the encoder's output bytes.
- The JPEG capability probe `CAN_ENCODE_JPG` is a parameter of `Avi.AviWriter.Open`.
- AviImages.DibPixelData: describes the tail of `Image2DIB` with the corrected `read32LE`, so it accepts a `bfOffBits` with a byte of 0x80 or more (such as 138) that the source refuses. The tail as written is `AviImages.DibPixelDataAsWritten`; `AviImages.DibPixelDataAfterHeaders` is likewise about the corrected tail.
- The byte layouts of the header records (`AVIMAINHEADER`, `AVISTREAMHEADER`, `BITMAPINFOHEADER`, `WAVEFORMATEX`) are not part of this model. Each placeholder is a run of zero bytes whose length is a parameter. On close, the model records the field values in place of rewriting those bytes (`goBackAndWrite`).
- The `idx1` chunk is written in the standard AVI index layout: name, flags, offset, size, each 4 bytes. `AVIOLDINDEX` itself is not part of this model.
- `dwMicroSecPerFrame` is not modelled: it is computed in `double`.
- The `double` sample counter `m_dblSampleCount` is not modelled as a floating-point value. Each addition to it is a chunk length divided by 2·channels, a multiple of 1/4, so the sum is exact well past 2^31. Its `(int)` cast is therefore the number of whole sample frames, held at 2^31-1 once it no longer fits. `Avi.AviWriter.FillHeaders` computes that same value from the exact audio byte total.
- `Avi.AviWriter.WriteStreamDataChunk`: the frame count and the audio total are unbounded. The model does not wrap `m_iFrameCount` at 2^31 frames.
- `Avi.AviWriter.WriteAudioStream`: takes the stream's format as integers, with the sample rate already cast by `(int)`. The stream's reads are a sequence of blocks of at most 1024 bytes.
- `Avi.AviWriter.Close` requires `HeaderPlaced()`: a fact about the writer's constant fields, which `Create` and `Open` establish. The other methods do not need it.
- The file-system side of `RandomAccessFile` (open, `setLength`, `close`) is not modelled, nor the I/O errors it can raise. Neither is `IO.writeFile`, `readFile`, `writeIStoFile` or `writeIStoOS` (copy loops over files).
- `jpsxdec.util.Misc` is not part of this model. `AviImages.CopyTail` follows `java.util.Arrays.copyOfRange` with the end at the array's length. Its exception message is a placeholder.
- `IO.ReadUInt32LEFile`: `readUnsignedByte` throws `EOFException` itself, so the model carries no message for that case. The source's `b < 0` checks never fire.
- `readByteArray` is modelled once, for a stream. The `RandomAccessFile` overload has the same body. Its `assert(iBytes > 0)` is a precondition.
- `PSXMediaFF9.java` and `DiscIndexerCrusader.java` are not modelled: they are callers of this component.

## Findings

| source | as written | input that shows it | evidently intended | confidence | as-written member | corrected member |
|---|---|---|---|---|---|---|
| src/jpsxdec/util/aviwriter/AVIWriter.java:607-612 | `read32LE` ors the four `byte`s without `& 0xFF`, so each is sign-extended to `int` first | bytes `80 00 00 00` (the value 128) read as -128; in `Image2DIB`, a BMP whose `bfOffBits` is 0x80 to 0xFF gets a negative start and `copyOfRange` throws | an unsigned little-endian read of the four bytes, each masked with `0xFF` | not executed; the 24-bit BMP files `ImageIO` writes have `bfOffBits` = 54, so the current caller is not affected | AviImages.AsWrittenMisreads128 | AviImages.Read32LE |
