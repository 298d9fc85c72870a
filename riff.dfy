/**
 * The output file of the AVI writer and its `Chunk` helper.
 *
 * The file (a `RandomAccessFile` opened for writing and truncated) is a
 * byte sequence with a file pointer. A `Chunk` is the offset of the 4-byte
 * size field it reserved; ending it seeks back, writes the number of bytes
 * since that field little-endian, and returns to where it was.
 */
module Riff {
  import opened Bytes
  import opened IO

  /** The content of a file after writing `b` at offset `at`: earlier bytes
      stay, `b` replaces what was there, and the file grows if needed. */
  function Overwrite(s: seq<Byte>, at: nat, b: seq<Byte>): (r: seq<Byte>)
    requires at <= |s|
    ensures |r| == if at + |b| <= |s| then |s| else at + |b|
    ensures r[..at] == s[..at] && r[at..at + |b|] == b
    ensures at + |b| <= |s| ==> r[at + |b|..] == s[at + |b|..]
    ensures at == |s| ==> r == s + b
  {
    s[..at] + b + (if at + |b| < |s| then s[at + |b|..] else [])
  }

  /** The output `RandomAccessFile`. */
  class OutFile {
    var bytes: seq<Byte>
    var fp: nat

    ghost predicate Valid()
      reads this
    {
      fp <= |bytes|
    }

    /** Opening the file and truncating it to length 0. */
    constructor ()
      ensures Valid() && bytes == [] && fp == 0
    {
      bytes := [];
      fp := 0;
    }

    /** `write(b)`: writes at the file pointer and advances it. */
    method Write(b: seq<Byte>)
      requires Valid()
      modifies this
      ensures Valid()
      ensures bytes == Overwrite(old(bytes), old(fp), b) && fp == old(fp) + |b|
    {
      bytes := Overwrite(bytes, fp, b);
      fp := fp + |b|;
    }

    /** `seek(p)`, within the file. */
    method Seek(p: nat)
      requires p <= |bytes|
      modifies this
      ensures Valid() && bytes == old(bytes) && fp == p
    {
      fp := p;
    }
  }

  /** A chunk being written: the offset of its reserved size field. */
  datatype Chunk = Chunk(pos: nat)

  /** `Chunk(raFile, name)`: writes the name, remembers where the size field
      goes, and writes a zero placeholder for it (`writeInt(0)`). */
  method NewChunk(f: OutFile, name: FourCC) returns (c: Chunk)
    requires f.Valid()
    modifies f
    ensures f.Valid() && c.pos == old(f.fp) + 4 && f.fp == c.pos + 4
    ensures f.bytes == Overwrite(old(f.bytes), old(f.fp), name + Zeros(4))
    ensures old(f.fp) == |old(f.bytes)| ==> f.bytes == old(f.bytes) + name + Zeros(4)
  {
    f.Write(name);
    c := Chunk(f.fp);
    f.Write(Zeros(4));
    assert Overwrite(Overwrite(old(f.bytes), old(f.fp), name), old(f.fp) + 4, Zeros(4))
        == Overwrite(old(f.bytes), old(f.fp), name + Zeros(4)) by {
      OverwriteTwice(old(f.bytes), old(f.fp), name, Zeros(4));
    }
  }

  /** `Chunk(raFile, name, subName)`: a list chunk, whose payload starts
      with the list type. */
  method NewList(f: OutFile, name: FourCC, sub: FourCC) returns (c: Chunk)
    requires f.Valid()
    modifies f
    ensures f.Valid() && c.pos == old(f.fp) + 4 && f.fp == c.pos + 8
    ensures f.bytes == Overwrite(old(f.bytes), old(f.fp), name + Zeros(4) + sub)
    ensures old(f.fp) == |old(f.bytes)| ==> f.bytes == old(f.bytes) + name + Zeros(4) + sub
  {
    c := NewChunk(f, name);
    f.Write(sub);
    OverwriteTwice(old(f.bytes), old(f.fp), name + Zeros(4), sub);
  }

  /** `endChunk`: writes `cur - (pos + 4)` little-endian over the reserved
      field and leaves the file pointer at `cur`; no other byte changes. */
  method EndChunk(f: OutFile, c: Chunk) returns (size: int)
    requires f.Valid() && c.pos + 4 <= f.fp
    modifies f
    ensures f.Valid() && f.fp == old(f.fp)
    ensures size == old(f.fp) - (c.pos + 4)
    ensures f.bytes == old(f.bytes)[..c.pos] + WriteInt32LE(size) + old(f.bytes)[c.pos + 4..]
  {
    var cur := f.fp;
    f.Seek(c.pos);
    size := cur - (c.pos + 4);
    f.Write(WriteInt32LE(Int32Of(size)));
    WriteInt32LECast(size);
    f.Seek(cur);
  }

  /** `write32LE(raf, (int) size)` writes the same bytes as `size` itself. */
  lemma WriteInt32LECast(x: int)
    ensures WriteInt32LE(Int32Of(x)) == WriteInt32LE(x)
  {
    var a, b := WriteInt32LE(Int32Of(x)), WriteInt32LE(x);
    assert Le32Value(a) == Le32Value(b) by {
      WriteInt32LEValue(Int32Of(x));
      WriteInt32LEValue(x);
      assert (x - Int32Of(x)) % TwoTo32 == 0;
      ModOfCongruent(x, Int32Of(x), TwoTo32);
    }
    Le32Injective(a, b);
  }

  lemma ModOfCongruent(x: int, y: int, m: int)
    requires m > 0 && (x - y) % m == 0
    ensures x % m == y % m
  {
    var k := (x - y) / m;
    assert x - y == k * m;
    DivModUnique(x, m, y / m + k, y % m);
  }

  /** Four bytes are determined by their little-endian value. */
  lemma Le32Injective(a: seq<Byte>, b: seq<Byte>)
    requires |a| == 4 && |b| == 4 && Le32Value(a) == Le32Value(b)
    ensures a == b
  {
    var v := Le32Value(a);
    DivModUnique(v, 0x100, a[1] as int + 0x100 * (a[2] as int) + 0x1_0000 * (a[3] as int), a[0]);
    DivModUnique(v, 0x100, b[1] as int + 0x100 * (b[2] as int) + 0x1_0000 * (b[3] as int), b[0]);
    var w := v / 0x100;
    DivModUnique(w, 0x100, a[2] as int + 0x100 * (a[3] as int), a[1]);
    DivModUnique(w, 0x100, b[2] as int + 0x100 * (b[3] as int), b[1]);
    var u := w / 0x100;
    DivModUnique(u, 0x100, a[3], a[2]);
    DivModUnique(u, 0x100, b[3], b[2]);
  }

  lemma OverwriteTwice(s: seq<Byte>, at: nat, b1: seq<Byte>, b2: seq<Byte>)
    requires at <= |s|
    ensures at + |b1| <= |Overwrite(s, at, b1)|
    ensures Overwrite(Overwrite(s, at, b1), at + |b1|, b2) == Overwrite(s, at, b1 + b2)
  {
    var s1 := Overwrite(s, at, b1);
    var s2 := Overwrite(s1, at + |b1|, b2);
    var t := Overwrite(s, at, b1 + b2);
    assert |s2| == |t|;
    forall i | 0 <= i < |t| ensures s2[i] == t[i] {
      if i < at {
        assert s2[i] == s1[..at + |b1|][i] == s1[..at][i];
        assert t[i] == t[..at][i];
      } else if i < at + |b1| {
        assert s2[i] == s1[..at + |b1|][i] == s1[at..at + |b1|][i - at];
        assert t[i] == t[at..at + |b1| + |b2|][i - at];
      } else if i < at + |b1| + |b2| {
        assert s2[i] == s2[at + |b1|..at + |b1| + |b2|][i - at - |b1|];
        assert t[i] == t[at..at + |b1| + |b2|][i - at];
      } else {
        assert s2[i] == s2[at + |b1| + |b2|..][i - at - |b1| - |b2|];
        assert t[i] == t[at + |b1| + |b2|..][i - at - |b1| - |b2|];
        assert s1[at + |b1|..][i - at - |b1|] == s[at + |b1|..][i - at - |b1|];
      }
    }
  }

  // ---------------------------------------------------------------------
  // The chunk grammar of a RIFF file
  // ---------------------------------------------------------------------

  /** A chunk: its name, the size of its payload little-endian, its payload. */
  function ChunkBytes(name: FourCC, payload: seq<Byte>): (r: seq<Byte>)
    ensures |r| == 8 + |payload|
  {
    name + WriteInt32LE(|payload|) + payload
  }

  /** A list chunk: a chunk whose payload is the list type, then the children. */
  function ListBytes(name: FourCC, sub: FourCC, children: seq<Byte>): (r: seq<Byte>)
    ensures |r| == 12 + |children|
  {
    ChunkBytes(name, sub + children)
  }

  /** Opening a chunk, writing its payload and ending it produces exactly
      the chunk: the backpatched size is the length of the payload. */
  lemma EndChunkCloses(pre: seq<Byte>, name: FourCC, payload: seq<Byte>, s: seq<Byte>)
    requires s == pre + name + Zeros(4) + payload
    ensures |pre| + 8 <= |s| && |s| - (|pre| + 8) == |payload|
    ensures s[..|pre| + 4] + WriteInt32LE(|s| - (|pre| + 8)) + s[|pre| + 8..] == pre + ChunkBytes(name, payload)
  {
    assert s[..|pre| + 4] == pre + name;
    assert s[|pre| + 8..] == payload;
  }
}
