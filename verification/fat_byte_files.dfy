/**
  Byte ranges of files: a head piece, whole sectors and a tail piece, and changing the size.
 */
module FatByteFiles {
  import opened RawMemory
  import opened Sectors
  import opened FatChains
  import opened FatDevices
  import opened FatLayout
  import opened FatFiles

  /** Bytes before the first sector boundary. */
  function HeadLength(offset: nat, len: nat): (h: nat)
    ensures h <= len && (h < len ==> (offset + h) % 512 == 0)
  {
    if offset % 512 == 0 then 0 else if 512 - offset % 512 > len then len else 512 - offset % 512
  }

  function MiddleSectors(offset: nat, len: nat): nat {
    (len - HeadLength(offset, len)) / 512
  }

  /** The whole sectors follow the head, and less than a sector is left after them. */
  lemma ThreeParts(offset: nat, len: nat)
    ensures var h := HeadLength(offset, len);
      var n := (len - h) / 512 * 512;
      && h <= len && MiddleSectors(offset, len) == (len - h) / 512 == n / 512 && n % 512 == 0 && len - h - n < 512
      && (h < len ==> (offset + h) % 512 == 0 && (offset + h + n) % 512 == 0)
  {
    var h := HeadLength(offset, len);
    var q := (len - h) / 512;
    assert (512 * q) / 512 == q && (512 * q) % 512 == 0;
    if h < len { assert (offset + h + 512 * q) % 512 == (offset + h) % 512; }
  }

  /** Clusters for a file of `bytes` bytes; there is always one. */
  function ClustersFor(bytes: nat, spc: nat): (n: nat)
    requires spc > 0
    ensures n >= 1
  {
    var per := 512 * spc;
    var n := bytes / per + if bytes % per > 0 then 1 else 0;
    if n == 0 then 1 else n
  }

  /** That many clusters hold the bytes, and one less would not, unless it is the one that is always there. */
  lemma ClustersSuffice(bytes: nat, spc: nat)
    requires spc > 0
    ensures var n := ClustersFor(bytes, spc);
      bytes <= 512 * Times(n, spc) && (n > 1 ==> bytes > 512 * Times(n - 1, spc))
  {
    var per, n := 512 * spc, ClustersFor(bytes, spc);
    var q := bytes / per;
    assert bytes == q * per + bytes % per;
    assert 512 * Times(n, spc) == n * per && 512 * Times(n - 1, spc) == (n - 1) * per;
    MulMono(q, n, per);
    if bytes % per > 0 {
      assert n == q + 1 && (q + 1) * per == q * per + per;
    } else if n > 1 {
      assert n == q && (q - 1) * per == q * per - per;
    }
  }

  // ---------------------------------------------------------------------------
  // The three parts as one write, and as one read
  // ---------------------------------------------------------------------------

  lemma SpliceParts(b: seq<Byte>, at: nat, p: seq<Byte>, i: nat, j: nat)
    requires at + |p| <= |b| && i <= j <= |p|
    ensures Splice(Splice(b, at, p[..i]), at + i, p[i..j]) == Splice(b, at, p[..j])
  {
  }

  lemma WholeSplice(b: seq<Byte>, at: nat, p: seq<Byte>)
    requires at + |p| <= |b|
    ensures p[..|p|] == p && Splice(b, at, p[..0]) == b
  {
  }

  class FatByteVolume {
    const vol: FatVolume

    constructor (vol: FatVolume)
      ensures this.vol == vol
    {
      this.vol := vol;
    }

    /** The content of the chain as one sequence of bytes. */
    ghost function Bytes(c: seq<nat>): seq<Byte>
      requires vol.Shape() && IsChain(vol.dev.Table(), c)
      reads vol.dev.fat, vol.data
    {
      Flat(vol.File(c))
    }

    /** The chain at `slot` is `c`, and it is long enough for a file of `size` bytes. */
    ghost predicate Holds(slot: U32, c: seq<nat>, size: nat)
      requires vol.Shape()
      reads vol.dev.fat
    {
      IsChain(vol.dev.Table(), c) && c[0] == Masked(slot) && size <= 512 * Times(|c|, vol.spc)
    }

    lemma Sizes(c: seq<nat>)
      requires vol.Shape() && IsChain(vol.dev.Table(), c)
      ensures |vol.File(c)| == Times(|c|, vol.spc) && |Bytes(c)| == 512 * Times(|c|, vol.spc)
      ensures InRange(vol.dev.Table(), c[0])
    {
      vol.SizeOf(c);
      ChainSlots(vol.dev.Table(), c, c[0]);
    }

    /** A piece of one sector, as bytes of the file. */
    method WriteBytesPiece(slot: U32, at: nat, p: seq<Byte>, ghost c: seq<nat>, ghost size: nat) returns (code: Code)
      requires vol.Shape() && Holds(slot, c, size) && at + |p| <= size && p != [] && at % 512 + |p| <= 512
      modifies vol.data
      ensures code == Success && Bytes(c) == Splice(old(Bytes(c)), at, p)
      ensures OthersKept(vol.dev.Table(), c, vol.spc, old(vol.data[..]), vol.data[..])
    {
      hide Times, Quot, Rem, FileSectors, At, IsChain, OthersKept, Flat;
      Sizes(c);
      ghost var v := vol.File(c);
      FlatPiece(v, at / 512, at % 512, p);
      code := vol.WritePiece(slot, at / 512, at % 512, p, c);
    }

    /** Whole sectors, at most 255 of them, as bytes of the file. */
    method WriteBytesSectors(slot: U32, at: nat, p: seq<Byte>, ghost c: seq<nat>, ghost size: nat) returns (code: Code)
      requires vol.Shape() && Holds(slot, c, size) && at + |p| <= size && p != [] && at % 512 == 0 && |p| % 512 == 0
      modifies vol.data
      ensures code == Success <==> |p| / 512 <= 255
      ensures |p| / 512 <= 255 ==> Bytes(c) == Splice(old(Bytes(c)), at, p)
      ensures OthersKept(vol.dev.Table(), c, vol.spc, old(vol.data[..]), vol.data[..])
    {
      hide Times, Quot, Rem, FileSectors, At, IsChain, OthersKept, Flat, Chunks, WriteRun;
      Sizes(c);
      ghost var v := vol.File(c);
      var src := Chunks(p);
      FlatSectors(v, at / 512, src);
      code := vol.WriteSectors(slot, at / 512, src, c);
      if |src| <= 255 {
        WriteRunIs(v, at / 512, src, vol.spc);
      }
    }

    /** The first `done` of the bytes are written, on disk contents that were `was` and file contents that were `b`;
        unless `ok`, nothing is known of the file, but still of the others. */
    ghost predicate Progress(
        c: seq<nat>, was: seq<Sector>, b: seq<Byte>, offset: nat, bytes: seq<Byte>, done: nat, ok: bool)
      requires vol.Shape() && IsChain(vol.dev.Table(), c)
      reads vol.dev.fat, vol.data
    {
      && |was| == vol.data.Length && OthersKept(vol.dev.Table(), c, vol.spc, was, vol.data[..])
      && done <= |bytes| && offset + |bytes| <= |b| && (ok ==> Bytes(c) == Splice(b, offset, bytes[..done]))
    }

    method WriteEdge(
        slot: U32, offset: nat, bytes: seq<Byte>, i: nat, j: nat, ghost c: seq<nat>, ghost size: nat,
        ghost was: seq<Sector>, ghost b: seq<Byte>, ghost ok: bool)
      requires vol.Shape() && Holds(slot, c, size) && i < j <= |bytes| && offset + |bytes| <= size
      requires (offset + i) % 512 + (j - i) <= 512 && Progress(c, was, b, offset, bytes, i, ok)
      modifies vol.data
      ensures Progress(c, was, b, offset, bytes, j, ok)
    {
      hide Times, Quot, Rem, FileSectors, At, IsChain, OthersKept, Flat, Splice;
      ghost var before := vol.data[..];
      SpliceParts(b, offset, bytes, i, j);
      var code := WriteBytesPiece(slot, offset + i, bytes[i..j], c, size);
      OthersKeptTwice(vol.dev.Table(), c, vol.spc, was, before, vol.data[..]);
    }

    method WriteMiddle(
        slot: U32, offset: nat, bytes: seq<Byte>, i: nat, j: nat, ghost c: seq<nat>, ghost size: nat,
        ghost was: seq<Sector>, ghost b: seq<Byte>, ghost ok: bool)
      returns (code: Code)
      requires vol.Shape() && Holds(slot, c, size) && i < j <= |bytes| && offset + |bytes| <= size
      requires (offset + i) % 512 == 0 && (j - i) % 512 == 0 && Progress(c, was, b, offset, bytes, i, ok)
      modifies vol.data
      ensures Progress(c, was, b, offset, bytes, j, ok && (j - i) / 512 <= 255)
      ensures code == Success <==> (j - i) / 512 <= 255
    {
      hide Times, Quot, Rem, FileSectors, At, IsChain, OthersKept, Flat, Splice;
      ghost var before := vol.data[..];
      SpliceParts(b, offset, bytes, i, j);
      code := WriteBytesSectors(slot, offset + i, bytes[i..j], c, size);
      OthersKeptTwice(vol.dev.Table(), c, vol.spc, was, before, vol.data[..]);
    }

    lemma NoProgress(c: seq<nat>, offset: nat, bytes: seq<Byte>)
      requires vol.Shape() && IsChain(vol.dev.Table(), c) && offset + |bytes| <= |Bytes(c)|
      ensures Progress(c, vol.data[..], Bytes(c), offset, bytes, 0, true)
    {
      vol.NothingChanged(c, vol.data[..]);
      WholeSplice(Bytes(c), offset, bytes);
    }

    lemma AllDone(c: seq<nat>, was: seq<Sector>, b: seq<Byte>, offset: nat, bytes: seq<Byte>, done: nat, ok: bool)
      requires vol.Shape() && IsChain(vol.dev.Table(), c) && Progress(c, was, b, offset, bytes, done, ok)
      ensures ok && done == |bytes| ==> |b| >= offset + |bytes| && Bytes(c) == Splice(b, offset, bytes)
      ensures OthersKept(vol.dev.Table(), c, vol.spc, was, vol.data[..])
    {
      WholeSplice(b, offset, bytes);
    }

    /**
      fat32_fs_write: a range of the file is written over, and nothing else, as long as at most 255
      whole sectors lie in it.
     */
    method WriteFile(slot: U32, size: U32, offset: U32, bytes: seq<Byte>, ghost c: seq<nat>) returns (code: Code)
      requires vol.Shape() && Holds(slot, c, size) && |bytes| < 0x1_0000_0000
      modifies vol.data
      ensures bytes == [] ==> code == Success && Bytes(c) == old(Bytes(c))
      ensures bytes != [] && offset + |bytes| > size ==> code == InvalidRange && Bytes(c) == old(Bytes(c))
      ensures code == Success <==> bytes == [] || (offset + |bytes| <= size && MiddleSectors(offset, |bytes|) <= 255)
      ensures code == Success && bytes != [] ==>
        |old(Bytes(c))| >= offset + |bytes| && Bytes(c) == Splice(old(Bytes(c)), offset, bytes)
      ensures OthersKept(vol.dev.Table(), c, vol.spc, old(vol.data[..]), vol.data[..])
    {
      hide Times, Quot, Rem, FileSectors, At, IsChain, OthersKept, Flat, Splice, Progress, Bytes;
      Sizes(c);
      vol.NothingChanged(c, vol.data[..]);
      if bytes == [] {
        return Success;
      }
      var end: U32 := (offset + |bytes|) % 0x1_0000_0000;
      if offset >= size || end > size || end < offset {
        return InvalidRange;
      }
      code := WriteRange(slot, size, offset, bytes, c);
    }

    method WriteRange(slot: U32, size: U32, offset: nat, bytes: seq<Byte>, ghost c: seq<nat>) returns (code: Code)
      requires vol.Shape() && Holds(slot, c, size) && bytes != [] && offset + |bytes| <= size
      modifies vol.data
      ensures code == Success <==> MiddleSectors(offset, |bytes|) <= 255
      ensures code == Success ==>
        |old(Bytes(c))| >= offset + |bytes| && Bytes(c) == Splice(old(Bytes(c)), offset, bytes)
      ensures OthersKept(vol.dev.Table(), c, vol.spc, old(vol.data[..]), vol.data[..])
    {
      hide Times, Quot, Rem, FileSectors, At, IsChain, OthersKept, Flat, Splice, Progress, Bytes, HeadLength,
        MiddleSectors;
      Sizes(c);
      ghost var b, was := Bytes(c), vol.data[..];
      NoProgress(c, offset, bytes);
      var done := WriteHead(slot, size, offset, bytes, c, was, b);
      ThreeParts(offset, |bytes|);
      ghost var ok := MiddleSectors(offset, |bytes|) <= 255;
      if |bytes| - done >= 512 {
        var n := (|bytes| - done) / 512 * 512;
        code := WriteMiddle(slot, offset, bytes, done, done + n, c, size, was, b, true);
        done := done + n;
        if code != Success {
          AllDone(c, was, b, offset, bytes, done, ok);
          return;
        }
      }
      if |bytes| - done > 0 {
        WriteEdge(slot, offset, bytes, done, |bytes|, c, size, was, b, true);
        done := |bytes|;
      }
      AllDone(c, was, b, offset, bytes, done, true);
      code := Success;
    }

    /** The bytes before the first sector boundary. */
    method WriteHead(
        slot: U32, size: U32, offset: nat, bytes: seq<Byte>, ghost c: seq<nat>, ghost was: seq<Sector>,
        ghost b: seq<Byte>)
      returns (done: nat)
      requires vol.Shape() && Holds(slot, c, size) && bytes != [] && offset + |bytes| <= size
      requires Progress(c, was, b, offset, bytes, 0, true)
      modifies vol.data
      ensures done == HeadLength(offset, |bytes|) && Progress(c, was, b, offset, bytes, done, true)
    {
      hide Times, Quot, Rem, FileSectors, At, IsChain, OthersKept, Flat, Splice, Progress, Bytes;
      done := 0;
      if offset % 512 > 0 {
        done := if 512 - offset % 512 > |bytes| then |bytes| else 512 - offset % 512;
        WriteEdge(slot, offset, bytes, 0, done, c, size, was, b, true);
      }
    }

    method ReadEdge(slot: U32, at: nat, n: nat, ghost c: seq<nat>, ghost size: nat) returns (code: Code, p: seq<Byte>)
      requires vol.Shape() && Holds(slot, c, size) && at + n <= size && n > 0 && at % 512 + n <= 512
      ensures code == Success && IsRange(p, Bytes(c), at, at + n)
    {
      hide Times, Quot, Rem, FileSectors, At, IsChain;
      Sizes(c);
      code, p := vol.ReadPiece(slot, at / 512, at % 512, n, c);
    }

    method ReadMiddle(slot: U32, at: nat, n: nat, ghost c: seq<nat>, ghost size: nat) returns (code: Code, p: seq<Byte>)
      requires vol.Shape() && Holds(slot, c, size) && at + 512 * n <= size && n > 0 && at % 512 == 0
      ensures code == Success <==> n <= 255
      ensures code == Success ==> IsRange(p, Bytes(c), at, at + 512 * n)
    {
      hide Times, Quot, Rem, FileSectors, At, IsChain, Flat, ReadRun;
      Sizes(c);
      var out;
      code, out := vol.ReadSectors(slot, at / 512, n, c);
      p := Flat(out);
      if n <= 255 {
        ReadRunIs(vol.File(c), at / 512, n, vol.spc);
        FlatRange(vol.File(c), at / 512, at / 512 + n);
      }
    }

    /** `p` is what `b` holds in [i, j). */
    ghost predicate IsRange(p: seq<Byte>, b: seq<Byte>, i: nat, j: nat) {
      i <= j <= |b| && p == b[i..j]
    }

    lemma RangesJoin(p: seq<Byte>, q: seq<Byte>, b: seq<Byte>, i: nat, j: nat, k: nat)
      requires IsRange(p, b, i, j) && IsRange(q, b, j, k)
      ensures IsRange(p + q, b, i, k)
    {
    }

    /** fat32_fs_read */
    method ReadFile(slot: U32, size: U32, offset: U32, len: U32, ghost c: seq<nat>) returns (code: Code, p: seq<Byte>)
      requires vol.Shape() && Holds(slot, c, size)
      ensures len > 0 && offset + len > size ==> code == InvalidRange
      ensures code == Success <==> len == 0 || (offset + len <= size && MiddleSectors(offset, len) <= 255)
      ensures code == Success ==> if len == 0 then p == [] else IsRange(p, Bytes(c), offset, offset + len)
    {
      hide Times, Quot, Rem, FileSectors, At, IsChain, Flat, Bytes;
      Sizes(c);
      p := [];
      if len == 0 {
        return Success, [];
      }
      var end: U32 := (offset + len) % 0x1_0000_0000;
      if offset >= size || end > size || end < offset {
        return InvalidRange, [];
      }
      code, p := ReadRange(slot, size, offset, len, c);
    }

    method ReadRange(slot: U32, size: U32, offset: nat, len: nat, ghost c: seq<nat>) returns (code: Code, p: seq<Byte>)
      requires vol.Shape() && Holds(slot, c, size) && len > 0 && offset + len <= size
      ensures code == Success <==> MiddleSectors(offset, len) <= 255
      ensures code == Success ==> IsRange(p, Bytes(c), offset, offset + len)
    {
      hide Times, Quot, Rem, FileSectors, At, IsChain, Flat, Bytes, IsRange, HeadLength, MiddleSectors;
      ghost var b := Bytes(c);
      Sizes(c);
      var done;
      done, p := ReadHead(slot, size, offset, len, c);
      ThreeParts(offset, len);
      if len - done >= 512 {
        var n, q := (len - done) / 512, [];
        code, q := ReadMiddle(slot, offset + done, n, c, size);
        if code != Success {
          return;
        }
        RangesJoin(p, q, b, offset, offset + done, offset + done + 512 * n);
        p := p + q;
        done := done + 512 * n;
      }
      if len - done > 0 {
        var q;
        code, q := ReadEdge(slot, offset + done, len - done, c, size);
        RangesJoin(p, q, b, offset, offset + done, offset + len);
        p := p + q;
      }
      code := Success;
    }

    /** The bytes before the first sector boundary. */
    method ReadHead(slot: U32, size: U32, offset: nat, len: nat, ghost c: seq<nat>) returns (done: nat, p: seq<Byte>)
      requires vol.Shape() && Holds(slot, c, size) && len > 0 && offset + len <= size
      ensures done == HeadLength(offset, len) && IsRange(p, Bytes(c), offset, offset + done)
    {
      hide Times, Quot, Rem, FileSectors, At, IsChain, Flat, Bytes, IsRange;
      Sizes(c);
      EmptyRange(Bytes(c), offset);
      done, p := 0, [];
      if offset % 512 > 0 {
        done := if 512 - offset % 512 > len then len else 512 - offset % 512;
        var code;
        code, p := ReadEdge(slot, offset, done, c, size);
      }
    }

    lemma EmptyRange(b: seq<Byte>, i: nat)
      requires i <= |b|
      ensures IsRange([], b, i, i)
    {
    }

    // -------------------------------------------------------------------------
    // Changing the size
    // -------------------------------------------------------------------------

    /** fat32_fs_resize: the bytes that the old and the new chain both have room for stay the same. */
    method ResizeFile(slot: U32, bytes: U32, ghost c: seq<nat>) returns (code: Code, ghost d: seq<nat>)
      requires vol.Shape() && vol.dev.Valid() && IsChain(vol.dev.Table(), c) && c[0] == Masked(slot)
      modifies vol.dev`fill, vol.dev`drawn, vol.dev.fat, vol.dev.freeQ
      ensures vol.dev.Valid()
      ensures code == Success ==>
        IsChain(vol.dev.Table(), d) && |d| == ClustersFor(bytes, vol.spc) && Holds(slot, d, bytes)
      ensures code == Success ==> Replaced(old(vol.dev.Table()), vol.dev.Table(), c, d)
      ensures code == Success ==>
        forall i :: 0 <= i < |Bytes(d)| && i < |old(Bytes(c))| ==> Bytes(d)[i] == old(Bytes(c))[i]
      ensures code != Success ==> ClustersFor(bytes, vol.spc) > |c|
      ensures code == NoSpace ==> vol.dev.Table() == old(vol.dev.Table())
      ensures code == NoSpace ==>
        vol.dev.Exhausted(old(vol.dev.fat[..]), ClustersFor(bytes, vol.spc) - |c|)
      ensures |c| + old(vol.dev.fill) >= ClustersFor(bytes, vol.spc) && old(vol.dev.Inside()) ==> code == Success
      ensures code in {Success, NoSpace, Unknown}
      ensures code == Unknown ==> !Tight(vol.dev.sectorsPerFat, vol.dev.numSlots)
    {
      hide IsChain, Replaced, Flat, FileSectors, Bytes, Times;
      ghost var f := vol.dev.Table();
      NotEmpty(f, c);
      BytesAre(c);
      var n := ClustersFor(bytes, vol.spc);
      ClustersSuffice(bytes, vol.spc);
      code, d := vol.dev.ResizeChain(slot, n, c);
      if code == Success {
        SameHead(f, vol.dev.Table(), c, d);
        PrefixKept(f, vol.dev.Table(), c, d, vol.spc, vol.data[..]);
        BytesAre(d);
      }
      if code != Success && code != NoSpace {
        code := Unknown;
      }
    }

    lemma BytesAre(d: seq<nat>)
      requires vol.Shape() && IsChain(vol.dev.Table(), d)
      ensures Bytes(d) == Flat(FileSectors(vol.dev.Table(), d, vol.spc, vol.data[..]))
    {
    }
  }

  lemma NotEmpty(f: Fat, c: seq<nat>)
    requires IsChain(f, c)
    ensures c != []
  {
  }

  lemma SameHead(f: Fat, g: Fat, c: seq<nat>, d: seq<nat>)
    requires Replaced(f, g, c, d) && d != [] && c != [] && (if |d| <= |c| then d == c[..|d|] else d[..|c|] == c)
    ensures IsChain(g, d) && d[0] == c[0]
  {
  }

  /** Where two chains begin alike, so do their files. */
  lemma PrefixKept(f: Fat, g: Fat, c: seq<nat>, d: seq<nat>, spc: nat, data: seq<Sector>)
    requires Fitting(f, c, spc, data) && Fitting(g, d, spc, data)
    requires forall k :: 0 <= k < |c| && k < |d| ==> c[k] == d[k]
    ensures var a, b := Flat(FileSectors(f, c, spc, data)), Flat(FileSectors(g, d, spc, data));
      forall i :: 0 <= i < |a| && i < |b| ==> b[i] == a[i]
  {
    var v, w := FileSectors(f, c, spc, data), FileSectors(g, d, spc, data);
    forall k | 0 <= k < |v| && k < |w|
      ensures w[k] == v[k]
    {
      AtInside(f, c, spc, k);
      AtInside(g, d, spc, k);
    }
  }
}
