/**
  Reading and writing files: whole sectors along a cluster chain, pieces of sectors, and byte ranges.
 */
module FatFiles {
  import opened RawMemory
  import opened Sectors
  import opened FatChains
  import opened FatDevices
  import opened FatLayout

  class FatVolume {
    const dev: FatDevice
    const data: array<Sector>
    const spc: nat

    ghost predicate Shape() {
      dev.Shape() && 0 < spc <= 128 && data.Length == Times(dev.numSlots - 2, spc)
    }

    constructor (dev: FatDevice, spc: nat, data: array<Sector>)
      requires dev.Shape() && 0 < spc <= 128 && data.Length == Times(dev.numSlots - 2, spc)
      ensures Shape() && this.dev == dev && this.data == data && this.spc == spc
    {
      this.dev, this.spc, this.data := dev, spc, data;
    }

    /** `c` is the chain that `slot` heads, when it heads one. */
    ghost predicate Heads(slot: U32, c: seq<nat>)
      requires Shape()
      reads dev.fat
    {
      InRange(dev.Table(), Masked(slot)) ==> IsChain(dev.Table(), c) && c[0] == Masked(slot)
    }

    ghost function File(c: seq<nat>): seq<Sector>
      requires Shape() && IsChain(dev.Table(), c)
      reads dev.fat, data
    {
      FileSectors(dev.Table(), c, spc, data[..])
    }

    method PutSectors(at: nat, src: seq<Sector>)
      requires at + |src| <= data.Length
      modifies data
      ensures data[..] == Splice(old(data[..]), at, src)
    {
      var k := 0;
      while k < |src|
        invariant 0 <= k <= |src|
        invariant forall j :: 0 <= j < data.Length ==> data[j] == if at <= j < at + k then src[j - at] else old(data[j])
      {
        data[at + k] := src[k];
        k := k + 1;
      }
    }

    /** fat32_read_write when it writes. */
    method WriteSectors(slot: U32, offset: nat, src: seq<Sector>, ghost c: seq<nat>) returns (code: Code)
      requires Shape() && Heads(slot, c)
      modifies data
      ensures !InRange(dev.Table(), Masked(slot)) ==> code == InvalidIndex && data[..] == old(data[..])
      ensures InRange(dev.Table(), Masked(slot)) && src == [] ==> code == Success && data[..] == old(data[..])
      ensures InRange(dev.Table(), Masked(slot)) && src != [] && offset >= Times(|c|, spc) ==>
        code == InvalidIndex && data[..] == old(data[..])
      ensures InRange(dev.Table(), Masked(slot)) && src != [] && offset < Times(|c|, spc) ==>
        Rem(|File(c)|, spc) == 0 && (code, File(c)) == WriteRun(old(File(c)), offset, src, spc)
      ensures InRange(dev.Table(), Masked(slot)) && src != [] ==>
        (code == Success <==> |src| <= 255 && offset + |src| <= Times(|c|, spc))
      ensures OthersKept(dev.Table(), c, spc, old(data[..]), data[..])
    {
      hide Times, Quot, Rem, FileSectors, WriteRun, OthersKept, SectorAt, Walk, At, NextCluster, IsChain;
      NothingChanged(c, data[..]);
      if Masked(slot) < 2 || Masked(slot) >= dev.numSlots {
        return InvalidIndex;
      }
      if src == [] {
        return Success;
      }
      ghost var f := dev.Table();
      WalkIndexes(f, c, Quot(offset, spc));
      ClusterOf(c, spc, offset);
      var walked, cluster := dev.Traverse(slot, Quot(offset, spc));
      if walked != Success {
        return walked;
      }
      DivBack(offset, spc);
      SizeOf(c);
      WriteSucceeds(File(c), offset, src, spc);
      code := WriteFrom(cluster, Quot(offset, spc), Rem(offset, spc), src, c);
    }

    lemma NothingChanged(c: seq<nat>, d: seq<Sector>)
      requires Shape() && |d| == Times(|dev.Table()| - 2, spc)
      ensures OthersKept(dev.Table(), c, spc, d, d)
    {
    }

    /** The loop over the clusters, from sector `shift` of the cluster at position `index` of the chain. */
    method WriteFrom(
        first: nat, ghost index: nat, shift0: nat, src: seq<Sector>, ghost c: seq<nat>) returns (code: Code)
      requires Shape() && IsChain(dev.Table(), c) && index < |c| && first == c[index] && shift0 < spc && src != []
      modifies data
      ensures Rem(|File(c)|, spc) == 0
      ensures (code, File(c)) == WriteRun(old(File(c)), Times(index, spc) + shift0, src, spc)
      ensures OthersKept(dev.Table(), c, spc, old(data[..]), data[..])
    {
      hide Times, Quot, Rem, FileSectors, WriteRun, OthersKept, SectorAt, At, NextCluster;
      ghost var f := dev.Table();
      ghost var v, idx, was := File(c), index, data[..];
      SizeOf(c);
      NothingChanged(c, was);
      assert src[0..] == src;
      var done, cluster := 0, first;
      while true
        invariant done < |src| && idx < |c| && cluster == c[idx] && OthersKept(f, c, spc, was, data[..])
        invariant WriteRun(v, Times(index, spc) + shift0, src, spc) ==
                  WriteRun(File(c), Times(idx, spc) + if done == 0 then shift0 else 0, src[done..], spc)
        decreases |c| - idx
      {
        assert LinkAt(f, c, idx) && (idx + 1 < |c| ==> LinkAt(f, c, idx + 1));
        var got, next := dev.GetSlot(cluster);
        // a chain holds no bad cluster and no link out of the table
        assert next != BAD_CLUSTER && (IsEoc(next) || InRange(f, next));
        var shift := if done == 0 then shift0 else 0;
        var m := (|src| - done) % 0x100;
        if m > spc - shift {
          m := spc - shift;
        }
        label before:
        WritePart(cluster, idx, shift, m, src[done..], c);
        OthersKeptTwice(f, c, spc, was, old@before(data[..]), data[..]);
        assert src[done..][m..] == src[done + m..];
        done := done + m;
        if done == |src| {
          return Success;
        }
        if IsEoc(next) {
          return InvalidRange;
        }
        cluster := next;
        idx := idx + 1;
      }
    }

    method WritePart(cluster: nat, ghost idx: nat, shift: nat, m: nat, rest: seq<Sector>, ghost c: seq<nat>)
      requires Shape() && IsChain(dev.Table(), c) && idx < |c| && cluster == c[idx] && shift < spc
      requires rest != [] && m == Piece(|rest|, spc - shift)
      modifies data
      ensures Rem(|File(c)|, spc) == 0 && Rem(|old(File(c))|, spc) == 0
      ensures WriteRun(old(File(c)), Times(idx, spc) + shift, rest, spc) ==
        if m == |rest| then (Success, File(c))
        else if idx + 1 == |c| then (InvalidRange, File(c))
        else WriteRun(File(c), Times(idx + 1, spc) + if m == 0 then shift else 0, rest[m..], spc)
      ensures OthersKept(dev.Table(), c, spc, old(data[..]), data[..])
    {
      hide Times, Quot, Rem, FileSectors, WriteRun, OthersKept, SectorAt, At, NextCluster, IsChain;
      SizeOf(c);
      WriteStage(dev.Table(), c, spc, data[..], idx, shift, rest[..m]);
      RunStage(File(c), spc, |c|, idx, shift, rest);
      ChainSlots(dev.Table(), c, cluster);
      PutSectors(Times(cluster - 2, spc) + shift, rest[..m]);
      SizeOf(c);
    }

    /** fat32_read_write when it reads. */
    method ReadSectors(slot: U32, offset: nat, n: nat, ghost c: seq<nat>) returns (code: Code, out: seq<Sector>)
      requires Shape() && Heads(slot, c)
      ensures !InRange(dev.Table(), Masked(slot)) ==> code == InvalidIndex
      ensures InRange(dev.Table(), Masked(slot)) && n == 0 ==> code == Success && out == []
      ensures InRange(dev.Table(), Masked(slot)) && n > 0 && offset >= Times(|c|, spc) ==> code == InvalidIndex
      ensures InRange(dev.Table(), Masked(slot)) && n > 0 && offset < Times(|c|, spc) ==>
        Rem(|File(c)|, spc) == 0 && (code, out) == ReadRun(File(c), offset, n, spc)
      ensures InRange(dev.Table(), Masked(slot)) && n > 0 ==>
        (code == Success <==> n <= 255 && offset + n <= Times(|c|, spc))
    {
      hide Times, Quot, Rem, FileSectors, ReadRun, SectorAt, Walk, At, NextCluster, IsChain;
      out := [];
      if Masked(slot) < 2 || Masked(slot) >= dev.numSlots {
        return InvalidIndex, [];
      }
      if n == 0 {
        return Success, [];
      }
      ghost var f := dev.Table();
      WalkIndexes(f, c, Quot(offset, spc));
      ClusterOf(c, spc, offset);
      var walked, cluster := dev.Traverse(slot, Quot(offset, spc));
      if walked != Success {
        return walked, [];
      }
      DivBack(offset, spc);
      SizeOf(c);
      ReadSucceeds(File(c), offset, n, spc);
      code, out := ReadFrom(cluster, Quot(offset, spc), Rem(offset, spc), n, c);
    }

    method ReadFrom(
        first: nat, ghost index: nat, shift0: nat, n: nat, ghost c: seq<nat>) returns (code: Code, out: seq<Sector>)
      requires Shape() && IsChain(dev.Table(), c) && index < |c| && first == c[index] && shift0 < spc && n > 0
      ensures Rem(|File(c)|, spc) == 0 && (code, out) == ReadRun(File(c), Times(index, spc) + shift0, n, spc)
    {
      hide Times, Quot, Rem, FileSectors, ReadRun, SectorAt, At, NextCluster;
      ghost var f, v, idx := dev.Table(), File(c), index;
      SizeOf(c);
      out := [];
      ghost var all := ReadRun(v, Times(index, spc) + shift0, n, spc);
      FromNothing(all);
      var done, cluster := 0, first;
      while true
        invariant 0 <= done < n && idx < |c| && cluster == c[idx]
        invariant all == After(out, ReadRun(v, Times(idx, spc) + if done == 0 then shift0 else 0, n - done, spc))
        decreases |c| - idx
      {
        assert LinkAt(f, c, idx) && (idx + 1 < |c| ==> LinkAt(f, c, idx + 1));
        var got, next := dev.GetSlot(cluster);
        assert next != BAD_CLUSTER && (IsEoc(next) || InRange(f, next));
        var shift := if done == 0 then shift0 else 0;
        var m := (n - done) % 0x100;
        if m > spc - shift {
          m := spc - shift;
        }
        var p := ReadPart(cluster, idx, shift, m, c);
        ReadStage(v, spc, |c|, idx, shift, n - done);
        if n - done > m && idx + 1 < |c| {
          AfterTwice(out, p, ReadRun(v, Times(idx + 1, spc) + if m == 0 then shift else 0, n - done - m, spc));
        }
        out := out + p;
        done := done + m;
        if done == n {
          return Success, out;
        }
        if IsEoc(next) {
          return InvalidRange, out;
        }
        cluster := next;
        idx := idx + 1;
      }
    }

    method ReadPart(cluster: nat, ghost idx: nat, shift: nat, m: nat, ghost c: seq<nat>) returns (p: seq<Sector>)
      requires Shape() && IsChain(dev.Table(), c) && idx < |c| && cluster == c[idx] && shift < spc && shift + m <= spc
      ensures Times(idx, spc) + shift + m <= |File(c)|
      ensures p == File(c)[Times(idx, spc) + shift..Times(idx, spc) + shift + m]
    {
      hide Times, Quot, Rem, FileSectors, IsChain;
      ReadInCluster(dev.Table(), c, spc, data[..], idx, shift, m);
      ChainSlots(dev.Table(), c, cluster);
      var at := Times(cluster - 2, spc) + shift;
      p := data[at..at + m];
      assert p == data[..][at..at + m];
    }

    // -------------------------------------------------------------------------
    // Pieces of a sector
    // -------------------------------------------------------------------------

    /** The sector of the file that a piece is in, or why there is none. */
    method FindSector(slot: U32, sector: nat, offset: nat, len: nat, ghost c: seq<nat>) returns (code: Code, at: nat)
      requires Shape() && Heads(slot, c)
      ensures code == if offset >= SECTOR_SIZE || offset + len > SECTOR_SIZE then InvalidRange
        else if !InRange(dev.Table(), Masked(slot)) || sector >= Times(|c|, spc) then InvalidIndex else Success
      ensures code == Success ==> sector < |File(c)| && at < data.Length && data[at] == File(c)[sector]
      ensures code == Success ==> Quot(sector, spc) < |c| && at == At(c, spc, sector)
    {
      hide Times, Quot, Rem, Walk, NextCluster, IsChain, FileSectors, At;
      if offset >= SECTOR_SIZE || len > SECTOR_SIZE || offset + len > SECTOR_SIZE {
        return InvalidRange, 0;
      }
      if Masked(slot) < 2 || Masked(slot) >= dev.numSlots {
        return InvalidIndex, 0;
      }
      ghost var f := dev.Table();
      WalkIndexes(f, c, Quot(sector, spc));
      ClusterOf(c, spc, sector);
      var walked, cluster := dev.Traverse(slot, Quot(sector, spc));
      if walked != Success {
        return walked, 0;
      }
      ChainSlots(f, c, cluster);
      var got, value := dev.GetSlot(cluster);
      assert value != BAD_CLUSTER;
      SectorPlace(f, c, spc, data[..], sector);
      return Success, Times(cluster - 2, spc) + Rem(sector, spc);
    }

    method ReadPiece(
        slot: U32, sector: nat, offset: nat, len: nat, ghost c: seq<nat>) returns (code: Code, p: seq<Byte>)
      requires Shape() && Heads(slot, c)
      ensures code == if offset >= SECTOR_SIZE || offset + len > SECTOR_SIZE then InvalidRange
        else if !InRange(dev.Table(), Masked(slot)) || sector >= Times(|c|, spc) then InvalidIndex else Success
      ensures code == Success ==> sector < |File(c)| && p == File(c)[sector][offset..offset + len]
    {
      hide Times, Quot, Rem, FileSectors, At, IsChain;
      var at;
      code, at := FindSector(slot, sector, offset, len, c);
      p := if code == Success then data[at][offset..offset + len] else [];
    }

    method WritePiece(slot: U32, sector: nat, offset: nat, p: seq<Byte>, ghost c: seq<nat>) returns (code: Code)
      requires Shape() && Heads(slot, c)
      modifies data
      ensures code == if offset >= SECTOR_SIZE || offset + |p| > SECTOR_SIZE then InvalidRange
        else if !InRange(dev.Table(), Masked(slot)) || sector >= Times(|c|, spc) then InvalidIndex else Success
      ensures code != Success ==> data[..] == old(data[..])
      ensures code == Success ==> sector < |old(File(c))|
      ensures code == Success ==> File(c) == old(File(c))[sector := Splice(old(File(c))[sector], offset, p)]
      ensures code == Success ==> Quot(sector, spc) < |c| && 0 <= At(c, spc, sector) < data.Length
      ensures code == Success ==>
        data[..] == old(data[..])[At(c, spc, sector) := Splice(old(File(c))[sector], offset, p)]
      ensures OthersKept(dev.Table(), c, spc, old(data[..]), data[..])
    {
      hide Times, Quot, Rem, FileSectors, At, IsChain, OthersKept;
      NothingChanged(c, data[..]);
      var at;
      code, at := FindSector(slot, sector, offset, |p|, c);
      if code == Success {
        ghost var was := data[..];
        var s: Sector := Splice(data[at], offset, p);
        PieceWritten(dev.Table(), c, spc, was, sector, s);
        data[at] := s;
        assert data[..] == was[at := s];
      }
    }

    lemma SizeOf(c: seq<nat>)
      requires Shape() && IsChain(dev.Table(), c)
      ensures |File(c)| == Times(|c|, spc) && Rem(|File(c)|, spc) == 0
    {
      DivUnique(Times(|c|, spc), spc, |c|, 0);
    }
  }

  lemma FromNothing(r: (Code, seq<Sector>))
    ensures After([], r) == r
  {
    assert [] + r.1 == r.1;
  }

  /** Writing one sector of the file. */
  lemma PieceWritten(f: Fat, c: seq<nat>, spc: nat, data: seq<Sector>, k: nat, s: Sector)
    requires Fitting(f, c, spc, data) && k < Times(|c|, spc)
    ensures Quot(k, spc) < |c| && 0 <= At(c, spc, k) < |data|
    ensures FileSectors(f, c, spc, data[At(c, spc, k) := s]) == FileSectors(f, c, spc, data)[k := s]
    ensures OthersKept(f, c, spc, data, data[At(c, spc, k) := s])
  {
    hide FileSectors, SectorAt, IsChain;
    AtInside(f, c, spc, k);
    DivBack(k, spc);
    WriteInCluster(f, c, spc, data, k, [s]);
    var v := FileSectors(f, c, spc, data);
    assert Splice(data, At(c, spc, k), [s]) == data[At(c, spc, k) := s];
    assert Splice(v, k, [s]) == v[k := s];
    forall d | IsChain(f, d) && Disjoint(c, d)
      ensures FileSectors(f, d, spc, data[At(c, spc, k) := s]) == FileSectors(f, d, spc, data)
    {
      OtherFileStays(f, c, d, spc, data, k, [s]);
    }
  }

  lemma DivBack(x: int, d: int)
    requires d > 0
    ensures x == Times(Quot(x, d), d) + Rem(x, d)
  {
  }
}
