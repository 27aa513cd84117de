/**
  Reading and writing directory entries in the clusters of a directory.
 */
module FatDirVolumes {
  import opened Sectors
  import opened FatChains
  import opened FatDevices
  import opened FatLayout
  import opened FatFiles
  import opened FatDirEntries

  /** The entries of a sequence of sectors, sixteen in each. */
  function EntryIn(v: seq<Sector>, k: nat): Entry
    requires k < 16 * |v|
  {
    v[k / 16][k % 16 * 32..k % 16 * 32 + 32]
  }

  function EntriesOf(v: seq<Sector>): (d: seq<Entry>)
    ensures |d| == 16 * |v|
    ensures forall k :: 0 <= k < |d| ==> d[k] == EntryIn(v, k)
  {
    seq(16 * |v|, k requires 0 <= k < 16 * |v| => EntryIn(v, k))
  }

  lemma EntryWritten(v: seq<Sector>, k: nat, e: Entry)
    requires k < 16 * |v|
    ensures EntriesOf(v[k / 16 := Splice(v[k / 16], k % 16 * 32, e)]) == EntriesOf(v)[k := e]
  {
    var w := v[k / 16 := Splice(v[k / 16], k % 16 * 32, e)];
    forall i | 0 <= i < 16 * |v|
      ensures EntryIn(w, i) == EntriesOf(v)[k := e][i]
    {
    }
  }

  /** From cluster `j` on, a chain is laid out as the whole is from its sector `j * spc` on. */
  lemma AtSuffix(c: seq<nat>, spc: nat, j: nat, k: nat)
    requires j < |c| && spc > 0 && Quot(k, spc) < |c| - j
    ensures Quot(Times(j, spc) + k, spc) < |c| && At(c, spc, Times(j, spc) + k) == At(c[j..], spc, k)
  {
    DivBack(k, spc);
    assert (j + Quot(k, spc)) * spc == Times(j, spc) + Times(Quot(k, spc), spc);
    DivUnique(Times(j, spc) + k, spc, j + Quot(k, spc), Rem(k, spc));
  }

  lemma SuffixInside(c: seq<nat>, spc: nat, j: nat, k: nat)
    requires j < |c| && spc > 0
    ensures Times(j, spc) + k < Times(|c|, spc) <==> k < Times(|c[j..]|, spc)
  {
    assert |c| * spc == j * spc + (|c| - j) * spc;
  }

  lemma SuffixSectors(f: Fat, c: seq<nat>, spc: nat, data: seq<Sector>, j: nat, k: nat)
    requires Fitting(f, c, spc, data) && j < |c| && Times(j, spc) + k < Times(|c|, spc)
    ensures Fitting(f, c[j..], spc, data) && k < Times(|c[j..]|, spc)
    ensures FileSectors(f, c[j..], spc, data)[k] == FileSectors(f, c, spc, data)[Times(j, spc) + k]
  {
    hide Times, Quot, Rem, At, IsChain;
    ChainFrom(f, c, j);
    SuffixInside(c, spc, j, k);
    ClusterOf(c[j..], spc, k);
    AtSuffix(c, spc, j, k);
    SectorPlace(f, c, spc, data, Times(j, spc) + k);
    SectorPlace(f, c[j..], spc, data, k);
  }

  /** Entry `i` of cluster `j` on, in the whole directory. */
  lemma EntryPlace(j: nat, spc: nat, i: nat)
    ensures Times(j, 16 * spc) == 16 * Times(j, spc)
    ensures (Times(j, 16 * spc) + i) / 16 == Times(j, spc) + i / 16 && (Times(j, 16 * spc) + i) % 16 == i % 16
  {
    assert j * (16 * spc) == 16 * (j * spc);
  }

  class FatDirVolume {
    const vol: FatVolume

    constructor (vol: FatVolume)
      ensures this.vol == vol
    {
      this.vol := vol;
    }

    ghost function Entries(c: seq<nat>): (d: seq<Entry>)
      requires vol.Shape() && IsChain(vol.dev.Table(), c)
      reads vol.dev.fat, vol.data
      ensures |d| == Times(|c|, 16 * vol.spc)
    {
      EntryPlace(|c|, vol.spc, 0);
      EntriesOf(vol.File(c))
    }

    /** fat32_read_dir_entry, from cluster `j` of the directory `c` on. */
    method ReadEntry(iter: nat, i: nat, ghost c: seq<nat>, ghost j: nat) returns (code: Code, e: Entry)
      requires vol.Shape() && IsChain(vol.dev.Table(), c) && j < |c| && iter == c[j]
      ensures var k := Times(j, 16 * vol.spc) + i;
        if k < |Entries(c)| then code == Success && e == Entries(c)[k] else code == InvalidIndex
    {
      hide Times, Quot, Rem, At, IsChain, FileSectors;
      ghost var f, spc, v := vol.dev.Table(), vol.spc, vol.File(c);
      ChainFrom(f, c, j);
      ChainSlots(f, c, iter);
      EntryPlace(j, spc, i);
      SuffixInside(c, spc, j, i / 16);
      var p;
      code, p := vol.ReadPiece(iter, i / 16, i % 16 * 32, 32, c[j..]);
      if code == Success {
        SuffixSectors(f, c, spc, vol.data[..], j, i / 16);
        assert p == EntryIn(v, Times(j, 16 * spc) + i);
        e := p;
      } else {
        e := seq(32, b => 0);
      }
    }

    /** fat32_write_dir_entry */
    method WriteEntry(iter: nat, i: nat, e: Entry, ghost c: seq<nat>, ghost j: nat) returns (code: Code)
      requires vol.Shape() && IsChain(vol.dev.Table(), c) && j < |c| && iter == c[j]
      modifies vol.data
      ensures var k := Times(j, 16 * vol.spc) + i;
        if k < |old(Entries(c))| then code == Success && Entries(c) == old(Entries(c))[k := e]
        else code == InvalidIndex && vol.data[..] == old(vol.data[..])
      ensures OthersKept(vol.dev.Table(), c, vol.spc, old(vol.data[..]), vol.data[..])
    {
      hide Times, Quot, Rem, At, IsChain, FileSectors, OthersKept, Splice;
      ghost var f, spc, v, was := vol.dev.Table(), vol.spc, vol.File(c), vol.data[..];
      ChainFrom(f, c, j);
      ChainSlots(f, c, iter);
      EntryPlace(j, spc, i);
      SuffixInside(c, spc, j, i / 16);
      vol.NothingChanged(c, was);
      code := vol.WritePiece(iter, i / 16, i % 16 * 32, e, c[j..]);
      if code == Success {
        SuffixSectors(f, c, spc, was, j, i / 16);
        ghost var s: Sector := Splice(v[Times(j, spc) + i / 16], i % 16 * 32, e);
        AtSuffix(c, spc, j, i / 16);
        PieceWritten(f, c, spc, was, Times(j, spc) + i / 16, s);
        EntryWritten(v, Times(j, 16 * spc) + i, e);
      }
    }
  }
}
