/**
  What a change of one directory may do to the rest of the device, and the sequence that is written
  for a new file.
 */
module FatDirSteps {
  import opened RawMemory
  import opened Sectors
  import opened FatChains
  import opened FatLayout
  import opened FatFiles
  import opened FatDirVolumes
  import opened FatDirEntries
  import opened FatDirShape

  // ---------------------------------------------------------------------------
  // The rest of the device
  // ---------------------------------------------------------------------------

  /** Chains apart from `c` are chains still, apart from what `c` has become, and hold the same sectors. */
  ghost predicate Kept(f: Fat, data: seq<Sector>, c: seq<nat>, g: Fat, data': seq<Sector>, c': seq<nat>, spc: nat) {
    && spc > 0 && |g| == |f| && |data| == Times(|f| - 2, spc) && |data'| == |data|
    && forall d {:trigger FileSectors(g, d, spc, data')} {:trigger Disjoint(c, d)} ::
        IsChain(f, d) && Disjoint(c, d) ==>
         IsChain(g, d) && Disjoint(c', d) && FileSectors(g, d, spc, data') == FileSectors(f, d, spc, data)
  }

  /** One chain is replaced, and the others are kept. */
  ghost predicate DirStep(f: Fat, data: seq<Sector>, c: seq<nat>, g: Fat, data': seq<Sector>, c': seq<nat>, spc: nat) {
    IsChain(f, c) && IsChain(g, c') && c[0] == c'[0] && Replaced(f, g, c, c') && Kept(f, data, c, g, data', c', spc)
  }

  lemma ReplacedTwice(f: Fat, g: Fat, h: Fat, c: seq<nat>, d: seq<nat>, e: seq<nat>)
    requires Replaced(f, g, c, d) && Replaced(g, h, d, e)
    ensures Replaced(f, h, c, e)
  {
    hide IsChain;
    assert e != [] ==> IsChain(h, e);
  }

  lemma DirStepTwice(
      f: Fat, a: seq<Sector>, c: seq<nat>, g: Fat, b: seq<Sector>, d: seq<nat>, h: Fat, z: seq<Sector>, e: seq<nat>,
      spc: nat)
    requires DirStep(f, a, c, g, b, d, spc) && DirStep(g, b, d, h, z, e, spc)
    ensures DirStep(f, a, c, h, z, e, spc)
  {
    hide IsChain, Replaced, FileSectors, Disjoint;
    ReplacedTwice(f, g, h, c, d, e);
  }

  /** Writing inside the chain. */
  lemma WriteIsStep(f: Fat, data: seq<Sector>, data': seq<Sector>, c: seq<nat>, spc: nat)
    requires IsChain(f, c) && spc > 0 && |data| == Times(|f| - 2, spc) && |data'| == |data|
    requires OthersKept(f, c, spc, data, data')
    ensures DirStep(f, data, c, f, data', c, spc)
  {
    hide IsChain, FileSectors, Disjoint;
    SameReplaced(f, c);
  }

  lemma SameReplaced(f: Fat, c: seq<nat>)
    requires IsChain(f, c)
    ensures Replaced(f, f, c, c)
  {
    forall i | i in c
      ensures InRange(f, i)
    {
      ChainSlots(f, c, i);
    }
  }

  lemma NothingIsStep(f: Fat, data: seq<Sector>, c: seq<nat>, spc: nat)
    requires IsChain(f, c) && spc > 0 && |data| == Times(|f| - 2, spc)
    ensures DirStep(f, data, c, f, data, c, spc)
  {
    SameReplaced(f, c);
  }

  /** The sectors of a chain do not depend on the rest of the table. */
  lemma SectorsOfChain(f: Fat, g: Fat, d: seq<nat>, spc: nat, data: seq<Sector>)
    requires IsChain(f, d) && IsChain(g, d) && |g| == |f| && spc > 0 && |data| == Times(|f| - 2, spc)
    ensures FileSectors(g, d, spc, data) == FileSectors(f, d, spc, data)
  {
    hide IsChain, At, Times, Quot, Rem;
    forall k | 0 <= k < Times(|d|, spc)
      ensures SectorAt(g, d, spc, data, k) == SectorAt(f, d, spc, data, k)
    {
    }
  }

  // ---------------------------------------------------------------------------
  // One more cluster
  // ---------------------------------------------------------------------------

  /** A free slot taken from `f` is a chain of its own in `g`, and all chains of `f` are as they were. */
  lemma TakenSlot(f: Fat, taken: nat, data: seq<Sector>, data': seq<Sector>, c: seq<nat>, spc: nat)
    requires InRange(f, taken) && f[taken] == 0 && IsChain(f, c) && spc > 0 && |data| == Times(|f| - 2, spc)
    requires |data'| == |data|
    requires OthersKept(f[taken := EOC], [taken], spc, data, data')
    ensures var g := f[taken := EOC];
      && IsChain(g, [taken]) && IsChain(g, c) && Disjoint(c, [taken])
      && FileSectors(g, c, spc, data') == FileSectors(f, c, spc, data)
  {
    hide FileSectors;
    var g := f[taken := EOC];
    OneCluster(f, taken);
    assert Disjoint(c, []);
    OtherChainStays(f, g, [], [taken], c);
    SectorsOfChain(f, g, c, spc, data);
  }

  /** The new cluster, with something written in it, is hung behind the directory's last one. */
  lemma ExtendedIsStep(f: Fat, taken: nat, data: seq<Sector>, data': seq<Sector>, c: seq<nat>, spc: nat)
    requires InRange(f, taken) && f[taken] == 0 && IsChain(f, c) && spc > 0 && |data| == Times(|f| - 2, spc)
    requires |data'| == |data|
    requires OthersKept(f[taken := EOC], [taken], spc, data, data')
    ensures var last := c[|c| - 1]; InRange(f, last) && f[taken := EOC][last] != 0
    ensures DirStep(f, data, c, f[taken := EOC][c[|c| - 1] := taken], data', c + [taken], spc)
  {
    hide FileSectors, IsChain, Replaced;
    ExtendReplaces(f, taken, c);
    var g, last := f[taken := EOC], c[|c| - 1];
    TakenSlot(f, taken, data, data', c, spc);
    var h := g[last := taken];
    forall d | IsChain(f, d) && Disjoint(c, d)
      ensures IsChain(h, d) && Disjoint(c + [taken], d) && FileSectors(h, d, spc, data') == FileSectors(f, d, spc, data)
    {
      TakenSlot(f, taken, data, data', d, spc);
      OtherAfterExtend(f, h, c, c + [taken], d);
      SectorsOfChain(g, h, d, spc, data');
    }
  }

  lemma OtherAfterExtend(f: Fat, h: Fat, c: seq<nat>, c': seq<nat>, d: seq<nat>)
    requires Replaced(f, h, c, c') && IsChain(f, d) && Disjoint(c, d)
    ensures IsChain(h, d) && Disjoint(c', d)
  {
    assert Disjoint(d, c);
    OtherChainStays(f, h, c, c', d);
  }

  lemma ExtendReplaces(f: Fat, taken: nat, c: seq<nat>)
    requires InRange(f, taken) && f[taken] == 0 && IsChain(f, c)
    ensures c != [] && var last := c[|c| - 1];
      InRange(f, last) && f[taken := EOC][last] != 0 && last != taken
    ensures Replaced(f, f[taken := EOC][c[|c| - 1] := taken], c, c + [taken])
    ensures IsChain(f[taken := EOC][c[|c| - 1] := taken], c + [taken])
  {
    var g, last := f[taken := EOC], c[|c| - 1];
    forall i | i in c
      ensures InRange(f, i) && i != taken && f[i] != 0
    {
      ChainSlots(f, c, i);
    }
    ChainFrame(f, g, c);
    assert LinkAt(g, [taken], 0);
    Append(g, c, [taken]);
    assert last in c;
  }

  /** The directory shows its old entries, then those of the new cluster. */
  lemma ExtendedEntries(g: Fat, h: Fat, c: seq<nat>, taken: nat, spc: nat, data: seq<Sector>)
    requires IsChain(g, c) && IsChain(g, [taken]) && IsChain(h, c + [taken]) && |h| == |g| && spc > 0
    requires |data| == Times(|g| - 2, spc)
    requires InRange(g, taken) && IsEoc(h[taken]) && IsChain(h, [taken])
    ensures var v, w := FileSectors(g, c, spc, data), FileSectors(h, c + [taken], spc, data);
      && |w| > |v| && w[..|v|] == v && w[|v|] == FileSectors(g, [taken], spc, data)[0]
  {
    hide IsChain, At, Quot, Rem, Times;
    var d, v, w := c + [taken], FileSectors(g, c, spc, data), FileSectors(h, c + [taken], spc, data);
    LongerChain(|c|, spc);
    forall k | 0 <= k < |v|
      ensures w[k] == v[k]
    {
      ClusterOf(c, spc, k);
      SectorPlace(g, c, spc, data, k);
      SectorPlace(h, d, spc, data, k);
      assert d[Quot(k, spc)] == c[Quot(k, spc)];
    }
    assert d[|c|..] == [taken];
    SuffixSectors(h, d, spc, data, |c|, 0);
    SectorsOfChain(g, h, [taken], spc, data);
  }

  lemma ExtendedDirectory(g: Fat, h: Fat, c: seq<nat>, taken: nat, spc: nat, data: seq<Sector>)
    requires IsChain(g, c) && IsChain(g, [taken]) && IsChain(h, c + [taken]) && |h| == |g| && spc > 0
    requires |data| == Times(|g| - 2, spc)
    requires InRange(g, taken) && IsEoc(h[taken]) && IsChain(h, [taken])
    ensures var a, b := EntriesOf(FileSectors(g, c, spc, data)), EntriesOf(FileSectors(h, c + [taken], spc, data));
      && |b| == |a| + 16 * spc && b[..|a|] == a
      && |EntriesOf(FileSectors(g, [taken], spc, data))| > 0
          && b[|a|] == EntriesOf(FileSectors(g, [taken], spc, data))[0]
  {
    hide IsChain, At, Quot, Rem, Times, FileSectors;
    LongerChain(|c|, spc);
    ExtendedEntries(g, h, c, taken, spc, data);
    EntriesPrefix(FileSectors(g, c, spc, data), FileSectors(h, c + [taken], spc, data));
  }

  lemma LongerChain(n: nat, spc: nat)
    requires spc > 0
    ensures Times(n + 1, spc) == Times(n, spc) + spc && Times(1, spc) == spc
  {
  }

  lemma EntriesPrefix(v: seq<Sector>, w: seq<Sector>)
    requires |w| > |v| && w[..|v|] == v
    ensures |EntriesOf(w)| > |EntriesOf(v)| && EntriesOf(w)[..|EntriesOf(v)|] == EntriesOf(v)
    ensures EntriesOf(w)[|EntriesOf(v)|] == EntryIn([w[|v|]], 0)
  {
    forall k | 0 <= k < 16 * |v|
      ensures EntryIn(w, k) == EntryIn(v, k)
    {
    }
  }

  // ---------------------------------------------------------------------------
  // The entries of a new file
  // ---------------------------------------------------------------------------

  /** fat32_checksum: rotate right and add, over the eleven bytes of the short name. */
  function Checksum(e: Entry, n: nat): Byte
    requires n <= 11
  {
    if n == 0 then 0
    else
      var c := Checksum(e, n - 1) as int;
      ((if c % 2 == 1 then 0x80 else 0) + c / 2 + e[n - 1] as int) % 0x100
  }

  function Blank(order: Byte, sum: Byte): (e: Entry)
    ensures e[0] == order && e[11] == ATTR_LFN
    ensures forall i :: 0 <= i < 13 ==> CharAt(e, i) == 0
  {
    seq(32, b => if b == 0 then order else if b == 11 then ATTR_LFN else if b == 13 then sum else 0)
  }

  /** The first `i` characters from `start` of the name are set. */
  function Filled(e: Entry, name: seq<Char16>, start: nat, i: nat): (r: Entry)
    requires i <= 13 && start + i <= |name|
    ensures r[0] == e[0] && r[11] == e[11]
    ensures forall j :: 0 <= j < 13 ==> CharAt(r, j) == if j < i then name[start + j] else CharAt(e, j)
  {
    if i == 0 then e else SetChar(Filled(e, name, start, i - 1), i - 1, name[start + i - 1])
  }

  function LfnEntry(name: seq<Char16>, k: nat, sum: Byte): (e: Entry)
    requires k < NumLfnEntries(|name|) && |name| <= MAX_NAME
  {
    var n := NumLfnEntries(|name|);
    var end := if k < n - 1 then 13 * k + 13 else |name|;
    Filled(Blank(OrderByte(k, n), sum), name, 13 * k, end - 13 * k)
  }

  /** The sequence in directory order: the last part of the name first, the short-name entry last. */
  function SequenceFor(name: seq<Char16>, sfn: Entry): (q: seq<Entry>)
    requires |name| <= MAX_NAME
    ensures |q| == NumLfnEntries(|name|) + 1
  {
    var n := NumLfnEntries(|name|);
    seq(n + 1, i requires 0 <= i <= n => if i == n then sfn else LfnEntry(name, n - 1 - i, Checksum(sfn, 11)))
  }

  /** The byte offsets of the thirteen characters of a long-name entry: five, six and two of them in a row. */
  const CHAR_OFFSETS := [1, 3, 5, 7, 9, 14, 16, 18, 20, 22, 24, 28, 30]

  lemma {:induction false} FilledElsewhere(e: Entry, name: seq<Char16>, start: nat, i: nat)
    requires i <= 13 && start + i <= |name|
    ensures var r := Filled(e, name, start, i); r[12] == e[12] && r[13] == e[13] && r[26] == e[26] && r[27] == e[27]
    decreases i
  {
    if i > 0 { FilledElsewhere(e, name, start, i - 1); }
  }

  lemma CharsAtOffsets(e: Entry, i: nat)
    requires i < 13
    ensures CharAt(e, i) == e[CHAR_OFFSETS[i]] as int + 0x100 * e[CHAR_OFFSETS[i] + 1] as int
  {
  }

  /**
    The `k`-th entry of a name, byte by byte: its number, counted from 1, with 0x40 on the one that comes first;
    attributes, type, checksum and reserved bytes; and the characters, low byte first, padded with zeros.
   */
  lemma LfnEntryBytes(name: seq<Char16>, k: nat, sum: Byte)
    requires k < NumLfnEntries(|name|) && |name| <= MAX_NAME
    ensures var e, last := LfnEntry(name, k, sum), 13 * k + 13 >= |name|;
      && e[0] as int == k + 1 + (if last then 0x40 else 0)
      && e[11] == 0x0F && e[12] == 0 && e[13] == sum && e[26] == 0 && e[27] == 0
      && forall i {:trigger CHAR_OFFSETS[i]} :: 0 <= i < 13 ==>
           e[CHAR_OFFSETS[i]] as int + 0x100 * e[CHAR_OFFSETS[i] + 1] as int
             == if 13 * k + i < |name| then name[13 * k + i] else 0
  {
    hide CharAt, SetChar;
    var n := NumLfnEntries(|name|);
    var end := if k < n - 1 then 13 * k + 13 else |name|;
    var e := LfnEntry(name, k, sum);
    FilledElsewhere(Blank(OrderByte(k, n), sum), name, 13 * k, end - 13 * k);
    forall i {:trigger CHAR_OFFSETS[i]} | 0 <= i < 13
      ensures e[CHAR_OFFSETS[i]] as int + 0x100 * e[CHAR_OFFSETS[i] + 1] as int
        == if 13 * k + i < |name| then name[13 * k + i] else 0
    {
      CharsAtOffsets(e, i);
    }
  }

  /** Byte by byte the sum is rotated to the right, its low bit becoming the high one, and the byte is added. */
  lemma ChecksumRotates(e: Entry, n: nat, r: Byte)
    requires n < 11 && r as int % 128 == Checksum(e, n) as int / 2 && r as int / 128 == Checksum(e, n) as int % 2
    ensures Checksum(e, 0) == 0 && Checksum(e, n + 1) as int == (r as int + e[n] as int) % 0x100
  {
  }

  lemma LfnEntryHolds(name: seq<Char16>, k: nat, sum: Byte)
    requires k < NumLfnEntries(|name|) && |name| <= MAX_NAME
    ensures HoldsPart(LfnEntry(name, k, sum), name, k)
    ensures Marked(LfnEntry(name, k, sum)) <==> k == NumLfnEntries(|name|) - 1
  {
  }

  lemma SequenceIs(name: seq<Char16>, sfn: Entry)
    requires |name| <= MAX_NAME && KindOf(sfn) == Sfn
    ensures IsSequence(SequenceFor(name, sfn), name)
  {
    hide LfnEntry, HoldsPart, NumLfnEntries;
    var n, q := NumLfnEntries(|name|), SequenceFor(name, sfn);
    forall i | 0 <= i < n
      ensures HoldsPart(q[i], name, n - 1 - i) && (Marked(q[i]) <==> i == 0)
    {
      LfnEntryHolds(name, n - 1 - i, Checksum(sfn, 11));
    }
  }

  /** Writing the entry before those already written. */
  lemma SpliceBefore(d: seq<Entry>, at: nat, q: seq<Entry>, m: nat)
    requires 0 < m <= |q| && at + |q| <= |d|
    ensures Splice(d, at + m, q[m..])[at + m - 1 := q[m - 1]] == Splice(d, at + m - 1, q[m - 1..])
  {
  }

  lemma PlaceInEntry(k: nat, r: nat)
    requires r < 13
    ensures (13 * k + r) % 13 == r
  {
  }

  /** Setting the characters of a part one by one. */
  method BuildLfnEntry(name: seq<Char16>, k: nat, sum: Byte) returns (e: Entry)
    requires k < NumLfnEntries(|name|) && |name| <= MAX_NAME
    ensures e == LfnEntry(name, k, sum)
  {
    hide SetChar, CharAt, Blank, OrderByte, NumLfnEntries;
    var n := NumLfnEntries(|name|);
    e := Blank(OrderByte(k, n), sum);
    var start, end := 13 * k, if k < n - 1 then 13 * k + 13 else |name|;
    ghost var blank := e;
    var at := start;
    while at < end
      invariant start <= at <= end && e == Filled(blank, name, start, at - start)
    {
      PlaceInEntry(k, at - start);
      e := SetChar(e, at % 13, name[at]);
      at := at + 1;
    }
  }
}
