/**
  Walking through a directory: the next sequence, its short-name entry, its long name, and searching.
 */
module FatDirReads {
  import opened RawMemory
  import opened FatChains
  import opened FatDevices
  import opened FatLayout
  import opened FatFiles
  import opened FatDirEntries
  import opened FatDirShape
  import opened FatDirVolumes

  datatype DirCode = Ok | Empty | Malformed | Invalid | Failed | Rejected | Full

  function FirstNotFree(d: seq<Entry>, i: nat): (k: nat)
    requires i <= |d|
    ensures i <= k <= |d| && AllFree(d, i, k) && (k < |d| ==> KindOf(d[k]) != Free)
    decreases |d| - i
  {
    if i == |d| || KindOf(d[i]) != Free then i else FirstNotFree(d, i + 1)
  }

  function FirstNotLfn(d: seq<Entry>, i: nat): (k: nat)
    requires i <= |d|
    ensures i <= k <= |d| && (forall p :: i <= p < k ==> KindOf(d[p]) == Lfn) && (k < |d| ==> KindOf(d[k]) != Lfn)
    decreases |d| - i
  {
    if i == |d| || KindOf(d[i]) != Lfn then i else FirstNotLfn(d, i + 1)
  }

  /** `j` is the first file of that long name, and `start` where it begins; or no file has the name. */
  ghost predicate FirstNamed(d: seq<Entry>, lfn: seq<Char16>, code: DirCode, start: nat, j: nat) {
    && (code == Ok || code == Empty)
    && (code == Ok ==>
          && j in Files(d) && NameBefore(d, j) == lfn && start == SeqStart(d, j)
          && forall i :: i in Files(d) && NameBefore(d, i) == lfn ==> j <= i)
    && (code == Empty ==> forall i :: i in Files(d) ==> NameBefore(d, i) != lfn)
  }

  /** The same of a short name with its extension. */
  ghost predicate FirstCalled(d: seq<Entry>, name: seq<Byte>, code: DirCode, start: nat, j: nat) {
    && (code == Ok || code == Empty)
    && (code == Ok ==>
          && j in Files(d) && d[j][..11] == name && start == SeqStart(d, j)
          && forall i :: i in Files(d) && d[i][..11] == name ==> j <= i)
    && (code == Empty ==> forall i :: i in Files(d) ==> d[i][..11] != name)
  }

  class FatDirReader {
    const io: FatDirVolume

    constructor (io: FatDirVolume)
      ensures this.io == io
    {
      this.io := io;
    }

    ghost predicate Heads(slot: U32, c: seq<nat>)
      requires io.vol.Shape()
      reads io.vol.dev.fat
    {
      IsChain(io.vol.dev.Table(), c) && c[0] == Masked(slot)
    }

    /** The cluster of entry `k`. */
    method FindCluster(slot: U32, k: nat, ghost c: seq<nat>) returns (code: Code, iter: nat)
      requires io.vol.Shape() && Heads(slot, c)
      ensures var j := Quot(k, 16 * io.vol.spc);
        if k < |io.Entries(c)| then code == Success && j < |c| && iter == c[j]
          && Times(j, 16 * io.vol.spc) + Rem(k, 16 * io.vol.spc) == k
        else code == InvalidIndex
    {
      hide Times, Quot, Rem, IsChain, FileSectors;
      var per := 16 * io.vol.spc;
      DivBack(k, per);
      ClusterOf(c, per, k);
      WalkIndexes(io.vol.dev.Table(), c, Quot(k, per));
      code, iter := io.vol.dev.Traverse(slot, Quot(k, per));
    }

    method EntryAt(slot: U32, k: nat, ghost c: seq<nat>) returns (e: Entry)
      requires io.vol.Shape() && Heads(slot, c) && k < |io.Entries(c)|
      ensures e == io.Entries(c)[k]
    {
      hide Times, Quot, Rem, IsChain, FileSectors;
      var found, iter := FindCluster(slot, k, c);
      var got;
      got, e := io.ReadEntry(iter, Rem(k, 16 * io.vol.spc), c, Quot(k, 16 * io.vol.spc));
    }

    /** The link of cluster `j`: on a chain it is the next cluster, or the end. */
    method NextCluster(iter: nat, ghost c: seq<nat>, ghost j: nat) returns (next: Slot)
      requires io.vol.Shape() && IsChain(io.vol.dev.Table(), c) && j < |c| && iter == c[j]
      ensures IsEoc(next) <==> j + 1 == |c|
      ensures !IsEoc(next) ==> InRange(io.vol.dev.Table(), next) && next == c[j + 1]
      ensures Times(j + 1, 16 * io.vol.spc) == Times(j, 16 * io.vol.spc) + 16 * io.vol.spc <= |io.Entries(c)|
      ensures j + 1 == |c| ==> Times(j + 1, 16 * io.vol.spc) == |io.Entries(c)|
    {
      hide FileSectors;
      ghost var f := io.vol.dev.Table();
      assert LinkAt(f, c, j) && (j + 1 < |c| ==> LinkAt(f, c, j + 1));
      MulMono(j + 1, |c|, 16 * io.vol.spc);
      var code;
      code, next := io.vol.dev.GetSlot(iter);
    }

    /** fat32_next_dir_seq: the first used entry from `offset` on, if it comes before the end. */
    method NextSeq(slot: U32, offset: nat, ghost c: seq<nat>) returns (code: DirCode, start: nat)
      requires io.vol.Shape() && Heads(slot, c)
      ensures offset >= |io.Entries(c)| ==> code == Empty
      ensures offset < |io.Entries(c)| ==>
        var d := io.Entries(c); var k := FirstNotFree(d, offset);
        if k < |d| && KindOf(d[k]) != Term then code == Ok && start == k else code == Empty
    {
      hide Times, Quot, Rem, IsChain, FileSectors, KindOf, AllFree, FirstNotFree;
      var found, iter := FindCluster(slot, offset, c);
      if found == InvalidIndex {
        return Empty, 0;
      }
      var per, checked, first := 16 * io.vol.spc, 0, Rem(offset, 16 * io.vol.spc);
      ghost var d, j := io.Entries(c), Quot(offset, per);
      while true
        invariant j < |c| && iter == c[j] && 0 <= first <= per && offset + checked == Times(j, per) + first <= |d|
        invariant FirstNotFree(d, offset) == FirstNotFree(d, offset + checked)
        decreases |c| - j
      {
        ghost var at := offset + checked;
        var next := NextCluster(iter, c, j);
        var used, i, term := ScanCluster(iter, first, c, j);
        checked := checked + (i - first);
        SkipFree(d, at, offset + checked);
        StopsHere(d, offset + checked);
        if used {
          return if term then Empty else Ok, offset + checked;
        }
        if IsEoc(next) {
          return Empty, 0;
        }
        iter := next;
        j := j + 1;
        first := 0;
      }
    }

    /** The entries of one cluster from `first` on, up to one that is not free. */
    method ScanCluster(iter: nat, first: nat, ghost c: seq<nat>, ghost j: nat) returns (used: bool, i: nat, term: bool)
      requires io.vol.Shape() && IsChain(io.vol.dev.Table(), c) && j < |c| && iter == c[j] && first <= 16 * io.vol.spc
      requires Times(j, 16 * io.vol.spc) + 16 * io.vol.spc <= |io.Entries(c)|
      ensures first <= i <= 16 * io.vol.spc
      ensures AllFree(io.Entries(c), Times(j, 16 * io.vol.spc) + first, Times(j, 16 * io.vol.spc) + i)
      ensures !used ==> i == 16 * io.vol.spc
      ensures used ==> i < 16 * io.vol.spc && KindOf(io.Entries(c)[Times(j, 16 * io.vol.spc) + i]) != Free
      ensures used ==> (term <==> KindOf(io.Entries(c)[Times(j, 16 * io.vol.spc) + i]) == Term)
    {
      hide Times, Quot, Rem, IsChain, FileSectors, KindOf;
      ghost var d, at := io.Entries(c), Times(j, 16 * io.vol.spc);
      i := first;
      while i < 16 * io.vol.spc
        invariant first <= i <= 16 * io.vol.spc && AllFree(d, at + first, at + i)
      {
        var got, e := io.ReadEntry(iter, i, c, j);
        if KindOf(e) != Free {
          return true, i, KindOf(e) == Term;
        }
        i := i + 1;
      }
      return false, i, false;
    }

    /** fat32_get_dir_seq_sfn: the short-name entry that ends the sequence `offset` lies in. */
    method SeqSfn(slot: U32, offset: nat, ghost c: seq<nat>) returns (code: DirCode, sfn: nat)
      requires io.vol.Shape() && Heads(slot, c)
      ensures offset >= |io.Entries(c)| ==> code == Invalid
      ensures offset < |io.Entries(c)| ==>
        var d := io.Entries(c); var k := FirstNotLfn(d, offset);
        if k < |d| && KindOf(d[k]) == Sfn && k - offset <= MAX_LFN_ENTRIES then code == Ok && sfn == k
          else code == Malformed
    {
      hide Times, Quot, Rem, IsChain, FileSectors, KindOf, FirstNotLfn;
      var found, iter := FindCluster(slot, offset, c);
      if found == InvalidIndex {
        return Invalid, 0;
      }
      var per, base := 16 * io.vol.spc, Rem(offset, 16 * io.vol.spc);
      ghost var d, j := io.Entries(c), Quot(offset, per);
      var i := base;
      while true
        invariant base <= i <= base + MAX_LFN_ENTRIES + 1 && Times(j, per) + i == offset + (i - base) <= |d|
        invariant FirstNotLfn(d, offset) == FirstNotLfn(d, offset + (i - base))
        decreases base + 30 - i
      {
        if i - base >= MAX_LFN_ENTRIES + 1 {
          LfnFurther(d, offset + (i - base));
          return Malformed, 0;
        }
        LfnStep(d, offset + (i - base));
        var got, e := io.ReadEntry(iter, i, c, j);
        if got == InvalidIndex {
          return Malformed, 0;
        }
        if KindOf(e) == Free || KindOf(e) == Term {
          return Malformed, 0;
        }
        if KindOf(e) == Sfn {
          return Ok, offset + (i - base);
        }
        i := i + 1;
      }
    }

    /** The characters of one entry behind those of `name`; `done` when it ends the name. */
    method TakeChars(e: Entry, name: seq<Char16>) returns (longer: seq<Char16>, done: bool)
      ensures longer == name + EntryChars(e, 0) && (done <==> |EntryChars(e, 0)| < 13)
    {
      longer := name;
      var i := 0;
      assert name + EntryChars(e, 0) == longer + EntryChars(e, 0);
      while i < 13
        invariant 0 <= i <= 13 && |longer| == |name| + i
        invariant name + EntryChars(e, 0) == longer + EntryChars(e, i)
      {
        if CharAt(e, i) == 0 {
          return longer, true;
        }
        assert longer + ([CharAt(e, i)] + EntryChars(e, i + 1)) == (longer + [CharAt(e, i)]) + EntryChars(e, i + 1);
        longer := longer + [CharAt(e, i)];
        i := i + 1;
      }
      done := false;
    }

    /**
      Clusters are stepped back until twenty entries fit before the entry, or there is no cluster left.
     */
    method Window(sfn: nat, ghost c: seq<nat>) returns (steps: nat, offset: nat)
      requires io.vol.Shape() && IsChain(io.vol.dev.Table(), c)
      ensures Times(steps, 16 * io.vol.spc) + offset == sfn && (steps == 0 || offset >= MAX_LFN_ENTRIES)
      ensures sfn < |io.Entries(c)| ==> steps < |c|
    {
      hide Times, Quot, Rem, IsChain, FileSectors;
      var per := 16 * io.vol.spc;
      steps, offset := Quot(sfn, per), Rem(sfn, per);
      DivBack(sfn, per);
      ClusterOf(c, per, sfn);
      while offset < MAX_LFN_ENTRIES && steps > 0
        invariant 0 <= offset && Times(steps, per) + offset == sfn && steps <= Quot(sfn, per)
        decreases steps
      {
        OneClusterBack(steps, per);
        steps := steps - 1;
        offset := offset + per;
      }
    }

    /** fat32_get_dir_seq_lfn: the long name of the file whose short-name entry is at `sfn`. */
    method SeqLfn(slot: U32, sfn: nat, ghost c: seq<nat>) returns (code: DirCode, name: seq<Char16>)
      requires io.vol.Shape() && Heads(slot, c)
      ensures sfn >= |io.Entries(c)| ==> code == Failed
      ensures sfn < |io.Entries(c)| && KindOf(io.Entries(c)[sfn]) != Sfn ==> code == Malformed
      ensures sfn < End(io.Entries(c)) && KindOf(io.Entries(c)[sfn]) == Sfn && NameOk(io.Entries(c), sfn) ==>
        name == NameBefore(io.Entries(c), sfn) && code == if name == [] then Empty else Ok
    {
      hide Times, Quot, Rem, IsChain, FileSectors, EndFrom, NameBefore, EntryChars;
      var steps, offset := Window(sfn, c);
      WalkIndexes(io.vol.dev.Table(), c, steps);
      var walked, iter := io.vol.dev.Traverse(slot, steps);
      if walked != Success {
        return Failed, [];
      }
      var got, e := io.ReadEntry(iter, offset, c, steps);
      if got != Success {
        return Failed, [];
      }
      if KindOf(e) != Sfn {
        return Malformed, [];
      }
      code, name := BackTrack(iter, offset, sfn, c, steps);
    }

    method BackTrack(
        iter: nat, top: nat, ghost sfn: nat, ghost c: seq<nat>, ghost steps: nat) returns (code: DirCode,
        name: seq<Char16>)
      requires io.vol.Shape() && IsChain(io.vol.dev.Table(), c) && steps < |c| && iter == c[steps]
      requires Times(steps, 16 * io.vol.spc) + top == sfn < |io.Entries(c)| && (steps == 0 || top >= MAX_LFN_ENTRIES)
      ensures sfn < End(io.Entries(c)) && NameOk(io.Entries(c), sfn) ==>
        name == NameBefore(io.Entries(c), sfn) && code == if name == [] then Empty else Ok
    {
      hide Times, Quot, Rem, IsChain, FileSectors, EndFrom, NameBefore, LfnRun, EntryChars, NameOk, BackOk;
      ghost var d := io.Entries(c);
      ghost var good := sfn < End(d) && NameOk(d, sfn);
      var offset, done := top, false;
      name := [];
      BackStart(d, sfn);
      NoClusters(16 * io.vol.spc);
      while !done && offset > 0
        invariant 0 <= offset <= top && BeforeEnd(d, sfn, good)
        invariant good ==> if done then name == NameBefore(d, sfn) else BackOk(d, sfn, sfn - (top - offset), name)
        decreases offset, !done
      {
        ghost var g := sfn - (top - offset);
        BackStep(d, sfn, g, name, good);
        offset := offset - 1;
        var got, e := io.ReadEntry(iter, offset, c, steps);
        if KindOf(e) == Free || !HasLfnAttrs(e) {
          done := true;
        } else if |name| >= MAX_NAME {
          return Malformed, [];
        } else {
          name, done := TakeChars(e, name);
        }
      }
      if good && !done { BackEnd(d, sfn, sfn - top, name); }
      code := if name == [] then Empty else Ok;
    }

    // -------------------------------------------------------------------------
    // Searching
    // -------------------------------------------------------------------------

    /** The next file from `from` on, as the searches below step through a directory. */
    method NextFile(slot: U32, from: nat, ghost c: seq<nat>) returns (code: DirCode, start: nat, sfn: nat)
      requires io.vol.Shape() && Heads(slot, c) && WellFormed(io.Entries(c), 16 * io.vol.spc)
      requires from == 0 || (0 < from <= End(io.Entries(c)) && KindOf(io.Entries(c)[from - 1]) != Lfn)
      ensures code == Ok || code == Empty
      ensures code == Ok ==> from <= sfn && sfn in Files(io.Entries(c)) && sfn < End(io.Entries(c)) <= |io.Entries(c)|
      ensures code == Ok ==> start == SeqStart(io.Entries(c), sfn) && KindOf(io.Entries(c)[sfn]) != Lfn
      ensures code == Ok ==> forall i :: i in Files(io.Entries(c)) && i >= from ==> i >= sfn
      ensures code == Empty ==> forall i :: i in Files(io.Entries(c)) ==> i < from
    {
      hide Times, Quot, Rem, IsChain, FileSectors, EndFrom, KindOf, NameBefore, LfnRun;
      ghost var d := io.Entries(c);
      code, start := NextSeq(slot, from, c);
      if code != Ok {
        NoneLeft(d, from);
        return Empty, 0, 0;
      }
      SequenceEnds(d, 16 * io.vol.spc, from, start);
      code, sfn := SeqSfn(slot, start, c);
    }

    method NameOf(slot: U32, sfn: nat, ghost c: seq<nat>) returns (code: DirCode, name: seq<Char16>)
      requires io.vol.Shape() && Heads(slot, c) && WellFormed(io.Entries(c), 16 * io.vol.spc)
      requires sfn in Files(io.Entries(c))
      ensures name == NameBefore(io.Entries(c), sfn) && code == if name == [] then Empty else Ok
    {
      hide Times, Quot, Rem, IsChain, FileSectors, EndFrom, NameBefore, LfnRun;
      assert EntryOk(io.Entries(c), End(io.Entries(c)), sfn);
      code, name := SeqLfn(slot, sfn, c);
    }

    /**
      fat32_find_lfn: the file with the lowest position among those with that name, or none exactly when
      no file has it. A name is not empty and at most 255 characters long.
     */
    method FindLfn(slot: U32, lfn: seq<Char16>, ghost c: seq<nat>) returns (code: DirCode, start: nat, ghost j: nat)
      requires io.vol.Shape() && Heads(slot, c) && WellFormed(io.Entries(c), 16 * io.vol.spc)
      ensures lfn == [] || |lfn| > MAX_NAME ==> code == Rejected
      ensures 0 < |lfn| <= MAX_NAME ==> FirstNamed(io.Entries(c), lfn, code, start, j)
    {
      hide Times, Quot, Rem, IsChain, FileSectors, EndFrom, KindOf, NameBefore, LfnRun, Files, WellFormed;
      j := 0;
      if lfn == [] || |lfn| > MAX_NAME {
        return Rejected, 0, 0;
      }
      ghost var d := io.Entries(c);
      hide NoneNamed, NextNamed, FirstNamed;
      NoneBefore(d, lfn);
      var from := 0;
      while true
        invariant from == 0 || (0 < from <= End(d) && KindOf(d[from - 1]) != Lfn)
        invariant NoneNamed(d, lfn, from)
        decreases |d| - from
      {
        var sfn;
        code, start, sfn := TryNext(slot, from, lfn, c);
        NamedOn(d, lfn, from, start, sfn, code);
        if code != Invalid {
          return code, start, sfn;
        }
        from := sfn + 1;
      }
    }

    /** The next file: `Ok` if it has the name, `Invalid` if it has not, and `Empty` if there is none. */
    method TryNext(slot: U32, from: nat, lfn: seq<Char16>, ghost c: seq<nat>)
      returns (code: DirCode, start: nat, sfn: nat)
      requires io.vol.Shape() && Heads(slot, c) && WellFormed(io.Entries(c), 16 * io.vol.spc) && lfn != []
      requires from == 0 || (0 < from <= End(io.Entries(c)) && KindOf(io.Entries(c)[from - 1]) != Lfn)
      ensures code in {Ok, Empty, Invalid} && NextNamed(io.Entries(c), lfn, from, sfn, code)
      ensures code != Empty ==> sfn < End(io.Entries(c)) <= |io.Entries(c)| && KindOf(io.Entries(c)[sfn]) != Lfn
      ensures code != Empty ==> from <= sfn && start == SeqStart(io.Entries(c), sfn)
    {
      hide Times, Quot, Rem, IsChain, FileSectors, EndFrom, KindOf, NameBefore, LfnRun, Files, WellFormed;
      code, start, sfn := NextFile(slot, from, c);
      if code == Ok {
        var name;
        code, name := NameOf(slot, sfn, c);
        code := if code == Ok && name == lfn then Ok else Invalid;
      }
    }

    /** fat32_find_sfn: the same for the eleven bytes of a short name and its extension. */
    method FindSfn(slot: U32, name: seq<Byte>, ghost c: seq<nat>) returns (code: DirCode, start: nat, ghost j: nat)
      requires io.vol.Shape() && Heads(slot, c) && WellFormed(io.Entries(c), 16 * io.vol.spc) && |name| == 11
      ensures FirstCalled(io.Entries(c), name, code, start, j)
    {
      hide Times, Quot, Rem, IsChain, FileSectors, EndFrom, KindOf, NameBefore, LfnRun, Files, WellFormed;
      j := 0;
      ghost var d := io.Entries(c);
      hide NoneCalled, NextCalled, FirstCalled;
      NoneCalledBefore(d, name);
      var from := 0;
      while true
        invariant from == 0 || (0 < from <= End(d) && KindOf(d[from - 1]) != Lfn)
        invariant NoneCalled(d, name, from)
        decreases |d| - from
      {
        var sfn;
        code, start, sfn := TryShort(slot, from, name, c);
        CalledOn(d, name, from, start, sfn, code);
        if code != Invalid {
          return code, start, sfn;
        }
        from := sfn + 1;
      }
    }

    /** The same look at the next file, for its short name. */
    method TryShort(slot: U32, from: nat, name: seq<Byte>, ghost c: seq<nat>)
      returns (code: DirCode, start: nat, sfn: nat)
      requires io.vol.Shape() && Heads(slot, c) && WellFormed(io.Entries(c), 16 * io.vol.spc) && |name| == 11
      requires from == 0 || (0 < from <= End(io.Entries(c)) && KindOf(io.Entries(c)[from - 1]) != Lfn)
      ensures code in {Ok, Empty, Invalid} && NextCalled(io.Entries(c), name, from, sfn, code)
      ensures code != Empty ==> sfn < End(io.Entries(c)) <= |io.Entries(c)| && KindOf(io.Entries(c)[sfn]) != Lfn
      ensures code != Empty ==> from <= sfn && start == SeqStart(io.Entries(c), sfn)
    {
      hide Times, Quot, Rem, IsChain, FileSectors, EndFrom, KindOf, NameBefore, LfnRun, Files, WellFormed;
      code, start, sfn := NextFile(slot, from, c);
      if code == Ok {
        var e := EntryAt(slot, sfn, c);
        code := if e[..11] == name then Ok else Invalid;
      }
    }
  }

  /** No file below `from` has the name. */
  ghost predicate NoneNamed(d: seq<Entry>, lfn: seq<Char16>, from: nat) {
    forall i :: i in Files(d) && i < from ==> i < |d| && NameBefore(d, i) != lfn
  }

  /** What a look at the first file from `from` on, at `sfn`, has found. */
  ghost predicate NextNamed(d: seq<Entry>, lfn: seq<Char16>, from: nat, sfn: nat, code: DirCode) {
    && (code == Empty ==> forall i :: i in Files(d) ==> i < from)
    && (code != Empty ==> sfn in Files(d) && sfn < |d| && (forall i :: i in Files(d) && i >= from ==> i >= sfn)
                          && (code == Ok <==> NameBefore(d, sfn) == lfn))
  }

  ghost predicate NoneCalled(d: seq<Entry>, name: seq<Byte>, from: nat) {
    forall i :: i in Files(d) && i < from ==> i < |d| && d[i][..11] != name
  }

  ghost predicate NextCalled(d: seq<Entry>, name: seq<Byte>, from: nat, sfn: nat, code: DirCode) {
    && (code == Empty ==> forall i :: i in Files(d) ==> i < from)
    && (code != Empty ==> sfn in Files(d) && sfn < |d| && (forall i :: i in Files(d) && i >= from ==> i >= sfn)
                          && (code == Ok <==> d[sfn][..11] == name))
  }

  lemma NoneCalledBefore(d: seq<Entry>, name: seq<Byte>)
    ensures NoneCalled(d, name, 0)
  {
  }

  lemma CalledOn(d: seq<Entry>, name: seq<Byte>, from: nat, start: nat, sfn: nat, code: DirCode)
    requires NoneCalled(d, name, from) && NextCalled(d, name, from, sfn, code)
    requires code == Ok ==> sfn < |d| && start == SeqStart(d, sfn)
    ensures code == Ok || code == Empty ==> FirstCalled(d, name, code, start, sfn)
    ensures code != Ok && code != Empty ==> NoneCalled(d, name, sfn + 1)
  {
    forall i | i in Files(d) && i < sfn + 1 && code != Ok && code != Empty
      ensures i < |d| && d[i][..11] != name
    {
      if i >= from { assert i == sfn; }
    }
  }

  /** One entry of the scan for the end of a sequence. */
  lemma LfnStep(d: seq<Entry>, k: nat)
    requires k <= |d|
    ensures FirstNotLfn(d, k) == if k == |d| || KindOf(d[k]) != Lfn then k else FirstNotLfn(d, k + 1)
  {
  }

  lemma LfnFurther(d: seq<Entry>, k: nat)
    requires k <= |d|
    ensures k <= FirstNotLfn(d, k) <= |d|
  {
  }

  lemma NoneBefore(d: seq<Entry>, lfn: seq<Char16>)
    ensures NoneNamed(d, lfn, 0)
  {
  }

  lemma NamedOn(d: seq<Entry>, lfn: seq<Char16>, from: nat, start: nat, sfn: nat, code: DirCode)
    requires NoneNamed(d, lfn, from) && NextNamed(d, lfn, from, sfn, code)
    requires code == Ok ==> sfn < |d| && start == SeqStart(d, sfn)
    ensures code == Ok || code == Empty ==> FirstNamed(d, lfn, code, start, sfn)
    ensures code != Ok && code != Empty ==> NoneNamed(d, lfn, sfn + 1)
  {
    hide NameBefore, Files;
    forall i | i in Files(d) && i < sfn + 1 && code != Ok && code != Empty
      ensures i < |d| && NameBefore(d, i) != lfn
    {
      if i >= from { assert i == sfn; }
    }
  }

  /** When the scan for a used entry reaches the end, no file is left. */
  lemma NoneLeft(d: seq<Entry>, from: nat)
    requires from < |d| ==> (var k := FirstNotFree(d, from); k == |d| || KindOf(d[k]) == Term)
    ensures forall i :: i in Files(d) ==> i < from
  {
  }

  /** The first used entry starts a sequence, and its short-name entry is where the sequence ends. */
  lemma SequenceEnds(d: seq<Entry>, per: nat, from: nat, start: nat)
    requires WellFormed(d, per) && from <= start < |d| && AllFree(d, from, start) && KindOf(d[start]) != Free
    requires KindOf(d[start]) != Term
    requires from == 0 || (from <= End(d) && KindOf(d[from - 1]) != Lfn)
    ensures var k := FirstNotLfn(d, start);
      && k < |d| && KindOf(d[k]) == Sfn && k - start <= MAX_LFN_ENTRIES && k in Files(d) && start == SeqStart(d, k)
      && forall i :: i in Files(d) && i >= from ==> i >= k
  {
    hide KindOf, NameBefore, LfnRun, EndFrom;
    var e, k := End(d), FirstNotLfn(d, start);
    assert start < e && k <= e;
    if k > start {
      assert KindOf(d[k - 1]) == Lfn && EntryOk(d, e, k - 1);
    }
    RunIs(d, k, k - start);
    assert EntryOk(d, e, k);
  }

  lemma {:induction false} SkipFree(d: seq<Entry>, a: nat, b: nat)
    requires a <= b <= |d| && AllFree(d, a, b)
    ensures FirstNotFree(d, a) == FirstNotFree(d, b)
    decreases b - a
  {
    if a < b { SkipFree(d, a + 1, b); }
  }

  lemma StopsHere(d: seq<Entry>, k: nat)
    requires k <= |d|
    ensures k == |d| || KindOf(d[k]) != Free ==> FirstNotFree(d, k) == k
  {
  }

  ghost predicate BeforeEnd(d: seq<Entry>, sfn: nat, good: bool) {
    sfn < |d| && (good ==> sfn < End(d) && NameOk(d, sfn))
  }

  /** The long-name entries from `g` on, all full, hold `name`. */
  ghost predicate BackOk(d: seq<Entry>, sfn: nat, g: nat, name: seq<Char16>)
    requires sfn <= |d|
  {
    && g <= sfn && |name| == 13 * (sfn - g)
    && NameBefore(d, sfn) == name + NameBefore(d, g)
    && LfnRun(d, sfn) == sfn - g + LfnRun(d, g)
  }

  lemma BackStart(d: seq<Entry>, sfn: nat)
    requires sfn <= |d|
    ensures BackOk(d, sfn, sfn, [])
  {
    assert [] + NameBefore(d, sfn) == NameBefore(d, sfn);
  }

  lemma BackStep(d: seq<Entry>, sfn: nat, g: nat, name: seq<Char16>, good: bool)
    requires BeforeEnd(d, sfn, good) && 0 < g <= sfn && (good ==> BackOk(d, sfn, g, name))
    ensures good ==> KindOf(d[g - 1]) != Term && |name| < MAX_NAME
    ensures good && KindOf(d[g - 1]) != Lfn ==> NameBefore(d, sfn) == name
    ensures good && KindOf(d[g - 1]) == Lfn ==>
      var chars := EntryChars(d[g - 1], 0);
      if |chars| < 13 then NameBefore(d, sfn) == name + chars else BackOk(d, sfn, g - 1, name + chars)
  {
    hide KindOf, EntryChars;
    if good && KindOf(d[g - 1]) == Lfn && |EntryChars(d[g - 1], 0)| == 13 {
      assert name + (EntryChars(d[g - 1], 0) + NameBefore(d, g - 1))
        == (name + EntryChars(d[g - 1], 0)) + NameBefore(d, g - 1);
    }
  }

  lemma BackEnd(d: seq<Entry>, sfn: nat, g: nat, name: seq<Char16>)
    requires sfn < |d| && NameOk(d, sfn) && g <= sfn && BackOk(d, sfn, g, name)
    requires (g == 0 || sfn - g >= MAX_LFN_ENTRIES)
    ensures NameBefore(d, sfn) == name
  {
    hide KindOf, EntryChars;
    assert name + [] == name;
  }

  lemma NoClusters(per: nat)
    ensures Times(0, per) == 0
  {
  }

  lemma OneClusterBack(steps: nat, per: nat)
    requires steps > 0
    ensures Times(steps, per) == Times(steps - 1, per) + per
  {
  }
}
