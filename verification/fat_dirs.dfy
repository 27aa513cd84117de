/**
  Changing a directory: making room, adding a sequence, erasing one, and making a new directory.
 */
module FatDirs {
  import opened Sectors
  import opened FatChains
  import opened FatDevices
  import opened FatLayout
  import opened FatFiles
  import opened FatDirEntries
  import opened FatDirShape
  import opened FatDirVolumes
  import opened FatDirReads
  import opened FatDirSteps

  /** The terminator, if there is one, is in the last cluster. */
  ghost predicate TermInLast(d: seq<Entry>, per: nat) {
    End(d) < |d| ==> End(d) + per >= |d|
  }

  class FatDir {
    const io: FatDirVolume
    const rd: FatDirReader

    constructor (io: FatDirVolume, rd: FatDirReader)
      requires rd.io == io
      ensures this.io == io && this.rd == rd
    {
      this.io, this.rd := io, rd;
    }

    ghost predicate Shape() {
      rd.io == io && io.vol.Shape()
    }

    ghost function Table(): Fat
      requires Shape()
      reads io.vol.dev.fat
    {
      io.vol.dev.Table()
    }

    ghost function Data(): seq<Sector>
      reads io.vol.data
    {
      io.vol.data[..]
    }

    function Per(): nat {
      16 * io.vol.spc
    }

    // -------------------------------------------------------------------------
    // Making room
    // -------------------------------------------------------------------------

    /** Looks at entry `i` of cluster `j`; a terminator there is pushed back by one entry. */
    method Probe(
        iter: nat, i: nat, ghost c: seq<nat>, ghost j: nat, ghost d0: seq<Entry>) returns (free: bool, e: Entry)
      requires Shape() && IsChain(Table(), c) && j < |c| && iter == c[j] && i < Per()
      requires Times(j, Per()) + Per() <= |io.Entries(c)|
      requires Pushed(d0, io.Entries(c), Times(j, Per()) + i)
      requires Times(j, Per()) + i >= End(d0) ==> j + 1 == |c|
      modifies io.vol.data
      ensures OthersKept(Table(), c, io.vol.spc, old(Data()), Data())
      ensures Pushed(d0, io.Entries(c), Times(j, Per()) + i + 1)
      ensures |io.Entries(c)| == |old(io.Entries(c))| && free == (KindOf(io.Entries(c)[Times(j, Per()) + i]) == Free)
      ensures forall k :: 0 <= k < Times(j, Per()) + i ==> io.Entries(c)[k] == old(io.Entries(c))[k]
    {
      hide Times, Quot, Rem, IsChain, FileSectors, EndFrom, KindOf, OthersKept;
      ghost var d, g, f, was := io.Entries(c), Times(j, Per()) + i, Table(), Data();
      io.vol.NothingChanged(c, was);
      var got;
      got, e := io.ReadEntry(iter, i, c, j);
      LastCluster(j, |c|, Per());
      TermHere(d0, d, g);
      if KindOf(e) == Term {
        if i < Per() - 1 {
          got := io.WriteEntry(iter, i + 1, e, c, j);
        }
        ghost var mid := Data();
        e := WithFirst(e, UNUSED);
        UnusedIsFree(e);
        got := io.WriteEntry(iter, i, e, c, j);
        OthersKeptTwice(f, c, io.vol.spc, was, mid, Data());
        PushedOn(d0, d, io.Entries(c), g);
      } else {
        PassedOn(d0, d, g);
      }
      free := KindOf(e) == Free;
    }

    /** The run of free entries that ends before the entries of the next cluster, and what becomes of it. */
    method ScanCluster(iter: nat, want: nat, run0: Run, chainIndex: nat, ghost c: seq<nat>, ghost d0: seq<Entry>)
      returns (found: bool, run: Run, e: Entry)
      requires Shape() && IsChain(Table(), c) && chainIndex < |c| && iter == c[chainIndex]
      requires want > 0 && Times(chainIndex, Per()) + Per() <= |io.Entries(c)|
      requires Pushed(d0, io.Entries(c), Times(chainIndex, Per()))
      requires Times(chainIndex, Per()) + Per() > End(d0) ==> chainIndex + 1 == |c|
      requires RunOk(io.Entries(c), Times(chainIndex, Per()), want, run0, Per())
      requires Passed(d0, want, Times(chainIndex, Per()) - RunLength(run0))
      modifies io.vol.data
      ensures OthersKept(Table(), c, io.vol.spc, old(Data()), Data())
      ensures |io.Entries(c)| == |old(io.Entries(c))|
      ensures found ==> Room(d0, io.Entries(c), want, run, Per())
      ensures found ==> Passed(d0, want, Times(run.chainIndex, Per()) + run.offset)
      ensures !found ==> Passed(d0, want, Times(chainIndex, Per()) + Per() - RunLength(run))
      ensures found ==>
        Times(chainIndex, Per()) < Times(run.chainIndex, Per()) + run.offset + want <= Times(chainIndex, Per()) + Per()
      ensures !found ==> RunOk(io.Entries(c), Times(chainIndex, Per()) + Per(), want, run, Per())
      ensures !found ==> Pushed(d0, io.Entries(c), Times(chainIndex, Per()) + Per())
      ensures !found && Times(chainIndex, Per()) >= End(d0) ==> RunLength(run) == RunLength(run0) + Per()
    {
      hide Times, Quot, Rem, IsChain, FileSectors, EndFrom, KindOf, OthersKept, Pushed;
      ghost var f, was, at := Table(), Data(), Times(chainIndex, Per());
      io.vol.NothingChanged(c, was);
      run, found := run0, false;
      e := seq(32, b => 0);
      var i := 0;
      while i < Per()
        invariant 0 <= i <= Per() && |io.Entries(c)| == |old(io.Entries(c))|
        invariant OthersKept(f, c, io.vol.spc, was, Data())
        invariant Pushed(d0, io.Entries(c), at + i) && RunOk(io.Entries(c), at + i, want, run, Per())
        invariant at >= End(d0) ==> RunLength(run) == RunLength(run0) + i
        invariant Passed(d0, want, at + i - RunLength(run))
      {
        ghost var d, mid := io.Entries(c), Data();
        var free;
        free, e := Probe(iter, i, c, chainIndex, d0);
        OthersKeptTwice(f, c, io.vol.spc, was, mid, Data());
        RunGoesOn(d0, d, io.Entries(c), at + i, want, run, Per(), chainIndex, i);
        if !free { PassedMore(d0, io.Entries(c), want, at + i, RunLength(run)); }
        if free {
          if !run.inRun {
            run := Run(true, 0, chainIndex, i);
          }
          run := run.(length := run.length + 1);
          if run.length == want {
            return true, run, e;
          }
        } else {
          run := run.(inRun := false);
        }
        i := i + 1;
      }
    }

    /** No free slot is queued or found. */
    ghost predicate NoneLeft()
      requires Shape()
      reads io.vol.dev`fill, io.vol.dev`drawn, io.vol.dev.fat
    {
      io.vol.dev.fill == 0 && io.vol.dev.Barren(io.vol.dev.fat[..], [])
    }

    /** A new cluster, which begins with a terminator, behind the last one of the directory. */
    method ExtendDir(iter: nat, e: Entry, ghost c: seq<nat>) returns (code: Code, next: nat)
      requires Shape() && io.vol.dev.Valid() && IsChain(Table(), c) && iter == c[|c| - 1]
      modifies io.vol.dev`fill, io.vol.dev`drawn, io.vol.dev.fat, io.vol.dev.freeQ, io.vol.data
      ensures io.vol.dev.Valid() && code in {Success, NoSpace, Unknown}
      ensures code != Success ==> Table() == old(Table()) && Data() == old(Data())
      ensures code == Success ==> DirStep(old(Table()), old(Data()), c, Table(), Data(), c + [next], io.vol.spc)
      ensures code == Success ==> |io.Entries(c + [next])| == |old(io.Entries(c))| + Per()
      ensures code == Success ==> io.Entries(c + [next])[..|old(io.Entries(c))|] == old(io.Entries(c))
      ensures code == Success ==> KindOf(io.Entries(c + [next])[|old(io.Entries(c))|]) == Term
      ensures code == Unknown ==> !Tight(io.vol.dev.sectorsPerFat, io.vol.dev.numSlots)
      ensures code == NoSpace ==> NoneLeft()
      ensures old(io.vol.dev.fill) > 0 && old(io.vol.dev.Inside()) ==>
        code == Success && io.vol.dev.fill + 1 == old(io.vol.dev.fill) && io.vol.dev.Inside()
    {
      hide Times, Quot, Rem, At, IsChain, FileSectors, KindOf, OthersKept, Replaced, DirStep, QueueOk, FatDevice.Barren,
        FatDevice.LastTaken, FreeOf, FatDevice.Inside, FatDevice.Limit, Tight;
      ghost var f, data, d := Table(), Data(), io.Entries(c);
      code, next := io.vol.dev.PopFreeSlot();
      assert io.vol.data[..] == data;
      if code != Success {
        return;
      }
      ghost var g := Table();
      OneCluster(f, next);
      SingleChain(g, next, Per());
      var term := WithFirst(e, TERMINATOR);
      ZeroIsTerm(term);
      var put := io.WriteEntry(next, 0, term, [next], 0);
      ghost var data' := Data();
      ExtendedIsStep(f, next, data, data', c, io.vol.spc);
      TakenSlot(f, next, data, data', c, io.vol.spc);
      ghost var slots := io.vol.dev.fat[..];
      var linked := io.vol.dev.SetSlot(iter, next);
      assert Table() == g[iter := next];
      ExtendReplaces(f, next, c);
      SingleChain(Table(), next, Per());
      ExtendedDirectory(g, Table(), c, next, io.vol.spc, data');
      QueueKept(io.vol.dev.freeQ[..io.vol.dev.fill], slots, io.vol.dev.fat[..], io.vol.dev.Limit());
    }

    /** The search has come to the entries of cluster `j` of the directory, which was `c` with entries `d0`. */
    ghost predicate Here(
        f: Fat, data: seq<Sector>, c: seq<nat>, d0: seq<Entry>, c': seq<nat>, j: nat, want: nat, run: Run)
      requires Shape()
      reads io.vol.dev.fat, io.vol.data
    {
      && DirStep(f, data, c, Table(), Data(), c', io.vol.spc) && IsChain(Table(), c') && j < |c'| && |c| <= |c'|
      && Passed(d0, want, Times(j, Per()) - RunLength(run))
      && Pushed(d0, io.Entries(c'), Times(j, Per())) && RunOk(io.Entries(c'), Times(j, Per()), want, run, Per())
      && (Times(j, Per()) + Per() > End(d0) ==> j + 1 == |c'|)
      && (if c' == c then |io.Entries(c')| == |d0| else j + 1 == |c'|)
    }

    method ScanHere(
        iter: nat, want: nat, run0: Run, chainIndex: nat, ghost f: Fat, ghost data: seq<Sector>, ghost c: seq<nat>,
        ghost d0: seq<Entry>, ghost c': seq<nat>)
      returns (found: bool, run: Run, e: Entry, start: nat)
      requires Shape() && Here(f, data, c, d0, c', chainIndex, want, run0) && iter == c'[chainIndex] && want > 0
      requires TermInLast(d0, Per())
      requires Times(chainIndex + 1, Per()) == Times(chainIndex, Per()) + Per() <= |io.Entries(c')|
      requires chainIndex + 1 == |c'| ==> Times(chainIndex + 1, Per()) == |io.Entries(c')|
      modifies io.vol.data
      ensures DirStep(f, data, c, Table(), Data(), c', io.vol.spc) && |io.Entries(c')| == |old(io.Entries(c'))|
      ensures found ==>
        && start + want <= |io.Entries(c')|
        && AllFree(io.Entries(c'), start, start + want)
        && Pushed(d0, io.Entries(c'), start + want)
      ensures found && start + want < |io.Entries(c')| ==>
        start + want + Per() >= |io.Entries(c')| || start + want < End(d0)
      ensures found ==> FirstOpen(d0, want, start) && Times(chainIndex, Per()) < start + want
      ensures !found ==> Passed(d0, want, Times(chainIndex + 1, Per()) - RunLength(run))
      ensures !found ==> RunOk(io.Entries(c'), Times(chainIndex + 1, Per()), want, run, Per())
      ensures !found ==> Pushed(d0, io.Entries(c'), Times(chainIndex + 1, Per()))
      ensures RunLength(run0) < want && (!found ==> RunLength(run) < want)
      ensures !found && Times(chainIndex, Per()) >= End(d0) ==> RunLength(run) == RunLength(run0) + Per()
    {
      hide Times, Quot, Rem, At, IsChain, FileSectors, KindOf, OthersKept, Replaced, DirStep, EndFrom, Pushed, RunOk,
        Room;
      ghost var g, mid, at := Table(), Data(), Times(chainIndex, Per());
      RunShort(io.Entries(c'), at, want, run0, Per());
      start := 0;
      found, run, e := ScanCluster(iter, want, run0, chainIndex, c', d0);
      WriteIsStep(g, mid, Data(), c', io.vol.spc);
      DirStepTwice(f, data, c, g, mid, c', g, Data(), c', io.vol.spc);
      if found {
        RoomHere(d0, io.Entries(c'), want, run, Per());
        start := run.chainIndex * Per() + run.offset;
        OpenHere(d0, io.Entries(c'), want, start);
        RunEnds(d0, |io.Entries(c')|, start + want, at, Per(), |c'|, chainIndex);
      } else {
        RunShort(io.Entries(c'), at + Per(), want, run, Per());
      }
    }

    /** Of `queued` slots, all `inside` the table, `n` are used, or more than there were. */
    ghost predicate Spent(queued: nat, inside: bool, n: int)
      requires io.vol.dev.fill <= io.vol.dev.freeQ.Length
      reads io.vol.dev`fill, io.vol.dev.freeQ
    {
      inside && n <= queued ==> io.vol.dev.fill + n == queued && io.vol.dev.Inside()
    }

    /** On to the next cluster, which is made when there is none. */
    method GoOn(
        iter: nat, next: Slot, e: Entry, ghost f: Fat, ghost data: seq<Sector>, ghost c: seq<nat>,
        ghost d0: seq<Entry>, ghost c': seq<nat>, ghost j: nat, want: nat, run: Run, ghost queued: nat,
        ghost inside: bool)
      returns (code: Code, iter': nat, ghost longer: seq<nat>)
      requires Shape() && io.vol.dev.Valid() && DirStep(f, data, c, Table(), Data(), c', io.vol.spc)
      requires IsChain(Table(), c') && j < |c'| && iter == c'[j] && |c| <= |c'|
      requires Spent(queued, inside, |c'| - |c|) && (IsEoc(next) <==> j + 1 == |c'|)
      requires !IsEoc(next) ==> next == c'[j + 1]
      requires Times(j + 1, Per()) == Times(j, Per()) + Per()
      requires (j + 1 == |c'| ==> Times(j + 1, Per()) == |io.Entries(c')|)
      requires Pushed(d0, io.Entries(c'), Times(j + 1, Per()))
      requires RunOk(io.Entries(c'), Times(j + 1, Per()), want, run, Per())
      requires if c' == c then |io.Entries(c')| == |d0| else j + 1 == |c'|
      requires TermInLast(d0, Per()) && Passed(d0, want, Times(j + 1, Per()) - RunLength(run)) && RunLength(run) < want
      modifies io.vol.dev`fill, io.vol.dev`drawn, io.vol.dev.fat, io.vol.dev.freeQ, io.vol.data
      ensures io.vol.dev.Valid() && code in {Success, NoSpace, Unknown}
      ensures code == Success ==> Here(f, data, c, d0, longer, j + 1, want, run) && iter' == longer[j + 1]
      ensures |longer| - |c| >= 0 && (code == Success ==> Spent(queued, inside, |longer| - |c|))
      ensures code != Success && inside ==> |c'| - |c| >= queued
      ensures code == NoSpace ==> NoneLeft()
      ensures code != Success ==>
        longer == c' && DirStep(f, data, c, Table(), Data(), c', io.vol.spc) && IsChain(Table(), c')
          && Pushed(d0, io.Entries(c'), |io.Entries(c')|)
          && NoPlace(d0, want, |io.Entries(c')|)
      ensures code == Unknown ==> !Tight(io.vol.dev.sectorsPerFat, io.vol.dev.numSlots)
    {
      hide Times, Quot, Rem, At, IsChain, FileSectors, KindOf, OthersKept, Replaced, DirStep, QueueOk, EndFrom, Pushed,
        RunOk, NoneLeft, FatDevice.Inside, Tight, Passed;
      longer := c';
      if !IsEoc(next) {
        LastBy(j + 1, |c'|, Per(), End(d0));
        return Success, next, c';
      }
      ghost var g, before, d := Table(), Data(), io.Entries(c');
      NoneOpen(d0, want, |d|, RunLength(run));
      code, iter' := ExtendDir(iter, e, c');
      if code == Success {
        longer := c' + [iter'];
        DirStepTwice(f, data, c, g, before, c', Table(), Data(), longer, io.vol.spc);
        StepChain(f, data, c, Table(), Data(), longer, io.vol.spc);
        Longer(d0, d, io.Entries(longer), Times(j + 1, Per()), want, run, Per());
      }
    }

    /**
      fat32_get_free_seq: the first place for `want` entries, where `Open` ones are free or behind the end,
      which is pushed back, if need be into new clusters. There is no success only when the directory is too
      short for that place, with all that was queued, and no further slot is found.
     */
    method FreeSeq(slot: U32, want: nat, ghost c: seq<nat>)
      returns (code: DirCode, start: nat, ghost c': seq<nat>, ghost to: nat)
      requires Shape() && io.vol.dev.Valid() && rd.Heads(slot, c) && TermInLast(io.Entries(c), Per())
      modifies io.vol.dev`fill, io.vol.dev`drawn, io.vol.dev.fat, io.vol.dev.freeQ, io.vol.data
      ensures io.vol.dev.Valid() && code in {Ok, Full, Failed}
      ensures DirStep(old(Table()), old(Data()), c, Table(), Data(), c', io.vol.spc)
      ensures Pushed(old(io.Entries(c)), io.Entries(c'), to)
      ensures to < |io.Entries(c')| ==> to + Per() >= |io.Entries(c')| || to < End(old(io.Entries(c)))
      ensures code == Ok ==> to == start + want && AllFree(io.Entries(c'), start, start + want)
      ensures code == Ok ==> FirstOpen(old(io.Entries(c)), want, start)
      ensures code == Ok && c' != c ==> start + want + Per() > |io.Entries(c')|
      ensures code != Ok ==> to == |io.Entries(c')| && NoPlace(old(io.Entries(c)), want, |io.Entries(c')|)
      ensures code != Ok && old(io.vol.dev.Inside()) ==> |c'| >= |c| + old(io.vol.dev.fill)
      ensures code == Full ==> NoneLeft()
      ensures code == Failed ==> !Tight(io.vol.dev.sectorsPerFat, io.vol.dev.numSlots)
    {
      hide Times, Quot, Rem, At, IsChain, FileSectors, KindOf, OthersKept, Replaced, DirStep, QueueOk, EndFrom, Pushed,
        RunOk, Room, Masked, Splice, Passed, Open, NoneLeft, FatDevice.Inside, Tight, AllFree, NoPlace;
      c' := c;
      ghost var f, data, d0, spc := Table(), Data(), io.Entries(c), io.vol.spc;
      ghost var queued, inside := io.vol.dev.fill, io.vol.dev.Inside();
      NothingIsStep(f, data, c, spc);
      NonEmpty(f, c);
      Begin(d0, want, Per(), |c|);
      if want == 0 {
        return Ok, 0, c, 0;
      }
      var iter: nat, chainIndex, run := Masked(slot), 0, Run(false, 0, 0, 0);
      while true
        invariant io.vol.dev.Valid() && Here(f, data, c, d0, c', chainIndex, want, run) && iter == c'[chainIndex]
        invariant Spent(queued, inside, |c'| - |c|)
        decreases Ahead(d0, Times(chainIndex, Per())), want - RunLength(run)
      {
        var next := rd.NextCluster(iter, c', chainIndex);
        var found, e;
        found, run, e, start := ScanHere(iter, want, run, chainIndex, f, data, c, d0, c');
        if found {
          return Ok, start, c', start + want;
        }
        var grown;
        grown, iter, c' := GoOn(iter, next, e, f, data, c, d0, c', chainIndex, want, run, queued, inside);
        if grown != Success {
          return if grown == NoSpace then Full else Failed, 0, c', |io.Entries(c')|;
        }
        chainIndex := chainIndex + 1;
      }
    }

    // -------------------------------------------------------------------------
    // Adding a sequence
    // -------------------------------------------------------------------------

    /** The short-name entry, then the long-name entries before it, going back. */
    method WriteSequence(
        iter: nat, base: nat, sfn: Entry, lfn: seq<Char16>, ghost c: seq<nat>, ghost j: nat, ghost start: nat)
      requires Shape() && IsChain(Table(), c) && j < |c| && iter == c[j] && |lfn| <= MAX_NAME
      requires Times(j, Per()) + base == start && start + NumLfnEntries(|lfn|) + 1 <= |io.Entries(c)|
      modifies io.vol.data
      ensures io.Entries(c) == Splice(old(io.Entries(c)), start, SequenceFor(lfn, sfn))
      ensures OthersKept(Table(), c, io.vol.spc, old(Data()), Data())
    {
      hide Times, Quot, Rem, At, IsChain, FileSectors, OthersKept, Splice, NumLfnEntries, LfnEntry, Checksum,
        SequenceFor, PartWritten;
      var n, sum := NumLfnEntries(|lfn|), Checksum(sfn, 11);
      ghost var q, d, was := SequenceFor(lfn, sfn), io.Entries(c), Data();
      var got := io.WriteEntry(iter, base + n, sfn, c, j);
      SequenceLast(lfn, sfn);
      LastPart(d, start, q);
      var k := 0;
      while k < n
        invariant 0 <= k <= n && PartWritten(d, io.Entries(c), start, q, n - k)
        invariant OthersKept(Table(), c, io.vol.spc, was, Data())
      {
        PartStep(d, io.Entries(c), start, q, n - k);
        SequencePart(lfn, sfn, n - 1 - k);
        var e := BuildLfnEntry(lfn, k, sum);
        ghost var mid := Data();
        got := io.WriteEntry(iter, base + (n - 1) - k, e, c, j);
        OthersKeptTwice(Table(), c, io.vol.spc, was, mid, Data());
        k := k + 1;
      }
      AllParts(d, io.Entries(c), start, q);
    }

    /**
      fat32_new_seq: the directory gets a file of that name, and keeps all the others; without space it
      keeps those it has. A long name ends before its first zero.
     */
    method NewSeq(slot: U32, sfn: Entry, lfn: seq<Char16>, ghost c: seq<nat>)
      returns (code: DirCode, start: nat, ghost c': seq<nat>)
      requires Shape() && io.vol.dev.Valid() && rd.Heads(slot, c) && WellFormed(io.Entries(c), Per())
      modifies io.vol.dev`fill, io.vol.dev`drawn, io.vol.dev.fat, io.vol.dev.freeQ, io.vol.data
      ensures io.vol.dev.Valid() && (code == Rejected <==> |lfn| > MAX_NAME) && code in {Ok, Full, Failed, Rejected}
      ensures DirStep(old(Table()), old(Data()), c, Table(), Data(), c', io.vol.spc)
      ensures code != Ok ==>
        && WellFormed(io.Entries(c'), Per())
        && SameFiles(old(io.Entries(c)), io.Entries(c'))
        && Files(io.Entries(c')) == Files(old(io.Entries(c)))
      ensures code == Ok && KindOf(sfn) == Sfn && ZeroFree(lfn) ==>
        Added(old(io.Entries(c)), io.Entries(c'), Per(), start, sfn, lfn)
      ensures code == Ok ==> FirstOpen(old(io.Entries(c)), NumLfnEntries(|lfn|) + 1, start)
      ensures code in {Full, Failed} ==>
        NoPlace(old(io.Entries(c)), NumLfnEntries(|lfn|) + 1, |io.Entries(c')|)
      ensures code in {Full, Failed} && old(io.vol.dev.Inside()) ==> |c'| >= |c| + old(io.vol.dev.fill)
      ensures code == Full ==> NoneLeft()
      ensures code == Failed ==> !Tight(io.vol.dev.sectorsPerFat, io.vol.dev.numSlots)
    {
      hide Times, Quot, Rem, At, IsChain, FileSectors, OthersKept, DirStep, EndFrom, NumLfnEntries, KindOf, Pushed,
        SequenceFor, NameBefore, LfnRun, QueueOk, EntriesOk, NoneLeft, FirstOpen, NoPlace;
      ghost var f, data, d0 := Table(), Data(), io.Entries(c);
      start, c' := 0, c;
      NothingIsStep(f, data, c, io.vol.spc);
      AllSame(d0);
      if |lfn| > MAX_NAME {
        return Rejected, 0, c;
      }
      var n := NumLfnEntries(|lfn|);
      ghost var to;
      code, start, c', to := FreeSeq(slot, n + 1, c);
      StepChain(f, data, c, Table(), Data(), c', io.vol.spc);
      ghost var g, mid, d := Table(), Data(), io.Entries(c');
      PushKeeps(d0, d, to, Per());
      PushSame(d0, d);
      if code != Ok {
        return;
      }
      Place(slot, start, sfn, lfn, f, data, c, c');
      if KindOf(sfn) == Sfn && ZeroFree(lfn) {
        AddedOverall(d0, d, Per(), start, sfn, lfn);
      }
    }

    method Place(
        slot: U32, start: nat, sfn: Entry, lfn: seq<Char16>, ghost f: Fat, ghost data: seq<Sector>, ghost c: seq<nat>,
        ghost c': seq<nat>)
      requires Shape() && IsChain(Table(), c') && DirStep(f, data, c, Table(), Data(), c', io.vol.spc)
      requires |lfn| <= MAX_NAME && start + NumLfnEntries(|lfn|) + 1 <= |io.Entries(c')| && c[0] == Masked(slot)
      modifies io.vol.data
      ensures DirStep(f, data, c, Table(), Data(), c', io.vol.spc)
      ensures io.Entries(c') == Splice(old(io.Entries(c')), start, SequenceFor(lfn, sfn))
    {
      hide Times, Quot, Rem, At, IsChain, FileSectors, OthersKept, DirStep, NumLfnEntries, SequenceFor, Splice;
      ghost var g, mid := Table(), Data();
      StepHead(f, data, c, g, mid, c', io.vol.spc);
      var found, iter := rd.FindCluster(slot, start, c');
      WriteSequence(iter, Rem(start, Per()), sfn, lfn, c', Quot(start, Per()), start);
      WriteIsStep(g, mid, Data(), c', io.vol.spc);
      DirStepTwice(f, data, c, g, mid, c', g, Data(), c', io.vol.spc);
    }

    // -------------------------------------------------------------------------
    // Erasing a sequence
    // -------------------------------------------------------------------------

    /** The entries of one cluster from `first` on are erased, up to the short-name entry. */
    method EraseCluster(iter: nat, first: nat, ghost c: seq<nat>, ghost j: nat, ghost d0: seq<Entry>, ghost offset: nat)
      returns (code: DirCode, done: bool)
      requires Shape() && IsChain(Table(), c) && j < |c| && iter == c[j] && first <= Per()
      requires Times(j, Per()) + Per() <= |io.Entries(c)| && Erasing(d0, io.Entries(c), offset, Times(j, Per()) + first)
      modifies io.vol.data
      ensures OthersKept(Table(), c, io.vol.spc, old(Data()), Data())
      ensures if done then EraseDone(d0, io.Entries(c), offset, code)
        else Erasing(d0, io.Entries(c), offset, Times(j, Per()) + Per())
    {
      hide Times, Quot, Rem, IsChain, FileSectors, KindOf, OthersKept, Erasing, EraseDone, Erased;
      ghost var f, was, at := Table(), Data(), Times(j, Per());
      io.vol.NothingChanged(c, was);
      code := Ok;
      var i := first;
      while i < Per()
        invariant first <= i <= Per() && Erasing(d0, io.Entries(c), offset, at + i)
        invariant |io.Entries(c)| == |old(io.Entries(c))|
        invariant OthersKept(f, c, io.vol.spc, was, Data())
      {
        ghost var d, mid := io.Entries(c), Data();
        var got, e := io.ReadEntry(iter, i, c, j);
        EraseStep(d0, d, offset, at + i);
        if KindOf(e) == Free || KindOf(e) == Term {
          return Malformed, true;
        }
        var sfn := KindOf(e) == Sfn;
        got := io.WriteEntry(iter, i, WithFirst(e, UNUSED), c, j);
        OthersKeptTwice(f, c, io.vol.spc, was, mid, Data());
        if sfn {
          return Ok, true;
        }
        i := i + 1;
      }
      done := false;
    }

    /**
      fat32_erase_seq: from the start of a sequence on, all its entries become unused. Nothing is changed
      when `offset` is inside a sequence; a sequence without an end is malformed.
     */
    method EraseSeq(slot: U32, offset: nat, ghost c: seq<nat>) returns (code: DirCode)
      requires Shape() && rd.Heads(slot, c)
      modifies io.vol.data
      ensures DirStep(old(Table()), old(Data()), c, Table(), Data(), c, io.vol.spc)
      ensures offset >= |old(io.Entries(c))| ==> code == Invalid && Data() == old(Data())
      ensures offset < |old(io.Entries(c))| && Inner(old(io.Entries(c))[offset]) ==>
        code == Malformed && Data() == old(Data())
      ensures offset < |old(io.Entries(c))| && !Inner(old(io.Entries(c))[offset]) ==>
        EraseDone(old(io.Entries(c)), io.Entries(c), offset, code)
    {
      hide Times, Quot, Rem, IsChain, FileSectors, KindOf, OthersKept, Erasing, EraseDone, DirStep;
      ghost var f, was, d0 := Table(), Data(), io.Entries(c);
      NothingIsStep(f, was, c, io.vol.spc);
      var found, iter := rd.FindCluster(slot, offset, c);
      if found == InvalidIndex {
        return Invalid;
      }
      var first := Rem(offset, Per());
      var got, e := io.ReadEntry(iter, first, c, Quot(offset, Per()));
      if Inner(e) {
        return Malformed;
      }
      NoneErased(d0, offset);
      ghost var j := Quot(offset, Per());
      while true
        invariant j < |c| && iter == c[j] && 0 <= first <= Per() && DirStep(f, was, c, f, Data(), c, io.vol.spc)
        invariant Times(j, Per()) + first <= |io.Entries(c)|
        invariant Erasing(d0, io.Entries(c), offset, Times(j, Per()) + first)
        decreases |c| - j
      {
        ghost var mid := Data();
        var next := rd.NextCluster(iter, c, j);
        var done;
        code, done := EraseCluster(iter, first, c, j, d0, offset);
        WriteIsStep(f, mid, Data(), c, io.vol.spc);
        DirStepTwice(f, was, c, f, mid, c, f, Data(), c, io.vol.spc);
        if done {
          return;
        }
        if IsEoc(next) {
          ErasedToEnd(d0, io.Entries(c), offset);
          return Malformed;
        }
        iter := next;
        j := j + 1;
        first := 0;
      }
    }

    // -------------------------------------------------------------------------
    // A new directory
    // -------------------------------------------------------------------------

    /** One cluster that begins with a terminator; `junk` is what else the first entry holds. */
    method NewDir(junk: Entry) returns (code: Code, head: nat)
      requires Shape() && io.vol.dev.Valid()
      modifies io.vol.dev`fill, io.vol.dev`drawn, io.vol.dev.fat, io.vol.dev.freeQ, io.vol.data
      ensures io.vol.dev.Valid() && code in {Success, NoSpace, Unknown}
      ensures code != Success ==> Table() == old(Table()) && Data() == old(Data())
      ensures code == Success ==> Replaced(old(Table()), Table(), [], [head]) && IsChain(Table(), [head])
      ensures code == Success ==> WellFormed(io.Entries([head]), Per()) && Files(io.Entries([head])) == {}
      ensures code == Success ==> OthersKept(Table(), [head], io.vol.spc, old(Data()), Data())
      ensures code == NoSpace ==> old(io.vol.dev.fill) == 0 && NoneLeft()
      ensures old(io.vol.dev.fill) > 0 && old(io.vol.dev.Inside()) ==> code == Success
      ensures code == Unknown ==> !Tight(io.vol.dev.sectorsPerFat, io.vol.dev.numSlots)
    {
      hide Times, Quot, Rem, At, IsChain, FileSectors, KindOf, OthersKept, EndFrom, QueueOk;
      ghost var f, data := Table(), Data();
      code, head := io.vol.dev.PopFreeSlot();
      assert io.vol.data[..] == data;
      if code != Success {
        return;
      }
      OneCluster(f, head);
      SingleChain(Table(), head, Per());
      var term := WithFirst(junk, TERMINATOR);
      ZeroIsTerm(term);
      var put := io.WriteEntry(head, 0, term, [head], 0);
      EmptyDirectory(io.Entries([head]), Per());
    }
  }

  lemma EmptyDirectory(d: seq<Entry>, per: nat)
    requires 0 < |d| <= per && KindOf(d[0]) == Term
    ensures WellFormed(d, per) && Files(d) == {}
  {
    EndIs(d, 0);
  }

  /** A long-name entry that is not the first of its sequence. */
  predicate Inner(e: Entry) {
    KindOf(e) == Lfn && !Marked(e)
  }

  /** The long-name entries [offset, g) are erased. */
  ghost predicate Erasing(d0: seq<Entry>, d: seq<Entry>, offset: nat, g: nat) {
    offset <= g <= |d0| && d == Erased(d0, offset, g) && forall p :: offset <= p < g ==> KindOf(d0[p]) == Lfn
  }

  /** The whole sequence, or what there was of it, is erased. */
  ghost predicate EraseDone(d0: seq<Entry>, d: seq<Entry>, offset: nat, code: DirCode) {
    offset <= |d0| && var k := FirstNotLfn(d0, offset);
    if k < |d0| && KindOf(d0[k]) == Sfn then code == Ok && d == Erased(d0, offset, k + 1)
    else code == Malformed && d == Erased(d0, offset, k)
  }

  lemma EraseStep(d0: seq<Entry>, d: seq<Entry>, offset: nat, g: nat)
    requires Erasing(d0, d, offset, g) && g < |d|
    ensures d[g] == d0[g]
    ensures KindOf(d[g]) == Lfn ==> Erasing(d0, d[g := WithFirst(d[g], UNUSED)], offset, g + 1)
    ensures KindOf(d[g]) == Sfn ==> EraseDone(d0, d[g := WithFirst(d[g], UNUSED)], offset, Ok)
    ensures KindOf(d[g]) == Free || KindOf(d[g]) == Term ==> EraseDone(d0, d, offset, Malformed)
  {
    hide KindOf;
    LfnSkipped(d0, offset, g);
    assert d[g := WithFirst(d[g], UNUSED)] == Erased(d0, offset, g + 1);
  }

  lemma {:induction false} LfnSkipped(d: seq<Entry>, a: nat, b: nat)
    requires a <= b <= |d| && forall p :: a <= p < b ==> KindOf(d[p]) == Lfn
    ensures FirstNotLfn(d, a) == FirstNotLfn(d, b)
    decreases b - a
  {
    if a < b { LfnSkipped(d, a + 1, b); }
  }

  lemma NoneErased(d: seq<Entry>, offset: nat)
    requires offset <= |d|
    ensures Erasing(d, d, offset, offset)
  {
    assert d == Erased(d, offset, offset);
  }

  lemma ErasedToEnd(d0: seq<Entry>, d: seq<Entry>, offset: nat)
    requires Erasing(d0, d, offset, |d0|)
    ensures EraseDone(d0, d, offset, Malformed)
  {
    LfnSkipped(d0, offset, |d0|);
  }

  /** The sequence of a file starts with no inner entry, and ends with the file's short-name entry. */
  lemma SequenceErased(d: seq<Entry>, d': seq<Entry>, per: nat, j: nat, code: DirCode)
    requires WellFormed(d, per) && j in Files(d)
    requires !Inner(d[SeqStart(d, j)]) ==> EraseDone(d, d', SeqStart(d, j), code)
    ensures !Inner(d[SeqStart(d, j)]) && code == Ok && d' == Erased(d, SeqStart(d, j), j + 1)
  {
    hide NameBefore, KindOf, EndFrom, Erased;
    var s := SeqStart(d, j);
    if s < j { assert EntryOk(d, End(d), s); }
    LfnSkipped(d, s, j);
  }

  /** Erasing where a file of a well-formed directory starts removes that file, and no other. */
  lemma EraseOfFile(d: seq<Entry>, d': seq<Entry>, per: nat, j: nat, code: DirCode)
    requires WellFormed(d, per) && j in Files(d)
    requires !Inner(d[SeqStart(d, j)]) ==> EraseDone(d, d', SeqStart(d, j), code)
    ensures !Inner(d[SeqStart(d, j)]) && code == Ok && WellFormed(d', per) && Files(d') == Files(d) - {j}
    ensures forall i :: i in Files(d) && i != j ==> SameFile(d, d', i)
  {
    SequenceErased(d, d', per, j, code);
    EraseKeeps(d, per, j);
    hide NameBefore, KindOf, EndFrom, WellFormed, Erased, LfnRun, SeqStart, EraseDone, Inner;
  }

  /** Every file of `d` is in `d'` with the same entries and name. */
  ghost predicate SameFiles(d: seq<Entry>, d': seq<Entry>) {
    |d'| >= |d| && forall i :: i in Files(d) ==> SameFile(d, d', i)
  }

  ghost predicate SameFile(d: seq<Entry>, d': seq<Entry>, i: nat) {
    && i < |d| && i < |d'| && i in Files(d') && d'[i] == d[i]
    && SeqStart(d', i) == SeqStart(d, i) && NameBefore(d', i) == NameBefore(d, i)
  }

  /** One file is added: at `start`, with this short-name entry and this long name. */
  ghost predicate Added(d: seq<Entry>, d': seq<Entry>, per: nat, start: nat, sfn: Entry, name: seq<Char16>) {
    var j := start + NumLfnEntries(|name|);
    && WellFormed(d', per) && SameFiles(d, d') && j !in Files(d) && Files(d') == Files(d) + {j}
    && j < |d'| && d'[j] == sfn && SeqStart(d', j) == start && NameBefore(d', j) == name
  }

  lemma AllSame(d: seq<Entry>)
    ensures SameFiles(d, d)
  {
  }

  lemma PushSame(d: seq<Entry>, d': seq<Entry>)
    requires |d'| >= |d| && Files(d') == Files(d)
    requires forall i :: i in Files(d) ==>
      d'[i] == d[i] && SeqStart(d', i) == SeqStart(d, i) && NameBefore(d', i) == NameBefore(d, i)
    ensures SameFiles(d, d')
  {
    hide NameBefore, LfnRun, SeqStart, EndFrom, KindOf;
  }

  /** The sequence `q` is written at `start`, from its `m`-th entry on. */
  ghost predicate PartWritten(d: seq<Entry>, d': seq<Entry>, start: nat, q: seq<Entry>, m: nat) {
    m <= |q| && start + |q| <= |d| && d' == Splice(d, start + m, q[m..])
  }

  lemma LastPart(d: seq<Entry>, start: nat, q: seq<Entry>)
    requires |q| > 0 && start + |q| <= |d|
    ensures PartWritten(d, d[start + |q| - 1 := q[|q| - 1]], start, q, |q| - 1)
  {
  }

  lemma PartStep(d: seq<Entry>, d': seq<Entry>, start: nat, q: seq<Entry>, m: nat)
    requires PartWritten(d, d', start, q, m) && m > 0
    ensures start + m - 1 < |d'| && PartWritten(d, d'[start + m - 1 := q[m - 1]], start, q, m - 1)
  {
    SpliceBefore(d, start, q, m);
  }

  lemma AllParts(d: seq<Entry>, d': seq<Entry>, start: nat, q: seq<Entry>)
    requires PartWritten(d, d', start, q, 0)
    ensures d' == Splice(d, start, q)
  {
    assert q[0..] == q;
  }

  lemma SequencePart(name: seq<Char16>, sfn: Entry, i: nat)
    requires |name| <= MAX_NAME && i < NumLfnEntries(|name|)
    ensures SequenceFor(name, sfn)[i] == LfnEntry(name, NumLfnEntries(|name|) - 1 - i, Checksum(sfn, 11))
  {
  }

  lemma SequenceLast(name: seq<Char16>, sfn: Entry)
    requires |name| <= MAX_NAME
    ensures SequenceFor(name, sfn)[NumLfnEntries(|name|)] == sfn
  {
  }

  lemma StepHead(f: Fat, a: seq<Sector>, c: seq<nat>, g: Fat, b: seq<Sector>, c': seq<nat>, spc: nat)
    requires DirStep(f, a, c, g, b, c', spc)
    ensures c' != [] && c != [] && c'[0] == c[0]
  {
  }

  lemma AddedOverall(d0: seq<Entry>, d: seq<Entry>, per: nat, start: nat, sfn: Entry, name: seq<Char16>)
    requires |d0| <= |d| && Files(d) == Files(d0) && WellFormed(d, per) && SameFiles(d0, d)
    requires KindOf(sfn) == Sfn && ZeroFree(name) && |name| <= MAX_NAME
    requires start + NumLfnEntries(|name|) + 1 <= End(d) && AllFree(d, start, start + NumLfnEntries(|name|) + 1)
    ensures Added(d0, Splice(d, start, SequenceFor(name, sfn)), per, start, sfn, name)
  {
    hide NameBefore, LfnRun, SeqStart, EndFrom, KindOf, NumLfnEntries, SequenceFor, WellFormed;
    SequenceIs(name, sfn);
    SequenceLast(name, sfn);
    AddKeeps(d, per, start, SequenceFor(name, sfn), name);
    var d' := Splice(d, start, SequenceFor(name, sfn));
    forall i | i in Files(d0)
      ensures SameFile(d0, d', i)
    {
      assert SameFile(d0, d, i);
    }
  }

  lemma NonEmpty(f: Fat, c: seq<nat>)
    requires IsChain(f, c)
    ensures |c| > 0
  {
  }

  lemma RunShort(d: seq<Entry>, g: nat, want: nat, run: Run, per: nat)
    requires RunOk(d, g, want, run, per) && want > 0
    ensures RunLength(run) < want
  {
  }

  function Ahead(d0: seq<Entry>, g: int): nat {
    if 0 <= g < End(d0) then End(d0) - g else 0
  }

  lemma Begin(d0: seq<Entry>, want: nat, per: nat, n: nat)
    requires TermInLast(d0, per) && |d0| == Times(n, per) && n > 0
    ensures Times(0, per) == 0 && Pushed(d0, d0, 0) && RunOk(d0, 0, want, Run(false, 0, 0, 0), per)
    ensures per > End(d0) ==> n == 1
    ensures |d0| > 0 ==> per >= |d0| || 0 < End(d0)
    ensures Passed(d0, want, 0) && (want == 0 ==> FirstOpen(d0, want, 0)) && AllFree(d0, 0, 0)
  {
    LastBy(0, n, per, End(d0));
  }

  /** A cluster that reaches beyond the terminator is the last one. */
  lemma LastBy(j: nat, n: nat, per: nat, e: nat)
    requires j < n && e + per >= Times(n, per)
    ensures Times(j, per) + per > e ==> j + 1 == n
  {
    if j + 1 < n {
      MulMono(j + 2, n, per);
      assert (j + 2) * per == j * per + 2 * per;
    }
  }

  lemma RunEnds(d0: seq<Entry>, size: nat, to: nat, at: nat, per: nat, n: nat, j: nat)
    requires TermInLast(d0, per) && at < to <= at + per <= size
    requires at + per > End(d0) ==> j + 1 == n
    requires j + 1 == n ==> size == at + per
    requires size == |d0| || j + 1 == n
    ensures to < size ==> to + per >= size || to < End(d0)
  {
  }

  lemma RoomHere(d0: seq<Entry>, d: seq<Entry>, want: nat, run: Run, per: nat)
    requires Room(d0, d, want, run, per)
    ensures run.chainIndex * per + run.offset == Times(run.chainIndex, per) + run.offset >= 0
    ensures var s := Times(run.chainIndex, per) + run.offset;
      s + want <= |d| && AllFree(d, s, s + want) && Pushed(d0, d, s + want)
  {
  }

  lemma Longer(d0: seq<Entry>, d: seq<Entry>, d': seq<Entry>, g: nat, want: nat, run: Run, per: nat)
    requires Pushed(d0, d, g) && g == |d| < |d'| && d'[..g] == d && KindOf(d'[g]) == Term && RunOk(d, g, want, run, per)
    ensures Pushed(d0, d', g) && RunOk(d', g, want, run, per)
  {
    assert forall k :: 0 <= k < g ==> d'[k] == d[k];
  }

  lemma StepChain(f: Fat, a: seq<Sector>, c: seq<nat>, g: Fat, b: seq<Sector>, c': seq<nat>, spc: nat)
    requires DirStep(f, a, c, g, b, c', spc)
    ensures IsChain(g, c')
  {
  }

  lemma SingleChain(g: Fat, next: nat, per: nat)
    requires InRange(g, next) && IsEoc(g[next])
    ensures IsChain(g, [next]) && Times(0, per) == 0 && Times(1, per) == per
  {
    assert LinkAt(g, [next], 0);
  }

  /** The entries from `s` on are free, or behind the end. */
  ghost predicate Open(d: seq<Entry>, want: nat, s: nat) {
    forall k :: s <= k < s + want && k < End(d) ==> KindOf(d[k]) == Free
  }

  /** There is no such place before `t`. */
  ghost predicate Passed(d: seq<Entry>, want: nat, t: int) {
    forall s: nat :: s < t ==> !Open(d, want, s)
  }

  ghost predicate FirstOpen(d: seq<Entry>, want: nat, start: nat) {
    Open(d, want, start) && Passed(d, want, start)
  }

  /** Every such place reaches beyond `size` entries. */
  ghost predicate NoPlace(d: seq<Entry>, want: nat, size: nat) {
    forall s: nat :: Open(d, want, s) ==> s + want > size
  }

  lemma NoneOpen(d: seq<Entry>, want: nat, size: nat, length: nat)
    requires Passed(d, want, size - length) && length < want
    ensures NoPlace(d, want, size)
  {
    hide Open;
  }

  /** An entry in use is in the way of all places that have it. */
  lemma PassedMore(d0: seq<Entry>, d: seq<Entry>, want: nat, g: nat, length: nat)
    requires Passed(d0, want, g - length) && length < want && g < |d|
    requires Pushed(d0, d, g + 1) && KindOf(d[g]) != Free
    ensures Passed(d0, want, g + 1)
  {
    hide KindOf, EndFrom;
    assert g < End(d0) && d0[g] == d[g];
  }

  lemma OpenHere(d0: seq<Entry>, d: seq<Entry>, want: nat, s: nat)
    requires s + want <= |d| && AllFree(d, s, s + want) && Pushed(d0, d, s + want)
    ensures Open(d0, want, s)
  {
    hide KindOf, EndFrom;
    forall k | s <= k < s + want && k < End(d0)
      ensures KindOf(d0[k]) == Free
    {
      assert d[k] == d0[k];
    }
  }

  /** The free entries just seen: how many, and where they begin. */
  datatype Run = Run(inRun: bool, length: nat, chainIndex: nat, offset: nat)

  function RunLength(run: Run): nat {
    if run.inRun then run.length else 0
  }

  /** Before entry `g` lies a run shorter than wanted. */
  ghost predicate RunOk(d: seq<Entry>, g: nat, want: nat, run: Run, per: nat) {
    g <= |d| && (run.inRun ==>
      0 < run.length < want && run.length <= g && Times(run.chainIndex, per) + run.offset == g - run.length
        && AllFree(d, g - run.length, g))
  }

  /** The run has the wanted length, and the terminator is nowhere before its end. */
  ghost predicate Room(d0: seq<Entry>, d: seq<Entry>, want: nat, run: Run, per: nat) {
    var s := Times(run.chainIndex, per) + run.offset;
    0 <= s && s + want <= |d| && AllFree(d, s, s + want) && Pushed(d0, d, s + want)
  }

  lemma RunGoesOn(
      d0: seq<Entry>, d: seq<Entry>, d': seq<Entry>, g: nat, want: nat, run: Run, per: nat, chainIndex: nat, i: nat)
    requires RunOk(d, g, want, run, per) && |d'| == |d| && g < |d| && Pushed(d0, d', g + 1) && want > 0
    requires forall k :: 0 <= k < g ==> d'[k] == d[k]
    requires Times(chainIndex, per) + i == g
    ensures KindOf(d'[g]) != Free ==> g < End(d0)
    ensures var started := if run.inRun then run
      else Run(true, 0, chainIndex, i); var longer := started.(length := started.length + 1);
      KindOf(d'[g]) == Free ==>
        if longer.length == want then Room(d0, d', want, longer, per)
          && Times(longer.chainIndex, per) + longer.offset + want == g + 1 else RunOk(d', g + 1, want, longer, per)
  {
    hide KindOf, EndFrom;
  }

  lemma LastCluster(j: nat, n: nat, per: nat)
    ensures j + 1 == n ==> Times(n, per) == Times(j, per) + per
  {
  }

  lemma TermHere(d0: seq<Entry>, d: seq<Entry>, g: nat)
    requires Pushed(d0, d, g) && g < |d|
    ensures KindOf(d[g]) == Term ==> g >= End(d0)
  {
  }

  lemma UnusedIsFree(e: Entry)
    requires e[0] == UNUSED
    ensures KindOf(e) == Free
  {
  }

  lemma ZeroIsTerm(e: Entry)
    requires e[0] == TERMINATOR
    ensures KindOf(e) == Term
  {
  }

  lemma PushedOn(d0: seq<Entry>, d: seq<Entry>, d': seq<Entry>, g: nat)
    requires Pushed(d0, d, g) && g < |d| && KindOf(d[g]) == Term && |d'| == |d|
    requires forall k :: 0 <= k < |d| && k != g && k != g + 1 ==> d'[k] == d[k]
    requires KindOf(d'[g]) == Free && (g + 1 < |d| ==> KindOf(d'[g + 1]) == Term)
    ensures Pushed(d0, d', g + 1)
  {
  }

  lemma PassedOn(d0: seq<Entry>, d: seq<Entry>, g: nat)
    requires Pushed(d0, d, g) && g < |d| && KindOf(d[g]) != Term
    ensures Pushed(d0, d, g + 1)
  {
  }
}
