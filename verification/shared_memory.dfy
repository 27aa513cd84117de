/**
  The shared memory plugin: a search tree of ranges in the shared area, each held by the kernel or by processes.
 */
module SharedMemories {
  import opened Sequences
  import opened SharedRanges
  import opened SearchTrees

  datatype Result = Done | BadArgs | NoSpace | NoMem | UnknownError | InvalidIndex | InUse | Abort

  /** The ranges in the nodes of `l`. */
  ghost function KeysOf(n: Nodes<Range>, l: seq<Ref>): (s: seq<Range>)
    requires forall r :: r in l ==> r in n
    ensures |s| == |l| && forall i :: 0 <= i < |l| ==> s[i] == n[l[i]].key
  {
    seq(|l|, i requires 0 <= i < |l| => n[l[i]].key)
  }

  function AlignUp(n: nat): nat {
    (n + 4095) / 4096 * 4096
  }

  /** The byte at `p`, as the pair of pointers that is looked up: the last byte's end wraps. */
  function ByteAt(p: nat): Range {
    Range(p, (p + 1) % 0x1_0000_0000, 0, {})
  }

  /** There is a place for a range of at least `minSize` bytes. */
  ghost predicate HasRoom(l: seq<Range>, lo: nat, hi: nat, minSize: nat) {
    minSize <= hi - lo && exists s: nat :: Fits(l, lo, hi, s, AlignUp(minSize))
  }

  ghost predicate FoundAt(l: seq<Range>, i: nat, p: nat) {
    i < |l| && Covers(l[i], p)
  }

  /** The kernel's holds on a range go up or down. */
  function Counted(l: seq<Range>, i: nat, change: int): seq<Range>
    requires i < |l| && 0 <= l[i].kernelRefs + change
  {
    l[i := l[i].(kernelRefs := l[i].kernelRefs + change)]
  }

  function MappedIn(l: seq<Range>, i: nat, pid: nat): seq<Range>
    requires i < |l|
  {
    l[i := l[i].(refs := l[i].refs + {pid})]
  }

  function Left(l: seq<Range>, i: nat, pid: nat): seq<Range>
    requires i < |l|
  {
    l[i := l[i].(refs := l[i].refs - {pid})]
  }

  /** The ranges with a new one at position `i`. */
  function WithNew(l: seq<Range>, i: nat, x: Range): seq<Range>
    requires i <= |l|
  {
    l[..i] + [x] + l[i..]
  }

  lemma FoundMapped(l: seq<Range>, i: nat, p: nat)
    requires FoundAt(l, i, p)
    ensures Mapped(l, p)
  {
  }

  lemma FoundOnce(l: seq<Range>, i: nat, j: nat, p: nat, lo: nat, hi: nat)
    requires FoundAt(l, i, p) && FoundAt(l, j, p) && LaidOut(l, lo, hi)
    ensures i == j
  {
  }

  lemma HeldWith(l: seq<Range>, i: nat, k: Range)
    requires AllHeld(l) && i < |l| && !Idle(k)
    ensures AllHeld(l[i := k])
  {
  }

  class SharedMemory {
    const tree: SearchTree<Range>
    /** The shared area. */
    const lo: nat
    const hi: nat

    ghost predicate Linked()
      reads this, tree
    {
      tree.Valid() && tree.cmp == CmpRange && tree.stored == Spans && 0 < lo <= hi < 0x1_0000_0000 && lo % 4096 == 0
        && hi % 4096 == 0
    }

    /** The ranges from low to high. */
    ghost function Ranges(): seq<Range>
      requires Linked()
      reads this, tree
    {
      KeysOf(tree.nodes, tree.Order())
    }

    ghost predicate Placed()
      reads this, tree
    {
      Linked() && LaidOut(Ranges(), lo, hi)
    }

    ghost predicate Valid()
      reads this, tree
    {
      Placed() && AllHeld(Ranges())
    }

    constructor (lo: nat, hi: nat)
      requires 0 < lo <= hi < 0x1_0000_0000 && lo % 4096 == 0 && hi % 4096 == 0
      ensures Valid() && Ranges() == [] && fresh(tree) && this.lo == lo && this.hi == hi
    {
      this.lo, this.hi := lo, hi;
      CmpLawful();
      tree := new SearchTree<Range>(CmpRange, Spans);
    }

    /** find_shm_start: the lowest place for `len` bytes, or null when there is none. */
    method FindShmStart(len: nat) returns (start: nat)
      requires Placed() && 0 < len
      ensures start != 0 ==>
        Fits(Ranges(), lo, hi, start, len) && forall s :: 0 <= s < start ==> !Fits(Ranges(), lo, hi, s, len)
      ensures start == 0 ==> forall s: nat :: !Fits(Ranges(), lo, hi, s, len)
      ensures start != 0 ==> start % 4096 == 0
    {
      hide InOrder, Distinct, SearchTrees.Linked, LaidOut, Lawful, SortedOn, Fits, SmallBefore;
      ghost var l := Ranges();
      ghost var k := 0;
      NoneBefore(l, lo, hi, len);
      var prev := NULL;
      var curr := tree.Min();
      while true
        invariant k <= |l| && SmallBefore(l, k, lo, hi, len)
        invariant if k == 0 then prev == NULL else prev == tree.Order()[k - 1] && prev in tree.nodes && prev != NULL
        invariant if k < |l| then curr == tree.Order()[k] && curr in tree.nodes && curr != NULL else curr == NULL
        decreases |l| - k
      {
        start := if prev != NULL then tree.nodes[prev].key.end else lo;
        var end := if curr != NULL then tree.nodes[curr].key.start else hi;
        assert start == GapStart(l, k, lo) && end == GapEnd(l, k, hi);
        GapOrdered(l, k, lo, hi);
        SmallStep(l, k, lo, hi, len);
        if end - start >= len {
          GapFits(l, k, lo, hi, len);
          forall s | 0 <= s < start
            ensures !Fits(l, lo, hi, s, len)
          {
            NothingFitsBefore(l, k, lo, hi, len, s);
          }
          return;
        }
        if curr == NULL {
          forall s: nat
            ensures !Fits(l, lo, hi, s, len)
          {
            NothingFits(l, lo, hi, len, s);
          }
          return 0;
        }
        prev := curr;
        curr := tree.Next(curr, k);
        k := k + 1;
      }
    }

    /** The node whose range holds the byte at `p`. */
    method Lookup(p: nat) returns (r: Ref, ghost i: nat)
      requires Placed() && p < 0x1_0000_0000
      ensures r != NULL ==> i < |Ranges()| && r == tree.Order()[i] && r in tree.nodes && Covers(Ranges()[i], p)
      ensures r == NULL ==> !Mapped(Ranges(), p)
    {
      hide InOrder, Distinct, SearchTrees.Linked, LaidOut, SortedOn, Lawful;
      var x := ByteAt(p);
      r := tree.Find(x);
      i := 0;
      if r != NULL {
        i :| 0 <= i < |tree.Order()| && tree.Order()[i] == r;
        ByteIn(Ranges()[i], p);
      } else {
        NoByte(tree.nodes, tree.Order(), Ranges(), p, lo, hi);
      }
    }

    /** A range's counts are set where it stands. */
    method SetRange(r: Ref, k: Range, ghost i: nat)
      requires Placed() && i < |Ranges()| && r == tree.Order()[i] && r in tree.nodes
      requires k.start == Ranges()[i].start && k.end == Ranges()[i].end
      modifies tree
      ensures Placed() && Ranges() == old(Ranges())[i := k] && tree.Order() == old(tree.Order())
      ensures r in tree.nodes && tree.nodes[r].key == k
    {
      ghost var l := Ranges();
      tree.SetKey(r, k);
      assert Ranges() == l[i := k];
    }

    /** plg_shm_check_gc: a range that nobody holds is taken out of the tree. */
    method CheckGc(r: Ref, ghost i: nat)
      requires Placed() && i < |Ranges()| && r == tree.Order()[i] && r in tree.nodes
      modifies tree
      ensures Placed() && Ranges() == Settle(old(Ranges()), i)
      ensures tree.Order() == if Idle(old(Ranges())[i]) then old(tree.Order())[..i] + old(tree.Order())[i + 1..]
        else old(tree.Order())
    {
      hide InOrder, Distinct, SearchTrees.Linked, LaidOut, Lawful, SortedOn;
      ghost var l := Ranges();
      if Idle(tree.nodes[r].key) {
        tree.RemoveNode(r, i);
        KeysWithout(old(tree.nodes), tree.nodes, old(tree.Order()), i);
        WithoutLaidOut(l, i, lo, hi);
      }
    }

    // -------------------------------------------------------------------------
    // Commands
    // -------------------------------------------------------------------------

    /** plg_shm_new_shm: the range goes in at the lowest place; `mapped` is what mapping it in the kernel gives. */
    method NewShm(minSize: nat, node: Ref, mapped: Result) returns (code: Result, start: nat, ghost i: nat)
      requires Valid() && node !in tree.nodes && minSize < 0x1_0000_0000
      modifies tree
      ensures Valid() && i <= |old(Ranges())|
      ensures code ==
        if minSize == 0 then BadArgs else if !HasRoom(old(Ranges()), lo, hi, minSize) then NoSpace
        else if node == NULL then UnknownError else if mapped in {Done, NoMem} then mapped else Abort
      ensures code == Done ==> start < hi
      ensures code in {Done, Abort} ==>
        && Ranges() == WithNew(old(Ranges()), i, Range(start, start + AlignUp(minSize), 1, {}))
        && Fits(old(Ranges()), lo, hi, start, AlignUp(minSize))
        && forall s :: 0 <= s < start ==> !Fits(old(Ranges()), lo, hi, s, AlignUp(minSize))
      ensures code !in {Done, Abort} ==> Ranges() == old(Ranges())
    {
      hide InOrder, Distinct, SearchTrees.Linked, LaidOut, AllHeld, Fits, Sides, SortedOn, Lawful, HasRoom,
        WithNew;
      ghost var l := Ranges();
      i := 0;
      NoRoom(l, lo, hi, minSize);
      if minSize == 0 {
        return BadArgs, 0, 0;
      }
      if minSize > hi - lo {
        return NoSpace, 0, 0;
      }
      var size := AlignUp(minSize);
      start := FindShmStart(size);
      if start == 0 {
        return NoSpace, 0, 0;
      }
      var x := Range(start, start + size, 1, {});
      FitsPlaced(l, lo, hi, start, minSize);
      var added;
      added, i := AddRange(x, node);
      if !added {
        Room(l, lo, hi, start, minSize);
        return UnknownError, start, 0;
      }
      InsertHeld(l, i, x);
      Room(l, lo, hi, start, minSize);
      if mapped == Done {
        return Done, start, i;
      }
      if mapped != NoMem {
        return Abort, start, i;
      }
      InsertUndone(l, i, x);
      RemoveRange(x, i);
      return NoMem, start, i;
    }

    /** plg_shm_inc_shm */
    method IncShm(p: nat) returns (code: Result, ghost i: nat)
      requires Valid() && p < 0x1_0000_0000
      modifies tree
      ensures Valid()
      ensures if Mapped(old(Ranges()), p)
        then code == Done && FoundAt(old(Ranges()), i, p) && Ranges() == Counted(old(Ranges()), i, 1)
        else code == InvalidIndex && Ranges() == old(Ranges())
    {
      hide InOrder, Distinct, SearchTrees.Linked, LaidOut, Lawful, SortedOn, AllHeld, Mapped;
      ghost var l := Ranges();
      var r;
      r, i := Lookup(p);
      if r == NULL {
        return InvalidIndex, i;
      }
      FoundMapped(l, i, p);
      var k := tree.nodes[r].key;
      HeldWith(l, i, k.(kernelRefs := k.kernelRefs + 1));
      SetRange(r, k.(kernelRefs := k.kernelRefs + 1), i);
      code := Done;
    }

    /** plg_shm_dec_shm: the last hold takes the range away. */
    method DecShm(p: nat, ghost i: nat)
      requires Valid() && p < 0x1_0000_0000 && (Mapped(Ranges(), p) ==> FoundAt(Ranges(), i, p))
      modifies tree
      ensures Valid()
      ensures Ranges() ==
        if Mapped(old(Ranges()), p) && old(Ranges())[i].kernelRefs > 0 then Settle(Counted(old(Ranges()), i, -1), i)
          else old(Ranges())
    {
      hide InOrder, Distinct, SearchTrees.Linked, LaidOut, Lawful, SortedOn, AllHeld, Mapped;
      ghost var l := Ranges();
      var r;
      ghost var j;
      r, j := Lookup(p);
      if r == NULL {
        return;
      }
      FoundMapped(l, j, p);
      FoundOnce(l, i, j, p, lo, hi);
      var k := tree.nodes[r].key;
      if k.kernelRefs > 0 {
        var k' := k.(kernelRefs := k.kernelRefs - 1);
        SettleKeeps(l, i, k', lo, hi);
        SetRange(r, k', i);
        CheckGc(r, i);
      }
    }

    /** plg_shm_map: `alive` says whether there is such a process, `copied` what mapping the pages into it gives. */
    method MapShm(p: nat, pid: nat, alive: bool, copied: Result) returns (code: Result, ghost i: nat)
      requires Valid() && p < 0x1_0000_0000
      modifies tree
      ensures Valid() && (Mapped(old(Ranges()), p) ==> FoundAt(old(Ranges()), i, p))
      ensures code ==
        if !alive || !Mapped(old(Ranges()), p) then InvalidIndex else if pid in old(Ranges())[i].refs then InUse
          else copied
      ensures Ranges() ==
        if alive && Mapped(old(Ranges()), p) && pid !in old(Ranges())[i].refs
          && copied == Done then MappedIn(old(Ranges()), i, pid)
        else old(Ranges())
    {
      hide InOrder, Distinct, SearchTrees.Linked, LaidOut, Lawful, SortedOn, AllHeld, Mapped;
      ghost var l := Ranges();
      var r;
      r, i := Lookup(p);
      if r != NULL { FoundMapped(l, i, p); }
      if !alive || r == NULL {
        return InvalidIndex, i;
      }
      var k := tree.nodes[r].key;
      if pid in k.refs {
        return InUse, i;
      }
      if copied == Done {
        HeldWith(l, i, k.(refs := k.refs + {pid}));
        SetRange(r, k.(refs := k.refs + {pid}), i);
      }
      code := copied;
    }

    /** plg_shm_unmap */
    method UnmapShm(p: nat, pid: nat, alive: bool, ghost i: nat)
      requires Valid() && p < 0x1_0000_0000 && (Mapped(Ranges(), p) ==> FoundAt(Ranges(), i, p))
      modifies tree
      ensures Valid()
      ensures Ranges() ==
        if alive && Mapped(old(Ranges()), p) && pid in old(Ranges())[i].refs then Settle(Left(old(Ranges()), i, pid), i)
        else old(Ranges())
    {
      hide InOrder, Distinct, SearchTrees.Linked, LaidOut, Lawful, SortedOn, AllHeld, Mapped;
      if !alive {
        return;
      }
      ghost var l := Ranges();
      var r;
      ghost var j;
      r, j := Lookup(p);
      if r == NULL {
        return;
      }
      FoundMapped(l, j, p);
      FoundOnce(l, i, j, p, lo, hi);
      var k := tree.nodes[r].key;
      if pid in k.refs {
        var k' := k.(refs := k.refs - {pid});
        SettleKeeps(l, i, k', lo, hi);
        SetRange(r, k', i);
        CheckGc(r, i);
      }
    }

    /** The child gets one range of the parent. */
    method ForkOne(iter: Ref, parent: nat, child: nat, ghost k: nat)
      requires Placed() && k < |Ranges()| && iter == tree.Order()[k] && iter in tree.nodes
      modifies tree
      ensures Placed() && Ranges() == old(Ranges())[k := ForkRange(old(Ranges())[k], parent, child)]
      ensures tree.Order() == old(tree.Order()) && iter in tree.nodes
    {
      hide InOrder, Distinct, SearchTrees.Linked, LaidOut, Lawful, SortedOn;
      var r := tree.nodes[iter].key;
      if parent in r.refs {
        SetRange(iter, r.(refs := r.refs + {child}), k);
      }
    }

    /** One range is seen to, and the walk goes on. */
    method ForkAndNext(iter: Ref, parent: nat, child: nat, ghost l: seq<Range>, ghost k: nat) returns (next: Ref)
      requires Placed() && k < |l| && Ranges() == ForkedTo(l, parent, child, k)
      requires iter == tree.Order()[k] && iter in tree.nodes
      modifies tree
      ensures Placed() && Ranges() == ForkedTo(l, parent, child, k + 1) && |tree.Order()| == |l|
      ensures if k + 1 < |l| then next == tree.Order()[k + 1] && next in tree.nodes && next != NULL else next == NULL
    {
      hide InOrder, Distinct, SearchTrees.Linked, LaidOut, Lawful, SortedOn, Forked, ForkedTo, ForkRange;
      ForkStep(l, parent, child, k);
      ForkOne(iter, parent, child, k);
      next := tree.Next(iter, k);
    }

    /** plg_shm_on_fork_proc: every range of the parent is the child's too. */
    method ForkProc(parent: nat, child: nat)
      requires Valid()
      modifies tree
      ensures Valid() && Ranges() == Forked(old(Ranges()), parent, child)
    {
      hide InOrder, Distinct, SearchTrees.Linked, LaidOut, Lawful, SortedOn, AllHeld, Forked, ForkedTo, ForkRange;
      ghost var l := Ranges();
      var iter := tree.Min();
      ghost var k := 0;
      ForkStarts(l, parent, child);
      while iter != NULL
        invariant Placed() && k <= |l| && Ranges() == ForkedTo(l, parent, child, k) && |tree.Order()| == |l|
        invariant if k < |l| then iter == tree.Order()[k] && iter in tree.nodes && iter != NULL else iter == NULL
        decreases |l| - k
      {
        iter := ForkAndNext(iter, parent, child, l, k);
        k := k + 1;
      }
      ForkEnds(l, parent, child);
      ForkKeeps(l, parent, child, lo, hi);
    }

    /** The process leaves one range; the tree may lose it. */
    method LeaveOne(iter: Ref, pid: nat, ghost k: nat)
      requires Placed() && k < |Ranges()| && iter == tree.Order()[k] && iter in tree.nodes
      modifies tree
      ensures Placed() && Ranges() == old(Ranges())[..k] + Remains(old(Ranges())[k], pid) + old(Ranges())[k + 1..]
      ensures tree.Order() == if Remains(old(Ranges())[k], pid)
        == [] then old(tree.Order())[..k] + old(tree.Order())[k + 1..] else old(tree.Order())
    {
      hide InOrder, Distinct, SearchTrees.Linked, LaidOut, Lawful, SortedOn;
      ghost var l := Ranges();
      var r := tree.nodes[iter].key;
      LeaveStep(l, k, pid);
      if pid in r.refs {
        SetRange(iter, r.(refs := r.refs - {pid}), k);
        CheckGc(iter, k);
      }
    }

    /** One range is left, and the walk goes on with the one that followed it before. */
    method LeaveAndNext(iter: Ref, pid: nat, ghost done: seq<Range>, ghost rest: seq<Range>) returns (next: Ref)
      requires Placed() && Ranges() == done + rest && rest != [] && iter == tree.Order()[|done|] && iter in tree.nodes
      modifies tree
      ensures Placed() && Ranges() == (done + Remains(rest[0], pid)) + rest[1..]
      ensures if rest[1..] != [] then next == tree.Order()[|done + Remains(rest[0], pid)|] && next in tree.nodes
        && next != NULL else next == NULL
    {
      hide InOrder, Distinct, SearchTrees.Linked, LaidOut, Lawful, SortedOn, AllHeld, Reaped, Remains;
      ghost var k, o := |done|, tree.Order();
      next := tree.Next(iter, k);
      ReapStep(done, rest, pid);
      LeaveOne(iter, pid, k);
      NextMoves(o, tree.Order(), k, Remains(rest[0], pid) != []);
    }

    /** What a process that is reaped, or starts anew, leaves: its mappings go, and what nobody holds. */
    method ReapProc(pid: nat)
      requires Valid()
      modifies tree
      ensures Valid() && Ranges() == Reaped(old(Ranges()), pid)
    {
      hide InOrder, Distinct, SearchTrees.Linked, LaidOut, Lawful, SortedOn, AllHeld, Reaped, Remains;
      ghost var l := Ranges();
      var iter := tree.Min();
      ghost var done, rest := [], l;
      while iter != NULL
        invariant Placed() && Ranges() == done + rest && Reaped(l, pid) == done + Reaped(rest, pid)
        invariant if rest != [] then iter == tree.Order()[|done|] && iter in tree.nodes && iter != NULL
          else iter == NULL
        decreases |rest|
      {
        ReapStep(done, rest, pid);
        iter := LeaveAndNext(iter, pid, done, rest);
        done, rest := done + Remains(rest[0], pid), rest[1..];
      }
      ReapEnds(pid);
      ReapedAt(l, pid, lo, hi, 0);
    }

    /**
      The call that gives a process a new range: kernel hold, mapping, release, and back out when the answer cannot be
      written.
     */
    method OpenShm(minSize: nat, node: Ref, pid: nat, mapped: Result, copied: Result, written: bool)
      returns (code: Result, start: nat, ghost i: nat)
      requires Valid() && node !in tree.nodes && minSize < 0x1_0000_0000
      modifies tree
      ensures Valid() && i <= |old(Ranges())|
      ensures code == Done ==>
        && Ranges() == WithNew(old(Ranges()), i, Range(start, start + AlignUp(minSize), 0, {pid}))
        && Fits(old(Ranges()), lo, hi, start, AlignUp(minSize))
      ensures code !in {Done, Abort} ==> Ranges() == old(Ranges())
      ensures code == Done <==>
        0 < minSize && HasRoom(old(Ranges()), lo, hi, minSize) && node != NULL && mapped == Done && copied == Done
          && written
    {
      hide InOrder, Distinct, SearchTrees.Linked, LaidOut, Lawful, SortedOn, AllHeld, Fits, HasRoom, WithNew;
      ghost var l := Ranges();
      code, start, i := NewShm(minSize, node, mapped);
      if code == Done {
        code := HandOver(start, pid, copied, written, l, i, Range(start, start + AlignUp(minSize), 1, {}));
      }
    }

    /** The new range `x` is mapped for the process and the kernel lets go of it; what fails is taken back. */
    method HandOver(
        start: nat, pid: nat, copied: Result, written: bool, ghost l: seq<Range>, ghost i: nat, ghost x: Range)
      returns (code: Result)
      requires Valid() && i <= |l| && Ranges() == WithNew(l, i, x)
      requires x == Range(start, x.end, 1, {}) && start < x.end && start < 0x1_0000_0000
      modifies tree
      ensures Valid() && code == if copied != Done then copied else if written then Done else UnknownError
      ensures Ranges() == if code == Done then WithNew(l, i, x.(kernelRefs := 0, refs := {pid})) else l
    {
      hide InOrder, Distinct, SearchTrees.Linked, LaidOut, Lawful, SortedOn, AllHeld, Mapped, Settle,
        Counted, MappedIn, Left, FoundAt, WithNew;
      NewFound(l, i, x);
      ghost var j;
      code, j := MapShm(start, pid, true, copied);
      FoundOnce(WithNew(l, i, x), i, j, start, lo, hi);
      OpenSteps(l, i, x, pid);
      DecShm(start, i);
      if code == Done && !written {
        UnmapShm(start, pid, true, i);
        code := UnknownError;
      }
    }

    /** bst_remove: of all ranges only this one is found, and it goes. */
    method RemoveRange(x: Range, ghost i: nat)
      requires Placed() && i < |Ranges()| && Ranges()[i] == x
      modifies tree
      ensures Placed() && Ranges() == old(Ranges())[..i] + old(Ranges())[i + 1..]
    {
      hide InOrder, Distinct, SearchTrees.Linked, LaidOut, SortedOn, Lawful;
      ghost var l := Ranges();
      InPlace(l, i, lo, hi);
      OnlyItself(tree.nodes, tree.Order(), l, x, i, lo, hi);
      var r := tree.Find(x);
      if r != NULL {
        ghost var j :| 0 <= j < |tree.Order()| && tree.Order()[j] == r;
        tree.RemoveNode(r, i);
        KeysWithout(old(tree.nodes), tree.nodes, old(tree.Order()), i);
        WithoutLaidOut(l, i, lo, hi);
      }
    }

    /** A range that overlaps none is added: only memory for the node can be missing. */
    method AddRange(x: Range, node: Ref) returns (added: bool, ghost i: nat)
      requires Placed() && node !in tree.nodes && SharedRanges.Placed(x, lo, hi)
      requires Fits(Ranges(), lo, hi, x.start, x.end - x.start)
      modifies tree
      ensures Placed() && i <= |old(Ranges())| && added == (node != NULL)
      ensures Ranges() == if added then WithNew(old(Ranges()), i, x) else old(Ranges())
    {
      hide InOrder, Distinct, SearchTrees.Linked, LaidOut, Fits, Sides, SortedOn, Lawful;
      ghost var l, n, o := Ranges(), tree.nodes, tree.Order();
      NothingEqual(n, o, l, x, lo, hi);
      var code;
      ghost var a, b;
      code, a, b := tree.Add(node, x);
      added, i := code.Success?, 0;
      if added {
        i := |a|;
        Inserted(n, tree.nodes, a, b, node, x, lo, hi);
      }
    }
  }

  lemma FitsPlaced(l: seq<Range>, lo: nat, hi: nat, s: nat, minSize: nat)
    requires Fits(l, lo, hi, s, AlignUp(minSize)) && s % 4096 == 0 && 0 < minSize
    ensures Placed(Range(s, s + AlignUp(minSize), 1, {}), lo, hi)
  {
  }

  lemma InPlace(l: seq<Range>, i: nat, lo: nat, hi: nat)
    requires LaidOut(l, lo, hi) && i < |l|
    ensures lo <= l[i].start < l[i].end <= hi
  {
  }

  lemma InsertUndone(l: seq<Range>, i: nat, x: Range)
    requires i <= |l|
    ensures var m := WithNew(l, i, x); i < |m| && m[..i] + m[i + 1..] == l && m[i] == x
  {
  }

  lemma Disjoint(l: seq<Range>, i: nat, j: nat, lo: nat, hi: nat)
    requires LaidOut(l, lo, hi) && i < |l| && j < |l| && i != j
    ensures CmpRange(l[i], l[j]) != 0
  {
  }

  lemma OnlyItself(n: Nodes<Range>, o: seq<Ref>, l: seq<Range>, x: Range, i: nat, lo: nat, hi: nat)
    requires (forall r :: r in o ==> r in n) && l == KeysOf(n, o) && LaidOut(l, lo, hi) && i < |l| && l[i] == x
    ensures o[i] in o && o[i] in n && CmpRange(x, n[o[i]].key) == 0
    ensures forall j :: 0 <= j < |o| && CmpRange(x, n[o[j]].key) == 0 ==> j == i
  {
    forall j | 0 <= j < |o| && CmpRange(x, n[o[j]].key) == 0
      ensures j == i
    {
      assert l[j] == n[o[j]].key;
      if j != i { Disjoint(l, i, j, lo, hi); }
    }
  }

  // ---------------------------------------------------------------------------
  // Walks
  // ---------------------------------------------------------------------------

  function ForkedTo(l: seq<Range>, parent: nat, child: nat, k: nat): seq<Range>
    requires k <= |l|
  {
    Forked(l, parent, child)[..k] + l[k..]
  }

  lemma ForkStarts(l: seq<Range>, parent: nat, child: nat)
    ensures l == ForkedTo(l, parent, child, 0)
  {
  }

  lemma ForkStep(l: seq<Range>, parent: nat, child: nat, k: nat)
    requires k < |l|
    ensures |ForkedTo(l, parent, child, k)| == |l| && ForkedTo(l, parent, child, k)[k] == l[k]
    ensures ForkedTo(l, parent, child, k + 1) ==
      ForkedTo(l, parent, child, k)[k := ForkRange(l[k], parent, child)]
  {
  }

  lemma ForkEnds(l: seq<Range>, parent: nat, child: nat)
    ensures ForkedTo(l, parent, child, |l|) == Forked(l, parent, child)
  {
  }

  function Remains(r: Range, pid: nat): seq<Range> {
    if pid !in r.refs then [r] else if Idle(r.(refs := r.refs - {pid})) then [] else [r.(refs := r.refs - {pid})]
  }

  lemma LeaveStep(l: seq<Range>, k: nat, pid: nat)
    requires k < |l|
    ensures pid !in l[k].refs ==> l == l[..k] + Remains(l[k], pid) + l[k + 1..] && Remains(l[k], pid) != []
    ensures pid in l[k].refs ==>
      Settle(l[k := l[k].(refs := l[k].refs - {pid})], k) == l[..k] + Remains(l[k], pid) + l[k + 1..]
    ensures pid in l[k].refs ==> (Remains(l[k], pid) == [] <==> Idle(l[k].(refs := l[k].refs - {pid})))
  {
  }

  lemma ReapStep(done: seq<Range>, rest: seq<Range>, pid: nat)
    requires rest != []
    ensures var l, k := done + rest, |done|;
      l[k] == rest[0] && l[..k] + Remains(rest[0], pid) + l[k + 1..] == (done + Remains(rest[0], pid)) + rest[1..]
    ensures done + Reaped(rest, pid) == (done + Remains(rest[0], pid)) + Reaped(rest[1..], pid)
    ensures |Remains(rest[0], pid)| <= 1
  {
    ReapedHead(rest, pid);
    hide *;
    Parts(done, rest[0], rest[1..], Remains(rest[0], pid));
    assert rest == [rest[0]] + rest[1..];
    Joins(done, Remains(rest[0], pid), Reaped(rest[1..], pid));
  }

  lemma ReapedHead(rest: seq<Range>, pid: nat)
    requires rest != []
    ensures Reaped(rest, pid) == Remains(rest[0], pid) + Reaped(rest[1..], pid) && |Remains(rest[0], pid)| <= 1
  {
  }

  lemma Parts(a: seq<Range>, h: Range, b: seq<Range>, m: seq<Range>)
    ensures var l, k := a + ([h] + b), |a|; l[k] == h && l[..k] + m + l[k + 1..] == (a + m) + b
  {
    var l := a + ([h] + b);
    assert l[..|a|] == a && l[|a| + 1..] == b;
  }

  lemma Joins(a: seq<Range>, b: seq<Range>, c: seq<Range>)
    ensures a + (b + c) == (a + b) + c
  {
  }

  lemma ReapEnds(pid: nat)
    ensures Reaped([], pid) == []
  {
  }

  /** Where the one that followed stands when `m` of one element is left. */
  lemma NextMoves(o: seq<Ref>, o': seq<Ref>, k: nat, one: bool)
    requires k < |o| && o' == if one then o else o[..k] + o[k + 1..]
    ensures |o'| == |o| - 1 + (if one then 1 else 0)
    ensures k + 1 < |o| ==> o'[if one then k + 1 else k] == o[k + 1] && o[k + 1] in o'
  {
    FollowingMoves(o, k);
  }

  lemma FollowingMoves(o: seq<Ref>, k: nat)
    requires k < |o|
    ensures k + 1 < |o| ==> (o[..k] + o[k + 1..])[k] == o[k + 1] && o[k + 1] in o[..k] + o[k + 1..]
  {
    if k + 1 < |o| { assert (o[..k] + o[k + 1..])[k] == o[k + 1]; }
  }

  lemma NewFound(l: seq<Range>, i: nat, x: Range)
    requires i <= |l| && x.start < x.end
    ensures FoundAt(WithNew(l, i, x), i, x.start) && Mapped(WithNew(l, i, x), x.start) && (WithNew(l, i, x))[i] == x
  {
    FoundMapped(WithNew(l, i, x), i, x.start);
  }

  /** A new range while it is opened: mapped or not, released by the kernel, and perhaps unmapped again. */
  lemma OpenSteps(l: seq<Range>, i: nat, x: Range, pid: nat)
    requires i <= |l| && x.kernelRefs == 1 && x.refs == {} && x.start < x.end
    ensures var m := WithNew(l, i, x);
      && m[i] == x && Settle(Counted(m, i, -1), i) == l
      && var m1 := MappedIn(m, i, pid);
        && FoundAt(m1, i, x.start) && Mapped(m1, x.start) && m1[i].kernelRefs == 1
        && var m2 := WithNew(l, i, x.(kernelRefs := 0, refs := {pid}));
          && Settle(Counted(m1, i, -1), i) == m2 && m2[i].refs == {pid}
          && FoundAt(m2, i, x.start) && Mapped(m2, x.start) && Settle(Left(m2, i, pid), i) == l
  {
    var m := WithNew(l, i, x);
    assert m[..i] == l[..i] && m[i + 1..] == l[i..];
    assert {} + {pid} == {pid} && {pid} - {pid} == {};
    assert Counted(m, i, -1)[..i] == l[..i] && Counted(m, i, -1)[i + 1..] == l[i..];
    var m1 := MappedIn(m, i, pid);
    FoundMapped(m1, i, x.start);
    var m2 := WithNew(l, i, x.(kernelRefs := 0, refs := {pid}));
    assert Counted(m1, i, -1) == m2;
    FoundMapped(m2, i, x.start);
    assert Left(m2, i, pid)[i].refs == {};
    assert Left(m2, i, pid)[..i] == l[..i] && Left(m2, i, pid)[i + 1..] == l[i..];
  }

  // ---------------------------------------------------------------------------
  // Additions
  // ---------------------------------------------------------------------------

  lemma InsertHeld(l: seq<Range>, i: nat, x: Range)
    requires AllHeld(l) && i <= |l| && !Idle(x)
    ensures AllHeld(WithNew(l, i, x))
  {
  }

  lemma Room(l: seq<Range>, lo: nat, hi: nat, s: nat, minSize: nat)
    requires minSize <= hi - lo && Fits(l, lo, hi, s, AlignUp(minSize))
    ensures HasRoom(l, lo, hi, minSize)
  {
  }

  lemma NoRoom(l: seq<Range>, lo: nat, hi: nat, minSize: nat)
    ensures minSize > hi - lo || (forall s: nat :: !Fits(l, lo, hi, s, AlignUp(minSize))) ==>
      !HasRoom(l, lo, hi, minSize)
  {
  }

  lemma NothingEqual(n: Nodes<Range>, o: seq<Ref>, l: seq<Range>, x: Range, lo: nat, hi: nat)
    requires (forall r :: r in o ==> r in n) && l == KeysOf(n, o) && x.start < x.end
    requires Fits(l, lo, hi, x.start, x.end - x.start)
    ensures forall e :: e in o && e in n ==> CmpRange(x, n[e].key) != 0
  {
    forall e | e in o && e in n
      ensures CmpRange(x, n[e].key) != 0
    {
      var i :| 0 <= i < |o| && o[i] == e;
      assert l[i] == n[e].key;
    }
  }

  lemma Inserted(n: Nodes<Range>, m: Nodes<Range>, a: seq<Ref>, b: seq<Ref>, r: Ref, x: Range, lo: nat, hi: nat)
    requires (forall e :: e in a + b ==> e in n) && SameKeys(n, m, a + b) && r in m && m[r].key == x
    requires LaidOut(KeysOf(n, a + b), lo, hi) && Placed(x, lo, hi) && Sides(CmpRange, n, x, a, b)
    ensures forall e :: e in a + [r] + b ==> e in m
    ensures KeysOf(m, a + [r] + b) == KeysOf(n, a + b)[..|a|] + [x] + KeysOf(n, a + b)[|a|..]
    ensures LaidOut(KeysOf(m, a + [r] + b), lo, hi)
  {
    assert forall e :: e in a + [r] + b ==> e == r || e in a + b;
    KeysInserted(n, m, a, b, r, x);
    KeysParts(n, a, b);
    SidesEnds(n, x, a, b);
    hide LaidOut;
    InsertKeeps(KeysOf(n, a), x, KeysOf(n, b), lo, hi);
  }

  lemma KeysParts(n: Nodes<Range>, a: seq<Ref>, b: seq<Ref>)
    requires forall e :: e in a + b ==> e in n
    ensures (forall e :: e in a ==> e in n) && forall e :: e in b ==> e in n
    ensures KeysOf(n, a + b) == KeysOf(n, a) + KeysOf(n, b)
    ensures KeysOf(n, a + b)[..|a|] == KeysOf(n, a) && KeysOf(n, a + b)[|a|..] == KeysOf(n, b)
  {
    assert forall e :: e in a ==> e in a + b;
    assert forall e :: e in b ==> e in a + b;
  }

  lemma KeysInserted(n: Nodes<Range>, m: Nodes<Range>, a: seq<Ref>, b: seq<Ref>, r: Ref, x: Range)
    requires (forall e :: e in a + b ==> e in n) && SameKeys(n, m, a + b) && r in m && m[r].key == x
    requires forall e :: e in a + [r] + b ==> e in m
    ensures KeysOf(m, a + [r] + b) == KeysOf(n, a + b)[..|a|] + [x] + KeysOf(n, a + b)[|a|..]
  {
    var o, s := a + [r] + b, KeysOf(n, a + b);
    forall i | 0 <= i < |o|
      ensures m[o[i]].key == (s[..|a|] + [x] + s[|a|..])[i]
    {
      if i != |a| {
        var j := if i < |a| then i else i - 1;
        assert o[i] == (a + b)[j] && (a + b)[j] in a + b;
      }
    }
  }

  lemma SidesEnds(n: Nodes<Range>, x: Range, a: seq<Ref>, b: seq<Ref>)
    requires (forall e :: e in a ==> e in n) && (forall e :: e in b ==> e in n) && Sides(CmpRange, n, x, a, b)
    ensures forall i :: 0 <= i < |a| ==> KeysOf(n, a)[i].end <= x.start
    ensures forall i :: 0 <= i < |b| ==> x.end <= KeysOf(n, b)[i].start
  {
    forall i | 0 <= i < |a|
      ensures KeysOf(n, a)[i].end <= x.start
    {
      assert a[i] in a;
    }
    forall i | 0 <= i < |b|
      ensures x.end <= KeysOf(n, b)[i].start
    {
      assert b[i] in b;
    }
  }

  lemma ByteIn(k: Range, p: nat)
    requires CmpRange(ByteAt(p), k) == 0 && p < 0x1_0000_0000 && k.start < k.end
    ensures Covers(k, p)
  {
  }

  lemma NoByte(n: Nodes<Range>, o: seq<Ref>, l: seq<Range>, p: nat, lo: nat, hi: nat)
    requires (forall r :: r in o ==> r in n) && l == KeysOf(n, o) && p < 0x1_0000_0000
    requires forall e :: e in o && e in n ==> CmpRange(ByteAt(p), n[e].key) != 0
    requires LaidOut(l, lo, hi) && hi < 0x1_0000_0000
    ensures !Mapped(l, p)
  {
    forall i | 0 <= i < |l|
      ensures !Covers(l[i], p)
    {
      assert o[i] in o && l[i] == n[o[i]].key;
    }
  }

  lemma KeysWithout(n: Nodes<Range>, m: Nodes<Range>, o: seq<Ref>, i: nat)
    requires i < |o| && (forall r :: r in o ==> r in n) && SameKeys(n, m, o[..i] + o[i + 1..])
    ensures KeysOf(m, o[..i] + o[i + 1..]) == KeysOf(n, o)[..i] + KeysOf(n, o)[i + 1..]
  {
  }

  /** Ranges that overlap are equal, and for ranges that are not empty that is an order all the same. */
  lemma CmpLawful()
    ensures Lawful(CmpRange, Spans)
  {
  }
}
