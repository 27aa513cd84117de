/**
  Allocating, copying and freeing ranges of whole address spaces.
 */
module PageDirectories {
  import opened RawMemory
  import opened PageEntries
  import opened PageRoles
  import opened PageSteps
  import opened PageRanges
  import opened PageViews
  import opened PageReleases
  import opened PageCopies
  import opened PageCosts
  import opened PageMemory

  /** new_page_table: a frame from the list, cleared through window slot 0. */
  method NewPageTable(p: Pager) returns (x: Addr)
    requires p.Valid()
    modifies p, p.slots
    ensures p.ListValid() && p.slots[..] == old(p.slots[..]) && p.role == old(p.role)
    ensures old(p.free) == [] ==> x == NULL_FRAME && p.P() == old(p.P())
    ensures old(p.free) != [] ==>
      x == old(p.free)[0] && FrameAddr(x) && p.P() == PopF(old(p.P())).(mem := old(p.mem)[x := ClearFrame()])
  {
    hide ClearFrame, Entry;
    ghost var m := p.P();
    x := p.PopFreePage();
    if x != NULL_FRAME {
      HeadNotLeft(m);
      PopList(m);
      ListFrame(p.P(), p.P().(mem := p.mem[x := ClearFrame()]));
      var old_ := p.AssignFreePage(0, x);
      p.mem := p.mem[p.slots[0] := ClearFrame()];
      old_ := p.AssignFreePage(0, old_);
    }
  }

  /** The table for entry `k` of the directory in window slot 0, which is made if there is none. */
  method TableFor(p: Pager, pd: Addr, k: nat) returns (pt: Addr)
    requires p.Valid() && pd in p.role && p.role[pd] == Dir && k < 1024 && p.slots[0] == pd
    modifies p, p.slots
    ensures p.Valid() && p.slots[..] == old(p.slots[..]) && p.role.Keys == p.mem.Keys
    ensures pt == NULL_FRAME ==> p.P() == old(p.P()) && p.role == old(p.role) && p.free == []
    ensures pt != NULL_FRAME ==>
      pt in p.role && p.role[pt] == Table(pd, k) && DirKept(old(p.P()), old(p.role), p.P(), p.role, pd)
    ensures forall pi {:trigger SameAt(old(p.P()), p.P(), pd, pi)} :: 0 <= pi < 0x10_0000 ==>
      SameAt(old(p.P()), p.P(), pd, pi)
    ensures pt == NULL_FRAME ==> pd in old(p.mem) && !Present(Entry(old(p.mem)[pd], k))
    ensures pd in p.mem && pd in old(p.mem)
    ensures forall j :: 0 <= j < 1024 && j != k ==> Entry(p.mem[pd], j) == Entry(old(p.mem)[pd], j)
    ensures pt != NULL_FRAME ==>
      |p.free| + (if Present(Entry(old(p.mem)[pd], k)) then 0 else 1) == |old(p.free)|
    ensures pt != NULL_FRAME ==>
      (p.P() == old(p.P()) && p.role == old(p.role))
        || (pt in old(p.role) && old(p.role)[pt] == Free && p.role == old(p.role)[pt := Table(pd, k)])
  {
    hide Entry, SetEntry, Base, Avail, Present, FreeListOk, RoleOk, ClearFrame, Inv, Lookup;
    ghost var m, role0 := p.P(), p.role;
    DirInMem(m, role0, pd);
    SameEverywhere(m, pd);
    if Present(Entry(p.mem[p.slots[0]], k)) {
      TableAt(m, role0, pd, k);
      TableNotNull(m, role0, Base(Entry(m.mem[pd], k)));
      return Base(Entry(p.mem[p.slots[0]], k));
    }
    pt := NewPageTable(p);
    if pt != NULL_FRAME {
      var w := MakeEntry(pt, true, true, UNIQUE);
      NewTableStep(m, role0, pd, k, w);
      PopLeaves(m, pd);
      PutEntries(p.P(), pd, k, w);
      p.SetWindowEntry(k, w);
      p.role := p.role[pt := Table(pd, k)];
    }
  }

  lemma DirInMem(m: Phys, role: Roles, d: Addr)
    requires Inv(m, role) && d in role && role[d] == Dir
    ensures d in m.mem && d !in m.free && role.Keys == m.mem.Keys && DirKept(m, role, m, role, d)
  {
    forall x | x in role
      ensures DirFrameKept(m, role, m, role, d, x)
    {
    }
  }

  lemma TableNotNull(m: Phys, role: Roles, t: Addr)
    requires Inv(m, role) && t in role
    ensures t != NULL_FRAME
  {
    assert RoleOk(m, role, t);
  }

  lemma SameEverywhere(m: Phys, d: Addr)
    requires d in m.mem
    ensures forall pi {:trigger SameAt(m, m, d, pi)} :: 0 <= pi < 0x10_0000 ==> SameAt(m, m, d, pi)
  {
  }

  // ---------------------------------------------------------------------------
  // Allocating
  // ---------------------------------------------------------------------------

  /** The pages from `pi` on that share its table, up to `e`. */
  function ChunkEnd(pi: nat, e: nat): (b: nat)
    requires pi < e <= 0x10_0000
    ensures pi % 1024 < b <= 1024 && 1024 * (pi / 1024) + b <= e && (b < 1024 ==> 1024 * (pi / 1024) + b == e)
  {
    if (pi / 1024 + 1) * 1024 > e then e % 1024 else 1024
  }

  /** pd_alloc_pages_p: pages from `s` on, as far as it says, are mapped to frames that were free. */
  method PdAllocPages(p: Pager, pd: Addr, user: bool, shared: bool, s: nat, e: nat) returns (code: Code, end: nat)
    requires p.Valid() && pd in p.role && p.role[pd] == Dir
    modifies p, p.slots
    ensures p.Valid() && p.slots[..] == old(p.slots[..])
    ensures code == InvalidRange <==> e < s || s >= 0x10_0000 || e > 0x10_0000
    ensures code == InvalidRange ==> p.P() == old(p.P()) && p.role == old(p.role)
    ensures code != InvalidRange ==>
      s <= end <= e && DirAllocated(old(p.P()), old(p.role), p.P(), p.role, pd, user, shared, s, end)
    ensures code == Success ==> end == e
    ensures code == AlreadyAllocated ==> end < e && pd in old(p.mem) && Present(Lookup(old(p.P()), pd, end))
    ensures code == NoMem ==> end < e && p.free == []
    ensures code in {Success, NoMem, AlreadyAllocated, InvalidRange}
  {
    hide Entry, SetEntry, Base, Avail, Present, FreeListOk, RoleOk, Inv, Lookup, DirAllocated;
    if e < s || s >= 0x10_0000 || e > 0x10_0000 {
      return InvalidRange, s;
    }
    ghost var m0, role0 := p.P(), p.role;
    NoneDirAllocated(m0, role0, pd, user, shared, s);
    DirInMem(m0, role0, pd);
    var old_ := p.AssignFreePage(0, pd);
    var pi := s;
    code := Success;
    while code == Success && pi < e
      invariant s <= pi <= e && p.Valid() && p.slots.Length == 4 && p.slots[..] == old(p.slots[..])[0 := pd]
      invariant DirAllocated(m0, role0, p.P(), p.role, pd, user, shared, s, pi)
      invariant code == AlreadyAllocated ==> pi < e && Present(Lookup(m0, pd, pi))
      invariant code == NoMem ==> pi < e && p.free == []
      invariant code in {Success, NoMem, AlreadyAllocated}
      decreases e - pi, code == Success
    {
      code, pi := AllocChunk(p, pd, user, shared, s, pi, e, m0, role0);
    }
    old_ := p.AssignFreePage(0, old_);
    end := pi;
  }

  /** The part of the range in the table of page `pi`. */
  method AllocChunk(
      p: Pager, pd: Addr, user: bool, shared: bool, ghost s: nat, pi: nat, e: nat, ghost m0: Phys, ghost role0: Roles)
    returns (code: Code, next: nat)
    requires p.Valid() && Inv(m0, role0) && pd in role0 && role0[pd] == Dir && s <= pi < e <= 0x10_0000
    requires p.slots[0] == pd && pd in m0.mem
    requires DirAllocated(m0, role0, p.P(), p.role, pd, user, shared, s, pi)
    modifies p, p.slots
    ensures p.Valid() && p.slots[..] == old(p.slots[..]) && pi <= next <= e && (code == Success ==> pi < next)
    ensures DirAllocated(m0, role0, p.P(), p.role, pd, user, shared, s, next)
    ensures code == AlreadyAllocated ==> next < e && Present(Lookup(m0, pd, next))
    ensures code == NoMem ==> next < e && p.free == []
    ensures code in {Success, NoMem, AlreadyAllocated}
  {
    hide Entry, SetEntry, Base, Avail, Present, FreeListOk, RoleOk, Inv, Lookup, DirAllocated, Allocated;
    var k, a, b := pi / 1024, pi % 1024, ChunkEnd(pi, e);
    ghost var m1, role1 := p.P(), p.role;
    DirStill(m0, role0, m1, role1, pd, user, shared, s, pi);
    var pt := TableFor(p, pd, k);
    if pt == NULL_FRAME {
      return NoMem, pi;
    }
    ghost var m2, role2 := p.P(), p.role;
    if role2 != role1 {
      AllocatedThenTable(m0, role0, m1, role1, m2, role2, pd, user, shared, s, pi, pt, k);
    }
    assert DirAllocated(m0, role0, m2, role2, pd, user, shared, s, pi);
    var end;
    code, end := p.PtAllocRange(pt, user, shared, a, b);
    AllocatedMore(m0, role0, m2, role2, p.P(), p.role, pd, user, shared, s, k, pt, a, end);
    next := pi + (end - a);
    if code == AlreadyAllocated {
      TableView(m2, role2, pd, k, pt);
      StillSame(m0, role0, m2, role2, pd, user, shared, s, pi, next);
    }
  }

  lemma DirStill(m0: Phys, role0: Roles, m: Phys, role: Roles, d: Addr, user: bool, shared: bool, s: nat, i: nat)
    requires DirAllocated(m0, role0, m, role, d, user, shared, s, i)
    ensures Inv(m, role) && d in role && role[d] == Dir && d in m.mem && d in m0.mem
  {
    assert DirFrameKept(m0, role0, m, role, d, d);
  }

  lemma TableView(m: Phys, role: Roles, d: Addr, k: nat, t: Addr)
    requires Inv(m, role) && d in role && role[d] == Dir && t in role && role[t] == Table(d, k)
    ensures d in m.mem && t in m.mem
    ensures forall pi {:trigger Lookup(m, d, pi)} :: 0 <= pi < 0x10_0000 && pi / 1024 == k ==>
      Lookup(m, d, pi) == Entry(m.mem[t], pi % 1024)
  {
    hide Entry, Base, RoleOk;
    DirectoryOf(m, role, d, k, t);
    TableAt(m, role, d, k);
  }

  /** A page that is yet to be reached is as it was. */
  lemma StillSame(
      m0: Phys, role0: Roles, m: Phys, role: Roles, d: Addr, user: bool, shared: bool, s: nat, i: nat, pi: nat)
    requires DirAllocated(m0, role0, m, role, d, user, shared, s, i) && i <= pi < 0x10_0000
    ensures SameAt(m0, m, d, pi)
  {
  }

  // ---------------------------------------------------------------------------
  // Freeing
  // ---------------------------------------------------------------------------

  /** pd_free_pages_p: the pages [s, e) are not mapped any more and what they owned is free. */
  method PdFreePages(p: Pager, pd: Addr, returnShared: bool, s: nat, e: nat)
    requires p.Valid() && pd in p.role && p.role[pd] == Dir
    requires returnShared ==> p.role.Keys == p.mem.Keys && DirMayReturn(p.P(), p.role, pd, s, e)
    modifies p, p.slots
    ensures p.Valid() && p.slots[..] == old(p.slots[..])
    ensures var end := if e > 0x10_0000 then 0x10_0000 else e;
      if end <= s then p.P() == old(p.P()) && p.role == old(p.role)
      else DirFreed(old(p.P()), old(p.role), p.P(), p.role, pd, returnShared, s, end, end)
  {
    hide Entry, SetEntry, Base, Avail, Present, FreeListOk, RoleOk, Inv, Lookup, DirFreed, DirMayReturn;
    if pd == NULL_FRAME {
      NullIsNoDir(p.P(), p.role);
      return;
    }
    var end := if e > 0x10_0000 then 0x10_0000 else e;
    if end <= s {
      return;
    }
    ghost var m0, role0 := p.P(), p.role;
    NoneDirFreed(m0, role0, pd, returnShared, s);
    DirInMem(m0, role0, pd);
    var old_ := p.AssignFreePage(0, pd);
    var pi := s;
    while pi < end
      invariant s <= pi <= end && p.Valid() && p.slots.Length == 4 && p.slots[..] == old(p.slots[..])[0 := pd]
      invariant DirFreed(m0, role0, p.P(), p.role, pd, returnShared, s, pi, pi)
      invariant pi == s || pi == end || pi % 1024 == 0
    {
      FreeChunk(p, pd, returnShared, s, pi, end, e, m0, role0);
      pi := pi + (ChunkEnd(pi, end) - pi % 1024);
    }
    old_ := p.AssignFreePage(0, old_);
  }

  lemma NullIsNoDir(m: Phys, role: Roles)
    requires Inv(m, role)
    ensures NULL_FRAME !in role
  {
    forall x | x in role
      ensures FrameAddr(x)
    {
      assert RoleOk(m, role, x);
    }
  }

  /** The part of the range in the table of page `pi`, and the table itself when that is all of it. */
  method FreeChunk(
      p: Pager, pd: Addr, returnShared: bool, ghost s: nat, pi: nat, end: nat, ghost e: nat, ghost m0: Phys,
      ghost role0: Roles)
    requires p.Valid() && Inv(m0, role0) && s <= pi < end <= 0x10_0000 && end <= e && p.slots[0] == pd
    requires DirFreed(m0, role0, p.P(), p.role, pd, returnShared, s, pi, pi) && (pi == s || pi % 1024 == 0)
    requires returnShared ==> role0.Keys == m0.mem.Keys && DirMayReturn(m0, role0, pd, s, e)
    modifies p, p.slots
    ensures p.Valid() && p.slots[..] == old(p.slots[..])
    ensures var next := pi + (ChunkEnd(pi, end) - pi % 1024);
      DirFreed(m0, role0, p.P(), p.role, pd, returnShared, s, next, next)
  {
    hide Entry, SetEntry, Base, Avail, Present, FreeListOk, RoleOk, Inv, Lookup, DirFreed, Freed, DirMayReturn,
      MayReturn;
    var k, a, b := pi / 1024, pi % 1024, ChunkEnd(pi, end);
    ghost var m1, role1 := p.P(), p.role;
    DirMem(m0, role0, m1, role1, pd, returnShared, s, pi, pi);
    if !Present(Entry(p.mem[p.slots[0]], k)) {
      NoTable(m0, role0, m1, role1, pd, returnShared, s, k, a, b);
      return;
    }
    var pt := Base(Entry(p.mem[p.slots[0]], k));
    TableAt(m1, role1, pd, k);
    if returnShared { ReturnNext(m0, role0, m1, role1, pd, s, k, pt, a, b, e); }
    p.PtFreeRange(pt, returnShared, a, b);
    ghost var m2, role2 := p.P(), p.role;
    FreedMore(m0, role0, m1, role1, m2, role2, pd, returnShared, s, k, pt, a, b, 1024 * k + a);
    FreedTableRole(m1, role1, m2, role2, pt, returnShared, a, b);
    if a == 0 && b == 1024 {
      TableGoes(m0, role0, m2, role2, pd, returnShared, s, k, pt);
      DirInMem2(m0, role0, m2, role2, pd, returnShared, s, 1024 * k + 1024, 1024 * k);
      p.PushFreePage(pt);
      PushLeaves(m2, pt, pd);
      p.SetWindowEntry(k, 0);
      p.role := p.role[pt := Free];
      DirMem(m0, role0, p.P(), p.role, pd, returnShared, s, 1024 * k + 1024, 1024 * k + 1024);
    } else {
      TableStays(m0, role0, m2, role2, pd, returnShared, s, k, a, b);
    }
  }

  lemma DirInMem2(m0: Phys, role0: Roles, m: Phys, role: Roles, d: Addr, shared: bool, s: nat, i: nat, tb: nat)
    requires DirFreed(m0, role0, m, role, d, shared, s, i, tb)
    ensures d in m.mem && d !in m.free
  {
    DirMem(m0, role0, m, role, d, shared, s, i, tb);
  }

  lemma FreedTableRole(m1: Phys, role1: Roles, m2: Phys, role2: Roles, t: Addr, shared: bool, a: nat, b: nat)
    requires t in role1 && role1[t].Table? && Freed(m1, role1, m2, role2, t, shared, a, b)
    ensures t in role2 && role2[t] == role1[t]
  {
    RoleNotUnder(m1, role1, role2, t, shared, a, b, t);
    assert FreedRole(m1, role1, role2, t, shared, a, b, t);
  }

  // ---------------------------------------------------------------------------
  // Copying
  // ---------------------------------------------------------------------------

  /**
    pd_copy_range_p: pages [s, e) of `dest` become copies of those of `src`, or, on any failure, `dest` maps
    what it did before and no frame is lost: at most empty tables come or go.
   */
  method PdCopyRange(p: Pager, dest: Addr, src: Addr, s: nat, e: nat) returns (code: Code)
    requires p.Valid() && dest in p.role && p.role[dest] == Dir && src in p.role && p.role[src] == Dir && dest != src
    modifies p, p.slots
    ensures p.Valid() && p.slots[..] == old(p.slots[..])
    ensures code == InvalidRange <==> s > e || s >= 0x10_0000 || e > 0x10_0000
    ensures code == Success ==> DirCopied(old(p.P()), old(p.role), p.P(), p.role, dest, src, s, e)
    ensures code != Success ==>
      forall pi {:trigger SameAt(old(p.P()), p.P(), dest, pi)} :: 0 <= pi < 0x10_0000 ==>
        SameAt(old(p.P()), p.P(), dest, pi)
    ensures code != Success ==>
      forall x {:trigger OnlyTablesDiffer(old(p.role), p.role, dest, x)} :: x in old(p.role) ==>
        OnlyTablesDiffer(old(p.role), p.role, dest, x)
    ensures code in {Success, NoMem, AlreadyAllocated, InvalidRange} && p.role.Keys == old(p.role).Keys
    ensures code == Success ==> Paid(old(p.P()), p.P(), dest, src, s, e)
    ensures code in {NoMem, AlreadyAllocated} ==> Refused(old(p.P()), dest, src, s, e, code == NoMem)
  {
    hide Entry, SetEntry, Base, Avail, Present, FreeListOk, RoleOk, Inv, Lookup, DirFreed, DirCopied, Paid, Refused;
    ghost var m0, role0 := p.P(), p.role;
    DirInMem(m0, role0, dest);
    SameEverywhere(m0, dest);
    if s > e || s >= 0x10_0000 || e > 0x10_0000 {
      return InvalidRange;
    }
    var at;
    code, at := CopyPages(p, dest, src, s, e);
    if code != Success {
      ghost var m1, role1 := p.P(), p.role;
      CopiedDir(m0, role0, m1, role1, dest, src, s, at);
      if at <= s {
        NoneDirFreed(m1, role1, dest, false, s);
      }
      PdFreePages(p, dest, false, s, at);
      DirCopyUndone(m0, role0, m1, role1, p.P(), p.role, dest, src, s, at);
    } else {
      CopiedDir(m0, role0, p.P(), p.role, dest, src, s, e);
    }
  }

  lemma CopiedDir(m0: Phys, role0: Roles, m: Phys, role: Roles, d: Addr, src: Addr, s: nat, i: nat)
    requires DirCopied(m0, role0, m, role, d, src, s, i)
    ensures Inv(m, role) && d in role && role[d] == Dir && d in m.mem && d in m0.mem && d !in m.free
    ensures role.Keys == role0.Keys
  {
    assert DirFrameKept(m0, role0, m, role, d, d);
  }

  method CopyPages(p: Pager, dest: Addr, src: Addr, s: nat, e: nat) returns (code: Code, end: nat)
    requires p.Valid() && dest in p.role && p.role[dest] == Dir && src in p.role && p.role[src] == Dir && dest != src
    requires s <= e <= 0x10_0000 && s < 0x10_0000
    modifies p, p.slots
    ensures p.Valid() && p.slots[..] == old(p.slots[..]) && s <= end <= e
    ensures DirCopied(old(p.P()), old(p.role), p.P(), p.role, dest, src, s, end)
    ensures code == Success ==> end == e && Paid(old(p.P()), p.P(), dest, src, s, e)
    ensures code in {Success, NoMem, AlreadyAllocated}
    ensures code != Success ==> Refused(old(p.P()), dest, src, s, e, code == NoMem)
  {
    hide Entry, SetEntry, Base, Avail, Present, FreeListOk, RoleOk, Inv, Lookup, DirCopied, Paid, Refused, Untouched;
    ghost var m0, role0 := p.P(), p.role;
    NoneDirCopied(m0, role0, dest, src, s);
    DirInMem(m0, role0, dest);
    DirInMem(m0, role0, src);
    NothingPaid(m0, dest, src, s);
    var old0 := p.AssignFreePage(0, dest);
    var old1 := p.AssignFreePage(1, src);
    var pi := s;
    code := Success;
    while pi < e && code == Success
      invariant s <= pi <= e && p.Valid() && p.slots.Length == 4 && p.slots[..] == old(p.slots[..])[0 := dest][1 := src]
      invariant DirCopied(m0, role0, p.P(), p.role, dest, src, s, pi) && code in {Success, NoMem, AlreadyAllocated}
      invariant pi == s || pi == e || pi % 1024 == 0
      invariant code == Success ==> Paid(m0, p.P(), dest, src, s, pi) && (pi < e ==> Untouched(m0, p.P(), dest, pi))
      invariant code != Success ==> Refused(m0, dest, src, s, e, code == NoMem)
      decreases e - pi, code == Success
    {
      code := CopyChunk(p, dest, src, s, pi, e, m0, role0);
      if code == Success {
        pi := pi + (ChunkEnd(pi, e) - pi % 1024);
      }
    }
    old1 := p.AssignFreePage(1, old1);
    old0 := p.AssignFreePage(0, old0);
    end := pi;
  }

  /** The part of the range in the table of page `pi`, with the directories in window slots 0 and 1. */
  method CopyChunk(
      p: Pager, dest: Addr, src: Addr, ghost s: nat, pi: nat, e: nat, ghost m0: Phys,
      ghost role0: Roles) returns (code: Code)
    requires p.Valid() && Inv(m0, role0) && dest in role0 && role0[dest] == Dir && src in role0 && role0[src] == Dir
    requires dest != src
    requires s <= pi < e <= 0x10_0000 && p.slots[0] == dest && p.slots[1] == src
    requires DirCopied(m0, role0, p.P(), p.role, dest, src, s, pi) && (pi == s || pi % 1024 == 0)
    requires Paid(m0, p.P(), dest, src, s, pi) && Untouched(m0, p.P(), dest, pi)
    modifies p, p.slots
    ensures p.Valid() && p.slots[..] == old(p.slots[..]) && code in {Success, NoMem, AlreadyAllocated}
    ensures var next := if code == Success then pi + (ChunkEnd(pi, e) - pi % 1024) else pi;
      DirCopied(m0, role0, p.P(), p.role, dest, src, s, next)
    ensures code == Success ==> var next := pi + (ChunkEnd(pi, e) - pi % 1024);
      Paid(m0, p.P(), dest, src, s, next) && (next < e ==> Untouched(m0, p.P(), dest, next))
    ensures code != Success ==> Refused(m0, dest, src, s, e, code == NoMem)
  {
    hide Entry, SetEntry, Base, Avail, Present, FreeListOk, RoleOk, Inv, Lookup, DirCopied, Copied, Paid, Refused;
    var k, a, b := pi / 1024, pi % 1024, ChunkEnd(pi, e);
    ghost var m1, role1 := p.P(), p.role;
    CopiedDir(m0, role0, m1, role1, dest, src, s, pi);
    CopiedSource(m0, role0, m1, role1, dest, src, s, pi);
    var srcPde, destPde := Entry(p.mem[p.slots[1]], k), Entry(p.mem[p.slots[0]], k);
    if Present(srcPde) {
      TableAt(m1, role1, src, k);
      code := CopyTable(p, dest, src, s, pi, b, Base(srcPde), e, m0, role0);
    } else {
      Unmapped0(m0, src, k);
      ViewsAgree(m0, role0, m1, role1, dest, src, s, pi, k);
      if Present(destPde) {
        TableAt(m1, role1, dest, k);
        var empty, j := NothingPresent(p, Base(destPde));
        if !empty {
          assert (1024 * k + j) / 1024 == k && (1024 * k + j) % 1024 == j;
          InTheWay(m0, dest, src, s, k, a, b, e, 1024 * k + j);
          return AlreadyAllocated;
        }
      } else {
        Unmapped0(m1, dest, k);
      }
      CopiedNothing(m0, role0, m1, role1, dest, src, s, pi, 1024 * k + b);
      PaidNothing(m0, m1, dest, src, s, k, a, b);
      code := Success;
    }
  }

  lemma Unmapped0(m: Phys, d: Addr, k: nat)
    requires d in m.mem && k < 1024 && !Present(Entry(m.mem[d], k))
    ensures forall pi {:trigger Lookup(m, d, pi)} :: 0 <= pi < 0x10_0000 && pi / 1024 == k ==>
      !Present(Lookup(m, d, pi))
  {
    ZeroNotShared();
  }

  lemma CopiedSource(m0: Phys, role0: Roles, m: Phys, role: Roles, d: Addr, src: Addr, s: nat, i: nat)
    requires DirCopied(m0, role0, m, role, d, src, s, i) && src in role0 && role0[src] == Dir && src != d
    ensures src in m0.mem && src in m.mem && m.mem[src] == m0.mem[src] && src in role && role[src] == Dir
  {
    assert DirFrameKept(m0, role0, m, role, d, src);
  }

  /** Whether a table maps nothing at all. */
  method NothingPresent(p: Pager, pt: Addr) returns (empty: bool, ghost at: nat)
    requires p.slots.Length == 4 && pt in p.mem
    modifies p.slots
    ensures p.slots[..] == old(p.slots[..])
    ensures empty ==> forall j {:trigger Entry(p.mem[pt], j)} :: 0 <= j < 1024 ==> !Present(Entry(p.mem[pt], j))
    ensures !empty ==> at < 1024 && Present(Entry(p.mem[pt], at))
  {
    hide Entry, Present;
    var tmp := p.AssignFreePage(0, pt);
    empty, at := true, 0;
    var i := 0;
    while empty && i < 1024
      invariant 0 <= i <= 1024 && p.slots[..] == old(p.slots[..])[0 := pt]
      invariant empty ==> forall j {:trigger Entry(p.mem[pt], j)} :: 0 <= j < i ==> !Present(Entry(p.mem[pt], j))
      invariant !empty ==> at < 1024 && Present(Entry(p.mem[pt], at))
    {
      if Present(Entry(p.mem[p.slots[0]], i)) {
        empty, at := false, i;
      }
      i := i + 1;
    }
    tmp := p.AssignFreePage(0, tmp);
  }

  /** In a table that is yet to be reached the destination maps what it did. */
  lemma ViewsAgree(
      m0: Phys, role0: Roles, m: Phys, role: Roles, d: Addr, src: Addr, s: nat, i: nat, k: nat)
    requires DirCopied(m0, role0, m, role, d, src, s, i) && k == i / 1024 && (i == s || i % 1024 == 0) && k < 1024
    ensures d in m0.mem && d in m.mem
    ensures forall pi {:trigger Lookup(m0, d, pi)} :: 0 <= pi < 0x10_0000 && pi / 1024 == k ==> SameAt(m0, m, d, pi)
    ensures forall pi {:trigger Lookup(m, d, pi)} :: 0 <= pi < 0x10_0000 && pi / 1024 == k ==> SameAt(m0, m, d, pi)
  {
    hide Lookup, Inv;
    assert DirFrameKept(m0, role0, m, role, d, d);
  }

  method CopyTable(
      p: Pager, dest: Addr, src: Addr, ghost s: nat, pi: nat, b: nat, srcPt: Addr, ghost e: nat, ghost m0: Phys,
      ghost role0: Roles) returns (code: Code)
    requires p.Valid() && Inv(m0, role0) && dest in role0 && role0[dest] == Dir && src in role0 && role0[src] == Dir
    requires dest != src && 1024 * (pi / 1024) + b <= e <= 0x10_0000
    requires s <= pi < 0x10_0000 && pi % 1024 < b <= 1024 && p.slots[0] == dest && p.slots[1] == src
    requires DirCopied(m0, role0, p.P(), p.role, dest, src, s, pi) && (pi == s || pi % 1024 == 0)
    requires Paid(m0, p.P(), dest, src, s, pi) && Untouched(m0, p.P(), dest, pi)
    requires dest in p.role && p.role[dest] == Dir && srcPt in p.role && p.role[srcPt] == Table(src, pi / 1024)
    modifies p, p.slots
    ensures p.Valid() && p.slots[..] == old(p.slots[..]) && code in {Success, NoMem, AlreadyAllocated}
    ensures DirCopied(m0, role0, p.P(), p.role, dest, src, s, if code == Success then 1024 * (pi / 1024) + b else pi)
    ensures code == Success ==>
      Paid(m0, p.P(), dest, src, s, 1024 * (pi / 1024) + b)
      && Untouched(m0, p.P(), dest, 1024 * (pi / 1024) + 1024)
    ensures code != Success ==> Refused(m0, dest, src, s, e, code == NoMem)
  {
    hide Entry, SetEntry, Base, Avail, Present, FreeListOk, RoleOk, Inv, Lookup, DirCopied, Copied, Paid, Refused,
      Uniques;
    var k, a := pi / 1024, pi % 1024;
    ghost var m1, role1 := p.P(), p.role;
    SourceTable(m0, role0, m1, role1, dest, src, s, pi, k, srcPt);
    var destPt := TableFor(p, dest, k);
    if destPt == NULL_FRAME {
      TooFew(m0, m1, dest, src, s, k, a, b, e, srcPt, 1);
      return NoMem;
    }
    ghost var m2, role2 := p.P(), p.role;
    CopiedSame(m0, role0, m1, role1, m2, role2, dest, src, s, pi);
    CopiedDir(m0, role0, m2, role2, dest, src, s, pi);
    SourceTable(m0, role0, m2, role2, dest, src, s, pi, k, srcPt);
    ViewsAgree(m0, role0, m2, role2, dest, src, s, pi, k);
    TableView(m2, role2, dest, k, destPt);
    code := p.PtCopyRange(destPt, srcPt, a, b);
    if code == Success {
      CopiedMore(m0, role0, m2, role2, p.P(), p.role, dest, src, s, k, destPt, srcPt, a, b);
      PaidMore(m0, m1, p.P(), dest, src, s, k, a, b, srcPt);
      DirKeptByCopy(m2, role2, p.P(), p.role, dest, destPt, srcPt, a, b);
    } else {
      FailedCopySame(m2, role2, p.P(), dest, k, destPt);
      CopiedSame(m0, role0, m2, role2, p.P(), p.role, dest, src, s, pi);
      if code == NoMem {
        TooFew(m0, m1, dest, src, s, k, a, b, e, srcPt, |m1.free| + 1);
      } else {
        ghost var j :| a <= j < b && Present(Entry(m2.mem[destPt], j));
        assert (1024 * k + j) / 1024 == k && (1024 * k + j) % 1024 == j;
        InTheWay(m0, dest, src, s, k, a, b, e, 1024 * k + j);
      }
    }
  }

  lemma DirKeptByCopy(
      m0: Phys, role0: Roles, m: Phys, role: Roles, d: Addr, t: Addr, u: Addr, a: nat, b: nat)
    requires Copied(m0, role0, m, role, t, u, a, b) && d in role0 && role0[d] == Dir && t in role0 && role0[t].Table?
    ensures d in m0.mem && d in m.mem && m.mem[d] == m0.mem[d]
  {
    assert FrameKept(m0, role0, m, role, d);
  }

  /** The source's table is the one it was from the start. */
  lemma SourceTable(
      m0: Phys, role0: Roles, m: Phys, role: Roles, d: Addr, src: Addr, s: nat, i: nat, k: nat, t: Addr)
    requires Inv(m0, role0) && src in role0 && role0[src] == Dir && src != d && k < 1024
    requires DirCopied(m0, role0, m, role, d, src, s, i) && t in role && role[t] == Table(src, k)
    ensures src in m0.mem && src in m.mem && m.mem[src] == m0.mem[src] && Present(Entry(m0.mem[src], k))
    ensures t in m0.mem && t in m.mem && m.mem[t] == m0.mem[t] && d in m0.mem && d in m.mem
    ensures forall pi {:trigger Lookup(m0, src, pi)} :: 0 <= pi < 0x10_0000 && pi / 1024 == k ==>
      Lookup(m0, src, pi) == Entry(m0.mem[t], pi % 1024)
  {
    hide Entry, Base, Avail, FreeListOk, Lookup;
    CopiedSource(m0, role0, m, role, d, src, s, i);
    CopiedDir(m0, role0, m, role, d, src, s, i);
    DirectoryOf(m, role, src, k, t);
    TableAt(m0, role0, src, k);
    assert DirFrameKept(m0, role0, m, role, d, t);
  }

  lemma DirCopyUndone(
      m0: Phys, role0: Roles, m1: Phys, role1: Roles, m: Phys, role: Roles, d: Addr, src: Addr, s: nat, i: nat)
    requires Inv(m0, role0) && DirCopied(m0, role0, m1, role1, d, src, s, i)
    requires DirFreed(m1, role1, m, role, d, false, s, i, i)
    ensures role.Keys == role0.Keys
    ensures forall pi {:trigger SameAt(m0, m, d, pi)} :: 0 <= pi < 0x10_0000 ==> SameAt(m0, m, d, pi)
    ensures forall x {:trigger OnlyTablesDiffer(role0, role, d, x)} :: x in role0 ==>
      OnlyTablesDiffer(role0, role, d, x)
  {
    hide Entry, Base, Avail, FreeListOk, RoleOk, Lookup, PageIn, TableIn;
    DirMem(m1, role1, m, role, d, false, s, i, i);
    forall pi | 0 <= pi < 0x10_0000
      ensures SameAt(m0, m, d, pi)
    {
      if s <= pi < i {
        assert CopiedAt(m0, role0, m1, d, src, pi) && !Present(Lookup(m, d, pi));
      } else {
        assert SameAt(m0, m1, d, pi) && SameAt(m1, m, d, pi);
      }
    }
    forall x | x in role0
      ensures OnlyTablesDiffer(role0, role, d, x)
    {
      FrameAfterUndo(m0, role0, m1, role1, m, role, d, src, s, i, x);
    }
  }

  lemma FrameAfterUndo(
      m0: Phys, role0: Roles, m1: Phys, role1: Roles, m: Phys, role: Roles, d: Addr, src: Addr, s: nat, i: nat,
      x: Addr)
    requires Inv(m0, role0) && DirCopied(m0, role0, m1, role1, d, src, s, i)
    requires DirFreed(m1, role1, m, role, d, false, s, i, i) && x in role0
    ensures OnlyTablesDiffer(role0, role, d, x)
  {
    hide Entry, Base, Avail, FreeListOk, RoleOk, Lookup;
    assert DirFrameKept(m0, role0, m1, role1, d, x) && TakenForDir(role0, role1, d, false, x)
      && DirFrameKept(m0, role0, m1, role1, d, d);
    assert Released(m1, role1, m, role, d, false, s, i, i, x);
    if role1[x].Page? && IsTableOf(role1, d, role1[x].table) {
      PageLookup(m1, role1, d, x);
      var pi := 1024 * role1[role1[x].table].pdi + role1[x].pti;
      if s <= pi < i {
        assert CopiedAt(m0, role0, m1, d, src, pi);
        if role0[x] != Free { OldPage(m0, role0, m1, role1, d, x); }
      } else {
        assert SameAt(m0, m1, d, pi);
        PageBehind(m0, role0, d, pi);
      }
    }
  }

  /** A page in use before was mapped before. */
  lemma OldPage(m0: Phys, role0: Roles, m1: Phys, role1: Roles, d: Addr, x: Addr)
    requires Inv(m0, role0) && DirKept(m0, role0, m1, role1, d) && x in role0 && role0[x].Page? && role1[x] == role0[x]
    requires IsTableOf(role1, d, role0[x].table)
    ensures d in m0.mem && role0[role0[x].table] == role1[role0[x].table]
    ensures var pi := 1024 * role0[role0[x].table].pdi + role0[x].pti; pi < 0x10_0000 && Present(Lookup(m0, d, pi))
  {
    hide Entry, Base, Avail, FreeListOk, Lookup;
    assert RoleOk(m0, role0, x) && DirFrameKept(m0, role0, m1, role1, d, role0[x].table);
    PageLookup(m0, role0, d, x);
  }

  // ---------------------------------------------------------------------------
  // Whole address spaces
  // ---------------------------------------------------------------------------

  /** delete_page_directory: the directory, its tables and its unique pages are free, and nothing else is. */
  method DeletePageDirectory(p: Pager, pd: Addr)
    requires p.Valid() && pd in p.role && p.role[pd] == Dir
    modifies p, p.slots
    ensures p.Valid() && p.slots[..] == old(p.slots[..])
    ensures DeletedRoles(old(p.role), p.role, pd)
  {
    hide Entry, SetEntry, Base, Avail, Present, FreeListOk, RoleOk, Inv, Lookup, DirFreed, DeletedRoles;
    ghost var m0, role0 := p.P(), p.role;
    TableNotNull(m0, role0, pd);
    if pd != NULL_FRAME {
      PdFreePages(p, pd, false, 0, 0x10_0000);
      ghost var m1, role1 := p.P(), p.role;
      AllGone(m0, role0, m1, role1, pd);
      p.PushFreePage(pd);
      p.role := p.role[pd := Free];
    }
  }

  ghost predicate DeletedRoles(role0: Roles, role: Roles, d: Addr) {
    role.Keys == role0.Keys && forall x {:trigger role[x]} :: x in role0 ==>
      role[x] == if x == d || UnderDir(role0, d, x) then Free else role0[x]
  }

  /** An address space of which all pages are freed is an empty directory. */
  lemma AllGone(m0: Phys, role0: Roles, m: Phys, role: Roles, d: Addr)
    requires Inv(m0, role0) && DirFreed(m0, role0, m, role, d, false, 0, 0x10_0000, 0x10_0000)
    ensures d in m.mem && d in role && FrameAddr(d) && d !in m.free && (m.free != [] ==> m.free[0] < WORD_LIMIT)
    ensures Inv(PushF(m, d), role[d := Free]) && DeletedRoles(role0, role[d := Free], d)
  {
    hide Entry, SetEntry, Base, Avail, FreeListOk, Lookup;
    DirMem(m0, role0, m, role, d, false, 0, 0x10_0000, 0x10_0000);
    DirInMem2(m0, role0, m, role, d, false, 0, 0x10_0000, 0x10_0000);
    forall x | x in role0
      ensures role[x] == if x != d && UnderDir(role0, d, x) then Free else role0[x]
    {
      assert Released(m0, role0, m, role, d, false, 0, 0x10_0000, 0x10_0000, x) && RoleOk(m0, role0, x);
      PagesSmall(m0, role0, x);
      if IsTableOf(role0, d, x) { DirectoryOf(m0, role0, d, role0[x].pdi, x); }
      if role0[x].Page? && IsTableOf(role0, d, role0[x].table) { PageLookup(m0, role0, d, x); }
    }
    EmptyDir(m, role, d);
    DirKeeps(m, role, d);
    HeadSmall(m, role);
    assert RoleOk(m, role, d);
    PushKeeps(m, role[d := Held], d);
    assert role[d := Held][d := Free] == role[d := Free];
  }

  lemma EmptyDir(m: Phys, role: Roles, d: Addr)
    requires Inv(m, role) && d in role && role[d] == Dir && forall x :: x in role ==> !IsTableOf(role, d, x)
    ensures Empty(m.mem[d])
  {
    hide Entry, Base;
    forall k | 0 <= k < 1024
      ensures !Present(Entry(m.mem[d], k))
    {
      TableIf(m, role, d, k);
    }
  }

  lemma TableIf(m: Phys, role: Roles, d: Addr, k: nat)
    requires Inv(m, role) && d in role && role[d] == Dir && k < 1024
    ensures Present(Entry(m.mem[d], k)) ==>
      Base(Entry(m.mem[d], k)) in role && IsTableOf(role, d, Base(Entry(m.mem[d], k)))
  {
    hide Entry, Base;
    if Present(Entry(m.mem[d], k)) { TableAt(m, role, d, k); }
  }

  /** Page `pi` of `d` is a deep copy of that of `src`, which is as it was. */
  ghost predicate DeepCopyAt(m0: Phys, role0: Roles, m: Phys, d: Addr, src: Addr, pi: nat) {
    && d in m.mem && src in m0.mem && src in m.mem && pi < 0x10_0000 && Lookup(m, src, pi) == Lookup(m0, src, pi)
    && var w0, w := Lookup(m0, src, pi), Lookup(m, d, pi);
       if !Present(w0) then !Present(w)
       else if !IsUnique(w0) then w == w0
       else
         && IsUnique(w) && User(w) == User(w0) && Writable(w) == Writable(w0)
         && Base(w) in role0 && role0[Base(w)] == Free
         && Base(w) in m.mem && Base(w0) in m0.mem && m.mem[Base(w)] == m0.mem[Base(w0)]
  }

  /** A frame in use keeps its role; a free one is free still, or is the directory `d`, or belongs to it. */
  ghost predicate CopyRoles(role0: Roles, role: Roles, d: Addr) {
    && role.Keys == role0.Keys && d in role0 && role0[d] == Free && role[d] == Dir
    && forall x {:trigger role[x]} :: x in role0 ==>
         if role0[x] != Free then role[x] == role0[x] else role[x] == Free || x == d || UnderDir(role, d, x)
  }

  /** copy_page_directory: a new address space, or, if there is not enough memory, the frames in use as before. */
  method CopyPageDirectory(p: Pager, pd: Addr) returns (copy: Addr)
    requires p.Valid() && pd in p.role && p.role[pd] == Dir
    modifies p, p.slots
    ensures p.Valid() && p.slots[..] == old(p.slots[..])
    ensures copy == NULL_FRAME <==> |old(p.free)| < 1 + |Owned(old(p.role), pd)|
    ensures copy != NULL_FRAME ==> |p.free| + 1 + |Owned(old(p.role), pd)| == |old(p.free)|
    ensures copy == NULL_FRAME ==> p.role == old(p.role)
    ensures copy != NULL_FRAME ==> CopyRoles(old(p.role), p.role, copy)
    ensures copy != NULL_FRAME ==>
      forall pi {:trigger DeepCopyAt(old(p.P()), old(p.role), p.P(), copy, pd, pi)} :: 0 <= pi < 0x10_0000 ==>
        DeepCopyAt(old(p.P()), old(p.role), p.P(), copy, pd, pi)
  {
    hide Entry, SetEntry, Base, Avail, Present, FreeListOk, RoleOk, Inv, Lookup, DirCopied, DeletedRoles, CopyRoles,
      ClearFrame, Paid, Refused, Owned;
    ghost var m0, role0 := p.P(), p.role;
    TableNotNull(m0, role0, pd);
    if pd == NULL_FRAME {
      return NULL_FRAME;
    }
    copy := NewPageTable(p);
    if copy == NULL_FRAME {
      return;
    }
    NewDirectory(m0, role0, pd);
    p.role := p.role[copy := Dir];
    ghost var m1, role1 := p.P(), p.role;
    CopyCosts(m0, role0, m1, copy, pd);
    var code := PdCopyRange(p, copy, pd, 0, 0x10_0000);
    if code != Success {
      ghost var role2 := p.role;
      assert OnlyTablesDiffer(role1, role2, copy, copy);
      DeletePageDirectory(p, copy);
      NothingLost(m0, role0, role1, role2, p.role, copy);
      return NULL_FRAME;
    }
    CopyComplete(m0, role0, m1, role1, p.P(), p.role, copy, pd);
  }

  /** A copy into a cleared directory takes what the address space owns, and is refused only for want of it. */
  lemma CopyCosts(m0: Phys, role0: Roles, m1: Phys, copy: Addr, d: Addr)
    requires Inv(m0, role0) && d in role0 && role0[d] == Dir && d in m0.mem && d in m1.mem && copy in m1.mem
    requires m1.mem[d] == m0.mem[d] && m1.mem[copy] == ClearFrame()
    requires forall pi {:trigger Lookup(m1, d, pi)} :: 0 <= pi < 0x10_0000 ==> Lookup(m1, d, pi) == Lookup(m0, d, pi)
    ensures !Refused(m1, copy, d, 0, 0x10_0000, false)
    ensures Refused(m1, copy, d, 0, 0x10_0000, true) <==> |m1.free| < |Owned(role0, d)|
    ensures forall m {:trigger Paid(m1, m, copy, d, 0, 0x10_0000)} :: Paid(m1, m, copy, d, 0, 0x10_0000) ==>
      |m.free| + |Owned(role0, d)| == |m1.free|
  {
    hide Entry, Lookup, Frames, SpaceSize, Owned, Inv, ClearFrame;
    OwnedSize(m0, role0, d);
    ClearIsEmpty();
    EmptyTakesAll(m0, role0, m1, copy, d, 0x10_0000);
    EmptyNoClash(m1, copy, d, 0x10_0000);
  }

  /** A cleared frame from the list as a directory; it has no tables. */
  lemma NewDirectory(m: Phys, role: Roles, pd: Addr)
    requires Inv(m, role) && m.free != [] && pd in role && role[pd] == Dir
    ensures m.free[0] in role && role[m.free[0]] == Free && m.free[0] != pd && m.free[0] in m.mem
    ensures role.Keys == m.mem.Keys
    ensures var x := m.free[0]; var m', role' := PopF(m).(mem := m.mem[x := ClearFrame()]), role[x := Dir];
      && Inv(m', role') && pd in m'.mem && pd in m.mem
      && (forall y :: y in role' ==> !IsTableOf(role', x, y))
      && (forall pi {:trigger Lookup(m', pd, pi)} :: 0 <= pi < 0x10_0000 ==> Lookup(m', pd, pi) == Lookup(m, pd, pi))
  {
    hide Entry, Base, Avail, FreeListOk, RoleOk, ClearFrame;
    var x := m.free[0];
    PopKeeps(m, role);
    FillKeeps(PopF(m), role[x := Held], x, ClearFrame());
    var m' := PopF(m).(mem := m.mem[x := ClearFrame()]);
    ClearIsEmpty();
    DirKeeps(m', role[x := Held], x);
    assert role[x := Held][x := Dir] == role[x := Dir];
    forall y | y in role
      ensures !IsTableOf(role[x := Dir], x, y)
    {
      if IsTableOf(role, x, y) { TableDir(m, role, y); }
    }
    forall pi | 0 <= pi < 0x10_0000
      ensures Lookup(m', pd, pi) == Lookup(m, pd, pi)
    {
      if Present(Entry(m.mem[pd], pi / 1024)) { TableAt(m, role, pd, pi / 1024); }
    }
  }

  lemma ClearIsEmpty()
    ensures Empty(ClearFrame())
  {
    ZeroNotShared();
  }

  lemma TableDir(m: Phys, role: Roles, t: Addr)
    requires Inv(m, role) && t in role && role[t].Table? && role[t].dir != NULL_FRAME
    ensures role[t].dir in role && role[role[t].dir] == Dir
  {
    assert RoleOk(m, role, t);
  }

  /** A failed copy that is deleted has not changed the use of any frame. */
  lemma NothingLost(m0: Phys, role0: Roles, role1: Roles, role2: Roles, role3: Roles, x: Addr)
    requires Inv(m0, role0) && x in role0 && role0[x] == Free && role1 == role0[x := Dir] && role2.Keys == role1.Keys
    requires forall y :: y in role1 ==> !IsTableOf(role1, x, y)
    requires forall y {:trigger OnlyTablesDiffer(role1, role2, x, y)} :: y in role1 ==>
      OnlyTablesDiffer(role1, role2, x, y)
    requires DeletedRoles(role2, role3, x)
    ensures role3 == role0
  {
    forall y | y in role0
      ensures role3[y] == role0[y]
    {
      PagesSmall(m0, role0, y);
      assert OnlyTablesDiffer(role1, role2, x, y);
      if role0[y].Page? { assert OnlyTablesDiffer(role1, role2, x, role0[y].table); }
    }
  }

  lemma CopyComplete(m0: Phys, role0: Roles, m1: Phys, role1: Roles, m: Phys, role: Roles, x: Addr, pd: Addr)
    requires Inv(m0, role0) && Inv(m1, role1) && x in role0 && role0[x] == Free && role1 == role0[x := Dir]
    requires pd in role0 && role0[pd] == Dir
    requires pd in m0.mem && pd in m1.mem
    requires (forall pi {:trigger Lookup(m1, pd, pi)} :: 0 <= pi < 0x10_0000 ==>
      Lookup(m1, pd, pi) == Lookup(m0, pd, pi))
    requires forall y :: y in m0.mem && y != x ==> y in m1.mem && m1.mem[y] == m0.mem[y]
    requires DirCopied(m1, role1, m, role, x, pd, 0, 0x10_0000)
    ensures CopyRoles(role0, role, x)
    ensures forall pi {:trigger DeepCopyAt(m0, role0, m, x, pd, pi)} :: 0 <= pi < 0x10_0000 ==>
      DeepCopyAt(m0, role0, m, x, pd, pi)
  {
    hide Entry, Base, Avail, FreeListOk, RoleOk, Lookup, User, Writable, UnderDir;
    forall y | y in role0
      ensures if role0[y] != Free then role[y] == role0[y] else role[y] == Free || y == x || UnderDir(role, x, y)
    {
      assert DirFrameKept(m1, role1, m, role, x, y) && TakenForDir(role1, role, x, false, y);
    }
    assert DirFrameKept(m1, role1, m, role, x, x) && DirFrameKept(m1, role1, m, role, x, pd);
    forall pi | 0 <= pi < 0x10_0000
      ensures DeepCopyAt(m0, role0, m, x, pd, pi)
    {
      assert CopiedAt(m1, role1, m, x, pd, pi);
      OtherViewsKept(m1, role1, m, role, x, pd, pi);
      if IsUnique(Lookup(m0, pd, pi)) { PageBehind(m0, role0, pd, pi); }
    }
  }

  /** Copying an address space and deleting the copy gives back exactly the frames that were free. */
  lemma CopyThenDelete(m0: Phys, role0: Roles, m1: Phys, role1: Roles, m2: Phys, role2: Roles, copy: Addr)
    requires Inv(m0, role0) && Inv(m1, role1) && Inv(m2, role2)
    requires CopyRoles(role0, role1, copy) && DeletedRoles(role1, role2, copy)
    ensures role2 == role0 && forall x :: x in m2.free <==> x in m0.free
  {
    hide FreeListOk;
    forall y | y in role0
      ensures role2[y] == role0[y]
    {
      if role0[y] != Free {
        PagesSmall(m0, role0, y);
        if role0[y].Table? && role0[y].dir != NULL_FRAME { TableDir(m0, role0, y); }
        TableNotNull(m0, role0, copy);
        if role0[y].Page? && role0[role0[y].table].dir != NULL_FRAME { TableDir(m0, role0, role0[y].table); }
      }
    }
    assert role2 == role0;
    forall x
      ensures x in m2.free <==> x in m0.free
    {
      assert x in role0 ==> RoleOk(m0, role0, x) && RoleOk(m2, role2, x);
    }
  }

  // ---------------------------------------------------------------------------
  // Looking up
  // ---------------------------------------------------------------------------

  /** pd_get_underlying_p: the frame behind a page, or none. */
  method GetUnderlying(p: Pager, pd: Addr, pi: nat) returns (x: Addr)
    requires p.Valid() && pd in p.role && p.role[pd] == Dir && pi < 0x10_0000
    modifies p.slots
    ensures p.slots[..] == old(p.slots[..]) && p.Valid() && pd in p.mem
    ensures x == if Present(Lookup(p.P(), pd, pi)) then Base(Lookup(p.P(), pd, pi)) else NULL_FRAME
  {
    hide Entry, Base, Avail, Present, FreeListOk, RoleOk, Inv;
    DirInMem(p.P(), p.role, pd);
    NothingAtZero();
    var old0 := p.AssignFreePage(0, pd);
    var pde := Entry(p.mem[p.slots[0]], pi / 1024);
    x := NULL_FRAME;
    if Present(pde) {
      TableAt(p.P(), p.role, pd, pi / 1024);
      var pt := p.AssignFreePage(0, Base(pde));
      var pte := Entry(p.mem[p.slots[0]], pi % 1024);
      if Present(pte) {
        BaseNat(pte);
        x := Base(pte);
      }
    }
    old0 := p.AssignFreePage(0, old0);
  }

  lemma BaseNat(w: int)
    requires 0 <= w
    ensures 0 <= Base(w)
  {
  }
}
