/**
  Physical pages reached through a few window slots: the free list, and ranges of one page table.
 */
module PageMemory {
  import opened RawMemory
  import opened PageEntries
  import opened PageRoles
  import opened PageRanges

  datatype Code = Success | NoMem | AlreadyAllocated | InvalidRange | BadArgs

  class Pager {
    var mem: map<Addr, Frame>
    const slots: array<Addr>
    var head: Addr
    var len: nat
    ghost var free: seq<Addr>
    ghost var role: Roles

    ghost function P(): Phys
      reads this
    {
      Phys(mem, free)
    }

    /** The head and the length of the free list, whose links are in the frames themselves. */
    ghost predicate ListValid()
      reads this
    {
      && slots.Length == 4 && FreeListOk(P())
      && head == (if free == [] then NULL_FRAME else free[0]) && len == |free|
      && forall x :: x in free ==> FrameAddr(x)
    }

    ghost predicate Valid()
      reads this
    {
      ListValid() && Inv(P(), role)
    }

    constructor (mem: map<Addr, Frame>, free: seq<Addr>, ghost role: Roles)
      requires Inv(Phys(mem, free), role)
      ensures Valid() && P() == Phys(mem, free) && this.role == role && slots[..] == [0, 0, 0, 0] && fresh(slots)
    {
      this.mem, this.free, this.role := mem, free, role;
      slots := new Addr[4](i => 0);
      head, len := if free == [] then NULL_FRAME else free[0], |free|;
      new;
      forall x | x in free
        ensures FrameAddr(x)
      {
        assert RoleOk(P(), role, x);
      }
    }

    /** assign_free_page: maps window slot `slot` to a frame, and says which it showed before. */
    method AssignFreePage(slot: nat, p: Addr) returns (old_: Addr)
      requires slot < slots.Length
      modifies slots
      ensures slots[..] == old(slots[..])[slot := p] && old_ == old(slots[slot])
    {
      old_ := slots[slot];
      slots[slot] := p;
    }

    method PushFreePage(a: Addr)
      requires ListValid() && a in mem && a !in free && FrameAddr(a)
      modifies this`mem, this`head, this`len, this`free, slots
      ensures ListValid() && (old(free) != [] ==> old(free)[0] < WORD_LIMIT) && P() == PushF(old(P()), a)
      ensures slots[..] == old(slots[..])
    {
      if a % 4096 != 0 {
        return;
      }
      assert free != [] ==> free[0] in free;
      PushList(P(), a);
      var old_ := AssignFreePage(0, a);
      mem := mem[slots[0] := SetEntry(mem[slots[0]], 0, head)];
      old_ := AssignFreePage(0, old_);
      head := a;
      len := len + 1;
      free := [a] + free;
    }

    method PopFreePage() returns (a: Addr)
      requires ListValid()
      modifies this`head, this`len, this`free, slots
      ensures ListValid() && slots[..] == old(slots[..])
      ensures old(free) == [] ==> a == NULL_FRAME && P() == old(P())
      ensures old(free) != [] ==> a == old(free)[0] && FrameAddr(a) && P() == PopF(old(P()))
    {
      assert free != [] ==> free[0] in free;
      if head == NULL_FRAME {
        return NULL_FRAME;
      }
      PopList(P());
      var old_ := AssignFreePage(0, head);
      var next := Entry(mem[slots[0]], 0);
      old_ := AssignFreePage(0, old_);
      a := head;
      head := next;
      len := len - 1;
      free := free[1..];
    }

    // -------------------------------------------------------------------------
    // Ranges of one table
    // -------------------------------------------------------------------------

    /** Writes an entry of the frame that window slot 0 shows. */
    method SetWindowEntry(i: nat, w: int)
      requires ListValid() && slots[0] in mem && slots[0] !in free && i < 1024 && 0 <= w < WORD_LIMIT
      modifies this`mem
      ensures P() == Put(old(P()), slots[0], i, w) && ListValid()
    {
      PutEntries(P(), slots[0], i, w);
      ListFrame(P(), Put(P(), slots[0], i, w));
      mem := mem[slots[0] := SetEntry(mem[slots[0]], i, w)];
    }

    /** pt_alloc_range: allocates entries of table `pt` up to `end`, and says how far it came. */
    method PtAllocRange(pt: Addr, user: bool, shared: bool, s: nat, e: nat) returns (code: Code, end: nat)
      requires Valid() && pt in role && role[pt].Table?
      modifies this, slots
      ensures Valid() && slots[..] == old(slots[..])
      ensures code == InvalidRange <==> s >= 1024 || e > 1024 || e < s
      ensures code == InvalidRange ==> P() == old(P()) && role == old(role)
      ensures code != InvalidRange ==>
        s <= end <= e <= 1024 && Allocated(old(P()), old(role), P(), role, pt, user, shared, s, end)
      ensures code == Success ==> end == e
      ensures code == AlreadyAllocated ==> end < e && Present(Entry(old(mem)[pt], end))
      ensures code == NoMem ==> end < e && free == []
      ensures code in {Success, NoMem, AlreadyAllocated, InvalidRange}
    {
      hide Entry, SetEntry, Base, Avail, Present, Writable, User, FreeListOk, RoleOk, Allocated, Inv;
      if s >= 1024 || e > 1024 || e < s {
        return InvalidRange, s;
      }
      ghost var m0, role0 := P(), role;
      NoneAllocated(m0, role0, pt, user, shared, s);
      if s == e {
        return Success, e;
      }
      code := Success;
      var i := s;
      InvTable(m0, role0, pt);
      var old_ := AssignFreePage(0, pt);
      while i < e
        invariant s <= i <= e && slots.Length == 4 && slots[..] == old(slots[..])[0 := pt] && Valid()
        invariant Allocated(m0, role0, P(), role, pt, user, shared, s, i) && pt in mem
      {
        AllocatedTable(m0, role0, P(), role, pt, user, shared, s, i);
        if Present(Entry(mem[slots[0]], i)) {
          code := AlreadyAllocated;
          break;
        }
        ghost var m := P();
        var x := PopFreePage();
        if x == NULL_FRAME {
          code := NoMem;
          break;
        }
        var w := MakeEntry(x, user, true, if shared then SHARED else UNIQUE);
        OneMoreAllocated(m0, role0, m, role, pt, user, shared, s, i, w);
        PopLeaves(m, pt);
        SetWindowEntry(i, w);
        role := role[x := if shared then Shared else Page(pt, i)];
        AllocatedInv(m0, role0, P(), role, pt, user, shared, s, i + 1);
        i := i + 1;
      }
      old_ := AssignFreePage(0, old_);
      end := i;
    }

    /** pt_free_range: clears entries of table `pt` and returns the frames they own. */
    method PtFreeRange(pt: Addr, returnShared: bool, s: nat, e: nat)
      requires Valid() && pt in role && role[pt].Table?
      requires returnShared && e <= 1024 ==> MayReturn(P(), role, pt, s, e)
      modifies this, slots
      ensures Valid() && slots[..] == old(slots[..])
      ensures s >= e || s > 1023 || e > 1024 ==> P() == old(P()) && role == old(role)
      ensures s < e <= 1024 ==> Freed(old(P()), old(role), P(), role, pt, returnShared, s, e)
    {
      hide Entry, SetEntry, Base, Avail, Present, FreeListOk, RoleOk, Freed, Inv, MayReturn;
      if s == e {
        return;
      }
      if s > 1023 || e > 1024 || e < s {
        return;
      }
      ghost var m0, role0 := P(), role;
      NoneFreed(m0, role0, pt, returnShared, s);
      InvTable(m0, role0, pt);
      var old_ := AssignFreePage(0, pt);
      var i := s;
      while i < e
        invariant s <= i <= e && slots.Length == 4 && slots[..] == old(slots[..])[0 := pt] && Valid()
        invariant Freed(m0, role0, P(), role, pt, returnShared, s, i) && pt in mem
      {
        ghost var m := P();
        FreedTable(m0, role0, m, role, pt, returnShared, s, i);
        InvTable(m, role, pt);
        var w := Entry(mem[slots[0]], i);
        if Present(w) && (Avail(w) == UNIQUE || (Avail(w) == SHARED && returnShared)) {
          if returnShared { MayReturnPart(m0, role0, pt, s, i + 1, e); }
          FreeReturns(m0, role0, m, role, pt, returnShared, s, i);
          PushFreePage(Base(w));
          PushLeaves(m, Base(w), pt);
          SetWindowEntry(i, 0);
          role := role[Base(w) := Free];
        } else {
          FreeClears(m0, role0, m, role, pt, returnShared, s, i);
          SetWindowEntry(i, 0);
        }
        FreedInv(m0, role0, P(), role, pt, returnShared, s, i + 1);
        i := i + 1;
      }
      old_ := AssignFreePage(0, old_);
    }

    /** page_copy */
    method PageCopy(dest: Addr, src: Addr)
      requires ListValid() && dest in mem && src in mem && dest !in free
      modifies this`mem, slots
      ensures ListValid() && slots[..] == old(slots[..])
      ensures P() == old(P()).(mem := old(mem)[dest := old(mem)[src]])
    {
      ListFrame(P(), P().(mem := mem[dest := mem[src]]));
      var old0 := AssignFreePage(0, dest);
      var old1 := AssignFreePage(1, src);
      mem := mem[slots[0] := mem[slots[1]]];
      old0 := AssignFreePage(0, old0);
      old1 := AssignFreePage(1, old1);
    }

    /**
      pt_copy_range: deep copies of the unique pages and shallow ones of the other entries, or, on any
      failure, the same mapping and the same use of every frame as before.
     */
    method PtCopyRange(dest: Addr, src: Addr, s: nat, e: nat) returns (code: Code)
      requires Valid() && dest in role && role[dest].Table? && src in role && role[src].Table? && dest != src
      modifies this, slots
      ensures Valid() && slots[..] == old(slots[..])
      ensures code == InvalidRange <==> s >= 1024 || e > 1024 || s > e
      ensures code == Success ==> Copied(old(P()), old(role), P(), role, dest, src, s, e)
      ensures code != Success ==> role == old(role) && SameMapping(old(P()), P(), dest) && role.Keys == mem.Keys
      ensures code != Success ==>
        forall x {:trigger ContentKept(old(P()), P(), role, dest, x)} :: x in role ==>
          ContentKept(old(P()), P(), role, dest, x)
      ensures code == AlreadyAllocated ==> exists j :: s <= j < e && Present(Entry(old(mem)[dest], j))
      ensures code == NoMem ==> |old(free)| < Uniques(old(mem)[src], s, e)
      ensures code == Success ==> |free| + Uniques(old(mem)[src], s, e) == |old(free)|
      ensures code == Success ==> forall j :: s <= j < e ==> !Present(Entry(old(mem)[dest], j))
      ensures code in {Success, NoMem, AlreadyAllocated, InvalidRange}
    {
      hide Entry, SetEntry, Base, Avail, Present, User, Writable, FreeListOk, RoleOk, Copied, Freed, Inv, Uniques;
      ghost var m0, role0 := P(), role;
      InvTable(m0, role0, dest);
      InvTable(m0, role0, src);
      NothingCopied(m0, role0, dest);
      if s >= 1024 || e > 1024 || s > e {
        return InvalidRange;
      }
      var at;
      code, at := CopyEntries(dest, src, s, e);
      if code == Success {
        CopiedAbsent(m0, role0, P(), role, dest, src, s, e);
      } else {
        if code == NoMem { TooMany(m0.mem[src], s, at, e); }
        ghost var m1, role1 := P(), role;
        CopiedTables(m0, role0, m1, role1, dest, src, s, at);
        NoneFreed(m1, role1, dest, false, s);
        PtFreeRange(dest, false, s, at);
        CopyUndone(m0, role0, m1, role1, P(), role, dest, src, s, at);
        InvTable(P(), role, dest);
      }
    }

    method CopyEntries(dest: Addr, src: Addr, s: nat, e: nat) returns (code: Code, end: nat)
      requires Valid() && dest in role && role[dest].Table? && src in role && role[src].Table? && dest != src
      requires s < 1024 && s <= e <= 1024
      modifies this, slots
      ensures Valid() && slots[..] == old(slots[..]) && s <= end <= e
      ensures Copied(old(P()), old(role), P(), role, dest, src, s, end) && src in old(mem)
      ensures |free| + Uniques(old(mem)[src], s, end) == |old(free)|
      ensures code == Success ==> end == e
      ensures code == AlreadyAllocated ==> end < e && Present(Entry(old(mem)[dest], end))
      ensures code == NoMem ==> end < e && free == [] && IsUnique(Entry(old(mem)[src], end))
      ensures code in {Success, NoMem, AlreadyAllocated}
    {
      hide Entry, SetEntry, Base, Avail, Present, User, Writable, FreeListOk, RoleOk, Copied, Inv;
      ghost var m0, role0 := P(), role;
      NoneCopied(m0, role0, dest, src, s);
      InvTable(m0, role0, dest);
      InvTable(m0, role0, src);
      var old0 := AssignFreePage(0, dest);
      var old1 := AssignFreePage(1, src);
      code := Success;
      var i := s;
      while i < e && code == Success
        invariant s <= i <= e && slots.Length == 4 && slots[..] == old(slots[..])[0 := dest][1 := src] && Valid()
        invariant Copied(m0, role0, P(), role, dest, src, s, i)
        invariant |free| + Uniques(m0.mem[src], s, i) == |m0.free|
        invariant code == AlreadyAllocated ==> i < e && Present(Entry(m0.mem[dest], i))
        invariant code == NoMem ==> i < e && free == [] && IsUnique(Entry(m0.mem[src], i))
        invariant code in {Success, NoMem, AlreadyAllocated}
        decreases e - i, code == Success
      {
        code := CopyEntry(dest, src, s, i, m0, role0);
        if code == Success {
          i := i + 1;
        }
      }
      old1 := AssignFreePage(1, old1);
      old0 := AssignFreePage(0, old0);
      end := i;
    }

    /** Entry `i`, with the tables in window slots 0 and 1. */
    method CopyEntry(
        dest: Addr, src: Addr, ghost s: nat, i: nat, ghost m0: Phys, ghost role0: Roles) returns (code: Code)
      requires Valid() && Inv(m0, role0) && dest in role0 && role0[dest].Table? && src in role0 && role0[src].Table?
      requires dest != src
      requires Copied(m0, role0, P(), role, dest, src, s, i) && i < 1024 && slots[0] == dest && slots[1] == src
      modifies this, slots
      ensures Valid() && slots[..] == old(slots[..])
      ensures Copied(m0, role0, P(), role, dest, src, s, if code == Success then i + 1 else i)
      ensures code == AlreadyAllocated ==> dest in m0.mem && Present(Entry(m0.mem[dest], i))
      ensures src in m0.mem && (code == NoMem ==> free == [] && IsUnique(Entry(m0.mem[src], i)))
      ensures |free| + (if code == Success && IsUnique(Entry(m0.mem[src], i)) then 1 else 0) == |old(free)|
      ensures code in {Success, NoMem, AlreadyAllocated}
    {
      hide Entry, SetEntry, Base, Avail, Present, User, Writable, FreeListOk, RoleOk, Copied, Inv;
      ghost var m := P();
      CopiedTables(m0, role0, m, role, dest, src, s, i);
      if Present(Entry(mem[slots[0]], i)) {
        return AlreadyAllocated;
      }
      var w0 := Entry(mem[slots[1]], i);
      if !Present(w0) {
        CopySkips(m0, role0, m, role, dest, src, s, i);
        return Success;
      }
      if IsUnique(w0) {
        var x := PopFreePage();
        if x == NULL_FRAME {
          return NoMem;
        }
        var w := MakeEntry(x, User(w0), Writable(w0), UNIQUE);
        CopyFills(m0, role0, m, role, dest, src, s, i, w);
        HeadNotLeft(m);
        PopLeaves(m, dest);
        PageCopy(x, Base(w0));
        SetWindowEntry(i, w);
        role := role[x := Page(dest, i)];
      } else {
        CopyShares(m0, role0, m, role, dest, src, s, i);
        SetWindowEntry(i, w0);
      }
      CopiedInv(m0, role0, P(), role, dest, src, s, i + 1);
      code := Success;
    }
  }

  lemma HeadNotLeft(m: Phys)
    requires FreeListOk(m) && m.free != []
    ensures m.free[0] !in PopF(m).free
  {
    PopList(m);
  }

  lemma NothingCopied(m: Phys, role: Roles, t: Addr)
    requires Inv(m, role) && t in role
    ensures SameMapping(m, m, t) && role.Keys == m.mem.Keys
    ensures forall x {:trigger ContentKept(m, m, role, t, x)} :: x in role ==> ContentKept(m, m, role, t, x)
  {
  }

  lemma CopiedInv(m0: Phys, role0: Roles, m: Phys, role: Roles, t: Addr, u: Addr, s: nat, i: nat)
    requires Copied(m0, role0, m, role, t, u, s, i)
    ensures Inv(m, role) && t in m.mem
  {
  }

  /** Both tables are still there, the source unchanged. */
  lemma CopiedTables(m0: Phys, role0: Roles, m: Phys, role: Roles, t: Addr, u: Addr, s: nat, i: nat)
    requires Inv(m0, role0) && t in role0 && role0[t].Table? && u in role0 && role0[u].Table? && u != t
    requires Copied(m0, role0, m, role, t, u, s, i)
    ensures Inv(m, role) && t in m.mem && t in role && role[t] == role0[t] && t !in m.free
    ensures u in m0.mem && u in m.mem && m.mem[u] == m0.mem[u] && role[u] == role0[u] && u !in m.free
    ensures t in m0.mem && (i < 1024 ==> Entry(m.mem[t], i) == Entry(m0.mem[t], i))
  {
    hide Entry;
    assert FrameKept(m0, role0, m, role, u);
    assert i < 1024 ==> SameEntry(m0, m, t, i);
  }

  lemma MayReturnPart(m: Phys, role: Roles, t: Addr, s: nat, i: nat, e: nat)
    requires role.Keys == m.mem.Keys && t in role && i <= e <= 1024 && MayReturn(m, role, t, s, e)
    ensures MayReturn(m, role, t, s, i)
  {
  }

  lemma PushLeaves(m: Phys, x: Addr, t: Addr)
    requires x in m.mem && (m.free != [] ==> m.free[0] < WORD_LIMIT) && t != x && t !in m.free && t in m.mem
    ensures t !in PushF(m, x).free && t in PushF(m, x).mem
  {
  }

  lemma FreedInv(m0: Phys, role0: Roles, m: Phys, role: Roles, t: Addr, shared: bool, s: nat, i: nat)
    requires Freed(m0, role0, m, role, t, shared, s, i)
    ensures Inv(m, role) && t in m.mem
  {
  }

  lemma InvTable(m: Phys, role: Roles, t: Addr)
    requires Inv(m, role) && t in role && role[t].Table?
    ensures t in m.mem && t !in m.free && role.Keys == m.mem.Keys
  {
  }

  lemma PopLeaves(m: Phys, t: Addr)
    requires m.free != [] && t !in m.free
    ensures t !in PopF(m).free
  {
  }

  lemma AllocatedInv(m0: Phys, role0: Roles, m: Phys, role: Roles, t: Addr, user: bool, shared: bool, s: nat, i: nat)
    requires Allocated(m0, role0, m, role, t, user, shared, s, i)
    ensures Inv(m, role) && t in m.mem
  {
  }

  lemma AllocatedTable(m0: Phys, role0: Roles, m: Phys, role: Roles, t: Addr, user: bool, shared: bool, s: nat, i: nat)
    requires Inv(m0, role0) && t in role0 && role0[t].Table? && Allocated(m0, role0, m, role, t, user, shared, s, i)
    ensures t in m.mem && t !in m.free && t in role && role[t] == role0[t]
    ensures i < 1024 ==> Entry(m.mem[t], i) == Entry(m0.mem[t], i)
  {
    hide Entry;
    assert i < 1024 ==> SameEntry(m0, m, t, i);
  }
}
