/**
  The mapping of a page directory, page index by page index, and what range operations do to it.
 */
module PageViews {
  import opened RawMemory
  import opened PageEntries
  import opened PageRoles
  import opened PageSteps
  import opened PageRanges

  /** The entry for page `pi` of directory `d`, or 0 when there is no table for it. */
  ghost function Lookup(m: Phys, d: Addr, pi: nat): int
    requires d in m.mem && pi < 0x10_0000
  {
    var pde := Entry(m.mem[d], pi / 1024);
    if Present(pde) && Base(pde) in m.mem then Entry(m.mem[Base(pde)], pi % 1024) else 0
  }

  ghost predicate IsTableOf(role: Roles, d: Addr, x: Addr) {
    x in role && role[x].Table? && role[x].dir == d
  }

  /** The table of entry `k` of a directory. */
  lemma TableAt(m: Phys, role: Roles, d: Addr, k: nat)
    requires Inv(m, role) && d in role && role[d] == Dir && k < 1024 && Present(Entry(m.mem[d], k))
    ensures var t := Base(Entry(m.mem[d], k));
      && t in role && role[t] == Table(d, k) && t in m.mem && t != d
      && forall pi {:trigger Lookup(m, d, pi)} :: 0 <= pi < 0x10_0000 && pi / 1024 == k ==>
          Lookup(m, d, pi) == Entry(m.mem[t], pi % 1024)
  {
    hide Entry, Base;
    assert RoleOk(m, role, d) && DirEntryOk(m, role, d, k);
  }

  /** Pages that differ in nothing but how an absent entry is written. */
  ghost predicate SameAt(m0: Phys, m: Phys, d: Addr, pi: nat) {
    && d in m0.mem && d in m.mem && pi < 0x10_0000
    && (Present(Lookup(m, d, pi)) <==> Present(Lookup(m0, d, pi)))
    && (Present(Lookup(m, d, pi)) ==> Lookup(m, d, pi) == Lookup(m0, d, pi))
  }

  /** A frame in use keeps its role; its content too, unless it is `d` or one of its tables. */
  ghost predicate DirFrameKept(m0: Phys, role0: Roles, m: Phys, role: Roles, d: Addr, x: Addr) {
    && x in role0 && x in role && x in m0.mem && x in m.mem
    && (role0[x] != Free ==> role[x] == role0[x] && (x != d && !IsTableOf(role0, d, x) ==> m.mem[x] == m0.mem[x]))
  }

  ghost predicate DirKept(m0: Phys, role0: Roles, m: Phys, role: Roles, d: Addr) {
    && role.Keys == role0.Keys && d in role0 && role0[d] == Dir
    && forall x {:trigger DirFrameKept(m0, role0, m, role, d, x)} :: x in role0 ==>
        DirFrameKept(m0, role0, m, role, d, x)
  }

  /** The frame belongs to directory `d`, as a table of it or as a page of one of its tables. */
  ghost predicate UnderDir(role: Roles, d: Addr, x: Addr) {
    x in role && (IsTableOf(role, d, x) || (role[x].Page? && IsTableOf(role, d, role[x].table)))
  }

  /** A free frame is still free, or belongs to `d` now, or is shared when that was asked for. */
  ghost predicate TakenForDir(role0: Roles, role: Roles, d: Addr, shared: bool, x: Addr) {
    x in role0 && x in role && role0[x] == Free ==>
      role[x] == Free || UnderDir(role, d, x) || (shared && role[x] == Shared)
  }

  lemma OtherViewsKept(m0: Phys, role0: Roles, m: Phys, role: Roles, d: Addr, d2: Addr, pi: nat)
    requires Inv(m0, role0) && Inv(m, role) && DirKept(m0, role0, m, role, d) && d2 in role0 && role0[d2] == Dir
    requires d2 != d && pi < 0x10_0000
    ensures d2 in m0.mem && d2 in m.mem && Lookup(m, d2, pi) == Lookup(m0, d2, pi)
  {
    hide Entry, Base, FreeListOk;
    assert DirFrameKept(m0, role0, m, role, d, d2);
    if Present(Entry(m0.mem[d2], pi / 1024)) {
      TableAt(m0, role0, d2, pi / 1024);
      assert DirFrameKept(m0, role0, m, role, d, Base(Entry(m0.mem[d2], pi / 1024)));
    }
  }

  // ---------------------------------------------------------------------------
  // A new, empty table
  // ---------------------------------------------------------------------------

  lemma NewTableStep(m: Phys, role: Roles, d: Addr, k: nat, w: int)
    requires Inv(m, role) && d in role && role[d] == Dir && k < 1024 && !Present(Entry(m.mem[d], k)) && m.free != []
    requires 0 <= w < WORD_LIMIT && Present(w) && Base(w) == m.free[0]
    ensures m.free[0] in role && m.free[0] != d && role[m.free[0]] == Free
    ensures var x := m.free[0];
      var m', role' := Put(PopF(m).(mem := m.mem[x := ClearFrame()]), d, k, w), role[x := Table(d, k)];
      && Inv(m', role') && DirKept(m, role, m', role', d) && m'.mem[x] == ClearFrame()
      && (forall pi {:trigger SameAt(m, m', d, pi)} :: 0 <= pi < 0x10_0000 ==> SameAt(m, m', d, pi))
      && Entry(m'.mem[d], k) == w
  {
    hide Entry, SetEntry, Base, Avail, Present, FreeListOk, RoleOk, ClearFrame;
    var x := m.free[0];
    NewTableKeeps(m, role, d, k, w);
    var m1 := PopF(m).(mem := m.mem[x := ClearFrame()]);
    var m', role' := Put(m1, d, k, w), role[x := Table(d, k)];
    PutEntries(m1, d, k, w);
    forall y | y in role
      ensures DirFrameKept(m, role, m', role', d, y)
    {
    }
    forall pi | 0 <= pi < 0x10_0000
      ensures SameAt(m, m', d, pi)
    {
      NewTableView(m, role, m', d, k, x, pi);
    }
  }

  lemma NewTableView(m: Phys, role: Roles, m': Phys, d: Addr, k: nat, x: Addr, pi: nat)
    requires Inv(m, role) && d in role && role[d] == Dir && k < 1024 && !Present(Entry(m.mem[d], k)) && pi < 0x10_0000
    requires x in role && role[x] == Free && m'.mem.Keys == m.mem.Keys && m'.mem[x] == ClearFrame() && x != d
    requires forall y :: y in m.mem && y != x && y != d ==> m'.mem[y] == m.mem[y]
    requires forall j :: 0 <= j < 1024 && j != k ==> Entry(m'.mem[d], j) == Entry(m.mem[d], j)
    requires Present(Entry(m'.mem[d], k)) && Base(Entry(m'.mem[d], k)) == x
    ensures SameAt(m, m', d, pi)
  {
    hide Entry, Base, FreeListOk, RoleOk;
    var i := pi / 1024;
    ZeroNotShared();
    if i != k && Present(Entry(m.mem[d], i)) {
      TableAt(m, role, d, i);
    }
  }

  // ---------------------------------------------------------------------------
  // A change of one table
  // ---------------------------------------------------------------------------

  /** When only table `t` changes, only the pages of its entry of the directory do. */
  lemma TableChanged(m: Phys, role: Roles, m': Phys, role': Roles, d: Addr, k: nat, t: Addr)
    requires Inv(m, role) && Inv(m', role') && d in role && role[d] == Dir && k < 1024 && t in role
    requires role[t] == Table(d, k)
    requires OthersKept(m, role, m', role', t)
    ensures d in m.mem && d in m'.mem && t in m.mem && t in m'.mem && d != t && role'[d] == Dir
    ensures role'[t] == Table(d, k)
    ensures m'.mem[d] == m.mem[d] && Present(Entry(m.mem[d], k)) && Base(Entry(m.mem[d], k)) == t
    ensures forall pi {:trigger Lookup(m', d, pi)} :: 0 <= pi < 0x10_0000 ==>
      Lookup(m', d, pi) == if pi / 1024 == k then Entry(m'.mem[t], pi % 1024) else Lookup(m, d, pi)
    ensures forall pi {:trigger Lookup(m, d, pi)} :: 0 <= pi < 0x10_0000 && pi / 1024 == k ==>
      Lookup(m, d, pi) == Entry(m.mem[t], pi % 1024)
    ensures forall x {:trigger DirFrameKept(m, role, m', role', d, x)} :: x in role ==>
      DirFrameKept(m, role, m', role', d, x)
  {
    hide Entry, Base, FreeListOk, RoleOk;
    DirectoryOf(m, role, d, k, t);
    assert FrameKept(m, role, m', role', d);
    TableAt(m, role, d, k);
    TableAt(m', role', d, k);
    forall pi | 0 <= pi < 0x10_0000
      ensures Lookup(m', d, pi) == if pi / 1024 == k then Entry(m'.mem[t], pi % 1024) else Lookup(m, d, pi)
    {
      if pi / 1024 != k && Present(Entry(m.mem[d], pi / 1024)) {
        TableAt(m, role, d, pi / 1024);
        assert FrameKept(m, role, m', role', Base(Entry(m.mem[d], pi / 1024)));
      }
    }
    forall x | x in role
      ensures DirFrameKept(m, role, m', role', d, x)
    {
      if role[x] != Free && x != t { assert FrameKept(m, role, m', role', x); }
    }
  }

  lemma DirectoryOf(m: Phys, role: Roles, d: Addr, k: nat, t: Addr)
    requires Inv(m, role) && d in role && role[d] == Dir && t in role && role[t] == Table(d, k)
    ensures d != NULL_FRAME && k < 1024 && Present(Entry(m.mem[d], k)) && Base(Entry(m.mem[d], k)) == t && t != d
  {
    hide Entry, Base;
    assert RoleOk(m, role, d) && RoleOk(m, role, t);
  }

  lemma DirKeptTwice(a: Phys, ra: Roles, b: Phys, rb: Roles, c: Phys, rc: Roles, d: Addr)
    requires DirKept(a, ra, b, rb, d) && DirKept(b, rb, c, rc, d)
    ensures DirKept(a, ra, c, rc, d)
  {
    forall x | x in ra
      ensures DirFrameKept(a, ra, c, rc, d, x)
    {
      assert DirFrameKept(a, ra, b, rb, d, x) && DirFrameKept(b, rb, c, rc, d, x);
    }
  }

  // ---------------------------------------------------------------------------
  // Allocating
  // ---------------------------------------------------------------------------

  ghost predicate FreshAt(m0: Phys, role0: Roles, m: Phys, d: Addr, user: bool, shared: bool, pi: nat) {
    && d in m0.mem && d in m.mem && pi < 0x10_0000 && !Present(Lookup(m0, d, pi))
    && var w := Lookup(m, d, pi);
       && (if shared then IsShared(w) else IsUnique(w)) && User(w) == user && Writable(w)
       && Base(w) in role0 && role0[Base(w)] == Free
  }

  /** Pages [s, i) of the directory are freshly allocated, and no other page is affected. */
  ghost predicate DirAllocated(
      m0: Phys, role0: Roles, m: Phys, role: Roles, d: Addr, user: bool, shared: bool, s: nat, i: nat) {
    && Inv(m, role) && DirKept(m0, role0, m, role, d) && s <= i <= 0x10_0000
    && (forall pi {:trigger FreshAt(m0, role0, m, d, user, shared, pi)} :: s <= pi < i ==>
        FreshAt(m0, role0, m, d, user, shared, pi))
    && (forall pi {:trigger SameAt(m0, m, d, pi)} :: 0 <= pi < 0x10_0000 && !(s <= pi < i) ==> SameAt(m0, m, d, pi))
    && (forall x {:trigger TakenForDir(role0, role, d, shared, x)} :: x in role0 ==>
        TakenForDir(role0, role, d, shared, x))
  }

  lemma NoneDirAllocated(m: Phys, role: Roles, d: Addr, user: bool, shared: bool, s: nat)
    requires Inv(m, role) && d in role && role[d] == Dir && s <= 0x10_0000
    ensures DirAllocated(m, role, m, role, d, user, shared, s, s)
  {
    hide Lookup;
    forall x | x in role
      ensures DirFrameKept(m, role, m, role, d, x)
    {
    }
  }

  /** A step that maps nothing: a table was added. */
  lemma AllocatedThenTable(
      m0: Phys, role0: Roles, m1: Phys, role1: Roles, m2: Phys, role2: Roles, d: Addr, user: bool, shared: bool,
      s: nat, i: nat, x: Addr, k: nat)
    requires DirAllocated(m0, role0, m1, role1, d, user, shared, s, i) && Inv(m2, role2)
    requires DirKept(m1, role1, m2, role2, d)
    requires forall pi {:trigger SameAt(m1, m2, d, pi)} :: 0 <= pi < 0x10_0000 ==> SameAt(m1, m2, d, pi)
    requires x in role1 && role1[x] == Free && role2 == role1[x := Table(d, k)]
    ensures DirAllocated(m0, role0, m2, role2, d, user, shared, s, i)
  {
    hide Lookup, Entry, Base, Avail, Inv;
    DirKeptTwice(m0, role0, m1, role1, m2, role2, d);
    forall pi | 0 <= pi < 0x10_0000
      ensures if s <= pi < i then FreshAt(m0, role0, m2, d, user, shared, pi) else SameAt(m0, m2, d, pi)
    {
      assert SameAt(m1, m2, d, pi);
      if s <= pi < i { assert FreshAt(m0, role0, m1, d, user, shared, pi); }
      else { assert SameAt(m0, m1, d, pi); }
    }
    forall y | y in role0
      ensures TakenForDir(role0, role2, d, shared, y)
    {
      assert TakenForDir(role0, role1, d, shared, y);
    }
  }

  /** Entries [a, b) of the table for the next pages are allocated. */
  lemma AllocatedMore(
      m0: Phys, role0: Roles, m1: Phys, role1: Roles, m2: Phys, role2: Roles, d: Addr, user: bool, shared: bool,
      s: nat, k: nat, t: Addr, a: nat, b: nat)
    requires k < 1024 && a <= b <= 1024 && DirAllocated(m0, role0, m1, role1, d, user, shared, s, 1024 * k + a)
    requires t in role1 && role1[t] == Table(d, k) && Allocated(m1, role1, m2, role2, t, user, shared, a, b)
    ensures DirAllocated(m0, role0, m2, role2, d, user, shared, s, 1024 * k + b)
  {
    hide Lookup, Entry, Base, Avail, RoleOk, FreeListOk;
    assert DirFrameKept(m0, role0, m1, role1, d, d);
    TableChanged(m1, role1, m2, role2, d, k, t);
    DirKeptTwice(m0, role0, m1, role1, m2, role2, d);
    forall pi | 0 <= pi < 0x10_0000
      ensures if s <= pi < 1024 * k + b then FreshAt(m0, role0, m2, d, user, shared, pi) else SameAt(m0, m2, d, pi)
    {
      var i, j := pi / 1024, pi % 1024;
      if i == k && a <= j < b {
        assert Fresh(m1, role1, m2, t, user, shared, j) && SameAt(m0, m1, d, pi);
        assert DirFrameKept(m0, role0, m1, role1, d, Base(Lookup(m2, d, pi)));
      } else {
        if i == k { assert SameEntry(m1, m2, t, j); }
        if s <= pi < 1024 * k + a { assert FreshAt(m0, role0, m1, d, user, shared, pi); }
        else { assert SameAt(m0, m1, d, pi); }
      }
    }
    forall y | y in role0
      ensures TakenForDir(role0, role2, d, shared, y)
    {
      assert TakenForDir(role0, role1, d, shared, y) && TakenFor(role1, role2, t, shared, a, b, y);
      assert DirFrameKept(m1, role1, m2, role2, d, y);
      if role1[y].Page? && role1[y].table in role1 { assert DirFrameKept(m1, role1, m2, role2, d, role1[y].table); }
    }
  }
}
