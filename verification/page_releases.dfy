/**
  Freeing ranges of an address space, tables included.
 */
module PageReleases {
  import opened RawMemory
  import opened PageEntries
  import opened PageRoles
  import opened PageSteps
  import opened PageRanges
  import opened PageViews

  /** `x` is the page of some page index of `d` in [s, i). */
  ghost predicate PageIn(role: Roles, d: Addr, s: nat, i: nat, x: Addr) {
    && x in role && role[x].Page? && IsTableOf(role, d, role[x].table)
    && s <= 1024 * role[role[x].table].pdi + role[x].pti < i
  }

  /** `x` is the table of a whole 1024 pages of `d` in [s, i). */
  ghost predicate TableIn(role: Roles, d: Addr, s: nat, i: nat, x: Addr) {
    IsTableOf(role, d, x) && s <= 1024 * role[x].pdi && 1024 * role[x].pdi + 1024 <= i
  }

  /** `x` is shared and mapped by `d` in [s, i). */
  ghost predicate SharedIn(m: Phys, role: Roles, d: Addr, s: nat, i: nat, x: Addr) {
    && x in role && role[x] == Shared && d in m.mem
    && exists pi {:trigger Lookup(m, d, pi)} ::
        s <= pi < i && pi < 0x10_0000 && IsShared(Lookup(m, d, pi)) && Base(Lookup(m, d, pi)) == x
  }

  /** What is to be free once pages below `i` and tables below `tb` are released. */
  ghost predicate ToFree(m0: Phys, role0: Roles, d: Addr, shared: bool, s: nat, i: nat, tb: nat, x: Addr) {
    PageIn(role0, d, s, i, x) || TableIn(role0, d, s, tb, x) || (shared && SharedIn(m0, role0, d, s, i, x))
  }

  /** The role of a frame after that, and its content while it is in use. */
  ghost predicate Released(
      m0: Phys, role0: Roles, m: Phys, role: Roles, d: Addr, shared: bool, s: nat, i: nat, tb: nat, x: Addr) {
    && x in role0 && x in role && x in m0.mem && x in m.mem
    && role[x] == (if ToFree(m0, role0, d, shared, s, i, tb, x) then Free else role0[x])
    && (role[x] != Free && x != d && !IsTableOf(role0, d, x) ==> m.mem[x] == m0.mem[x])
  }

  /**
    Pages [s, i) of `d` are not mapped any more, and exactly the frames behind them are free now, with the
    tables of which all pages lie in [s, tb).
   */
  ghost predicate DirFreed(
      m0: Phys, role0: Roles, m: Phys, role: Roles, d: Addr, shared: bool, s: nat, i: nat, tb: nat) {
    && Inv(m, role) && role.Keys == role0.Keys && d in role0 && role0[d] == Dir && d in m.mem && s <= i <= 0x10_0000
        && tb <= i
    && (forall pi {:trigger Lookup(m, d, pi)} :: s <= pi < i ==> !Present(Lookup(m, d, pi)))
    && (forall pi {:trigger SameAt(m0, m, d, pi)} :: 0 <= pi < 0x10_0000 && !(s <= pi < i) ==> SameAt(m0, m, d, pi))
    && (forall x {:trigger Released(m0, role0, m, role, d, shared, s, i, tb, x)} :: x in role0 ==>
        Released(m0, role0, m, role, d, shared, s, i, tb, x))
  }

  lemma NoneDirFreed(m: Phys, role: Roles, d: Addr, shared: bool, s: nat)
    requires Inv(m, role) && d in role && role[d] == Dir && s <= 0x10_0000
    ensures DirFreed(m, role, m, role, d, shared, s, s, s)
  {
    hide Lookup, Entry;
    forall x | x in role
      ensures Released(m, role, m, role, d, shared, s, s, s, x)
    {
    }
  }

  /** The directory and the tables still to come are where they were. */
  lemma NotYet(m0: Phys, role0: Roles, m: Phys, role: Roles, d: Addr, shared: bool, s: nat, i: nat, tb: nat, x: Addr)
    requires DirFreed(m0, role0, m, role, d, shared, s, i, tb) && x in role0
    ensures x == d ==> role[x] == Dir
    ensures IsTableOf(role0, d, x) && 1024 * role0[x].pdi + 1024 > tb ==> role[x] == role0[x]
    ensures role0[x].Table? && role0[x].dir != d ==> role[x] == role0[x]
    ensures role[x] != Free ==> role[x] == role0[x]
  {
    hide Lookup, Entry;
    assert Released(m0, role0, m, role, d, shared, s, i, tb, x);
  }

  /** Only one frame is the table of an entry of a directory. */
  lemma TableUnique(m: Phys, role: Roles, d: Addr, k: nat, t: Addr, u: Addr)
    requires Inv(m, role) && d in role && role[d] == Dir && t in role && u in role && role[t] == Table(d, k)
    requires role[u] == Table(d, k)
    ensures t == u
  {
    hide Entry, Base;
    DirectoryOf(m, role, d, k, t);
    DirectoryOf(m, role, d, k, u);
  }

  /** What a table's entries [a, b) own is what the directory's pages [1024k + a, 1024k + b) own. */
  lemma SameUnder(
      m0: Phys, role0: Roles, m: Phys, role: Roles, d: Addr, shared: bool, s: nat, k: nat, t: Addr, a: nat, b: nat,
      tb: nat, x: Addr)
    requires Inv(m0, role0) && k < 1024 && a <= b <= 1024
    requires DirFreed(m0, role0, m, role, d, shared, s, 1024 * k + a, tb)
    requires t in role && role[t] == Table(d, k) && x in role0
    ensures ToFree(m0, role0, d, shared, s, 1024 * k + b, tb, x)
      <==> ToFree(m0, role0, d, shared, s, 1024 * k + a, tb, x) || WasUnder(m, role, t, shared, a, b, x)
  {
    hide Lookup, Entry, Base, Avail, FreeListOk, RoleOk;
    NotYet(m0, role0, m, role, d, shared, s, 1024 * k + a, tb, t);
    assert Released(m0, role0, m, role, d, shared, s, 1024 * k + a, tb, x)
      && Released(m0, role0, m, role, d, shared, s, 1024 * k + a, tb, d);
    if role0[x].Page? && IsTableOf(role0, d, role0[x].table) && role0[role0[x].table].pdi == k {
      TableUnique(m0, role0, d, k, t, role0[x].table);
    }
    PagesSmall(m0, role0, x);
    if role0[x] == Shared { SharedUnder(m0, role0, m, role, d, s, k, t, a, b, shared, tb, x); }
  }

  lemma PagesSmall(m: Phys, role: Roles, x: Addr)
    requires Inv(m, role) && x in role
    ensures role[x].Page? ==> role[x].pti < 1024 && role[x].table in role && role[role[x].table].Table?
  {
    assert RoleOk(m, role, x);
  }

  /** `x` is mapped as shared by an entry of `t` in [a, b). */
  ghost predicate SharedEntry(m: Phys, t: Addr, a: nat, b: nat, x: Addr) {
    t in m.mem && exists j :: a <= j < b && j < 1024 && IsShared(Entry(m.mem[t], j)) && Base(Entry(m.mem[t], j)) == x
  }

  lemma SharedUnder(
      m0: Phys, role0: Roles, m: Phys, role: Roles, d: Addr, s: nat, k: nat, t: Addr, a: nat, b: nat, shared: bool,
      tb: nat, x: Addr)
    requires k < 1024 && a <= b <= 1024 && DirFreed(m0, role0, m, role, d, shared, s, 1024 * k + a, tb)
    requires t in role && role[t] == Table(d, k) && x in role0 && role0[x] == Shared && d in role && role[d] == Dir
    ensures SharedIn(m0, role0, d, s, 1024 * k + b, x) <==> (SharedIn(m0, role0, d, s, 1024 * k + a, x)
      || SharedEntry(m, t, a, b, x))
  {
    hide Lookup, Entry, Base, Avail, FreeListOk, RoleOk, Inv, Released;
    if SharedIn(m0, role0, d, s, 1024 * k + b, x) && !SharedIn(m0, role0, d, s, 1024 * k + a, x) {
      var pi :| s <= pi < 1024 * k + b && pi < 0x10_0000 && IsShared(Lookup(m0, d, pi)) && Base(Lookup(m0, d, pi)) == x;
      SameShared(m0, role0, m, role, d, s, k, t, a, shared, tb, pi);
      assert a <= pi % 1024 < b && IsShared(Entry(m.mem[t], pi % 1024));
    }
    if SharedEntry(m, t, a, b, x) {
      var j :| a <= j < b && j < 1024 && IsShared(Entry(m.mem[t], j)) && Base(Entry(m.mem[t], j)) == x;
      SameShared(m0, role0, m, role, d, s, k, t, a, shared, tb, 1024 * k + j);
      assert Base(Lookup(m0, d, 1024 * k + j)) == x;
    }
    DirMem(m0, role0, m, role, d, shared, s, 1024 * k + a, tb);
  }

  lemma DirMem(m0: Phys, role0: Roles, m: Phys, role: Roles, d: Addr, shared: bool, s: nat, i: nat, tb: nat)
    requires DirFreed(m0, role0, m, role, d, shared, s, i, tb)
    ensures d in m0.mem && d in m.mem && d in role && role[d] == Dir && Inv(m, role)
  {
    hide Lookup;
    assert Released(m0, role0, m, role, d, shared, s, i, tb, d);
  }

  /** A page that is yet to come, in table `t`. */
  lemma SameShared(
      m0: Phys, role0: Roles, m: Phys, role: Roles, d: Addr, s: nat, k: nat, t: Addr, a: nat, shared: bool, tb: nat,
      pi: nat)
    requires k < 1024 && a <= 1024 && DirFreed(m0, role0, m, role, d, shared, s, 1024 * k + a, tb)
    requires t in role && role[t] == Table(d, k) && d in role && role[d] == Dir && 1024 * k + a <= pi < 1024 * k + 1024
    ensures t in m.mem && d in m0.mem && pi < 0x10_0000
    ensures IsShared(Lookup(m0, d, pi)) <==> IsShared(Entry(m.mem[t], pi % 1024))
    ensures IsShared(Lookup(m0, d, pi)) ==> Base(Lookup(m0, d, pi)) == Base(Entry(m.mem[t], pi % 1024))
  {
    hide Entry, Base, Avail, RoleOk, FreeListOk;
    assert SameAt(m0, m, d, pi);
    DirectoryOf(m, role, d, k, t);
    TableAt(m, role, d, k);
  }

  // ---------------------------------------------------------------------------
  // The steps of a release
  // ---------------------------------------------------------------------------

  /** Entries [a, b) of the table for the next pages are cleared. */
  lemma FreedMore(
      m0: Phys, role0: Roles, m1: Phys, role1: Roles, m2: Phys, role2: Roles, d: Addr, shared: bool, s: nat, k: nat,
      t: Addr, a: nat, b: nat, tb: nat)
    requires Inv(m0, role0) && k < 1024 && a <= b <= 1024 && s <= 1024 * k + b
    requires DirFreed(m0, role0, m1, role1, d, shared, s, 1024 * k + a, tb)
    requires t in role1 && role1[t] == Table(d, k) && Freed(m1, role1, m2, role2, t, shared, a, b)
    ensures DirFreed(m0, role0, m2, role2, d, shared, s, 1024 * k + b, tb)
  {
    hide Lookup, Entry, Base, Avail, FreeListOk, RoleOk, ToFree, WasUnder;
    DirMem(m0, role0, m1, role1, d, shared, s, 1024 * k + a, tb);
    NotYetTable(m0, role0, m1, role1, d, shared, s, 1024 * k + a, tb, t);
    FreedView(m1, role1, m2, role2, d, k, t, shared, a, b);
    forall pi | 0 <= pi < 0x10_0000
      ensures if s <= pi < 1024 * k + b then !Present(Lookup(m2, d, pi)) else SameAt(m0, m2, d, pi)
    {
      FreedPage(m0, role0, m1, role1, m2, role2, d, shared, s, k, t, a, b, tb, pi);
    }
    forall x | x in role0
      ensures Released(m0, role0, m2, role2, d, shared, s, 1024 * k + b, tb, x)
    {
      SameUnder(m0, role0, m1, role1, d, shared, s, k, t, a, b, tb, x);
      assert Released(m0, role0, m1, role1, d, shared, s, 1024 * k + a, tb, x);
      assert FreedRole(m1, role1, role2, t, shared, a, b, x) && ContentKept(m1, m2, role2, t, x);
    }
  }

  lemma NotYetTable(
      m0: Phys, role0: Roles, m: Phys, role: Roles, d: Addr, shared: bool, s: nat, i: nat, tb: nat, t: Addr)
    requires DirFreed(m0, role0, m, role, d, shared, s, i, tb) && t in role && role[t].Table?
    ensures t in role0 && role0[t] == role[t]
  {
    NotYet(m0, role0, m, role, d, shared, s, i, tb, t);
  }

  lemma FreedPage(
      m0: Phys, role0: Roles, m1: Phys, role1: Roles, m2: Phys, role2: Roles, d: Addr, shared: bool, s: nat, k: nat,
      t: Addr, a: nat, b: nat, tb: nat, pi: nat)
    requires k < 1024 && a <= b <= 1024 && DirFreed(m0, role0, m1, role1, d, shared, s, 1024 * k + a, tb)
    requires pi < 0x10_0000
    requires d in m0.mem && d in m2.mem && t in m1.mem && t in m2.mem
    requires Lookup(m2, d, pi) == if pi / 1024 == k then Entry(m2.mem[t], pi % 1024) else Lookup(m1, d, pi)
    requires pi / 1024 == k ==> Lookup(m1, d, pi) == Entry(m1.mem[t], pi % 1024)
    requires forall j :: a <= j < b ==> Entry(m2.mem[t], j) == 0
    requires forall j {:trigger SameEntry(m1, m2, t, j)} :: 0 <= j < 1024 && !(a <= j < b) ==> SameEntry(m1, m2, t, j)
    ensures if s <= pi < 1024 * k + b then !Present(Lookup(m2, d, pi)) else SameAt(m0, m2, d, pi)
  {
    hide Lookup, Entry, Base, Avail, FreeListOk, RoleOk, Inv, Released;
    ZeroNotShared();
    if pi / 1024 == k && !(a <= pi % 1024 < b) { assert SameEntry(m1, m2, t, pi % 1024); }
    if !(s <= pi < 1024 * k + a) { assert SameAt(m0, m1, d, pi); }
  }

  /** Clearing entries of one table changes only the pages of its directory entry. */
  lemma FreedView(
      m1: Phys, role1: Roles, m2: Phys, role2: Roles, d: Addr, k: nat, t: Addr, shared: bool, a: nat, b: nat)
    requires Inv(m1, role1) && d in role1 && role1[d] == Dir && t in role1 && role1[t] == Table(d, k)
    requires Freed(m1, role1, m2, role2, t, shared, a, b)
    ensures d in m2.mem && t in m1.mem && t in m2.mem && Inv(m2, role2)
    ensures forall pi {:trigger Lookup(m2, d, pi)} :: 0 <= pi < 0x10_0000 ==>
      Lookup(m2, d, pi) == if pi / 1024 == k then Entry(m2.mem[t], pi % 1024) else Lookup(m1, d, pi)
    ensures forall pi {:trigger Lookup(m1, d, pi)} :: 0 <= pi < 0x10_0000 && pi / 1024 == k ==>
      Lookup(m1, d, pi) == Entry(m1.mem[t], pi % 1024)
  {
    hide Entry, Base, Avail, FreeListOk, RoleOk, WasUnder;
    DirectoryOf(m1, role1, d, k, t);
    TableAt(m1, role1, d, k);
    RoleNotUnder(m1, role1, role2, t, shared, a, b, d);
    assert FreedRole(m1, role1, role2, t, shared, a, b, d) && ContentKept(m1, m2, role2, t, d);
    forall pi | 0 <= pi < 0x10_0000
      ensures Lookup(m2, d, pi) == if pi / 1024 == k then Entry(m2.mem[t], pi % 1024) else Lookup(m1, d, pi)
    {
      if pi / 1024 != k && Present(Entry(m1.mem[d], pi / 1024)) {
        TableAt(m1, role1, d, pi / 1024);
        var u := Base(Entry(m1.mem[d], pi / 1024));
        RoleNotUnder(m1, role1, role2, t, shared, a, b, u);
        assert FreedRole(m1, role1, role2, t, shared, a, b, u) && ContentKept(m1, m2, role2, t, u);
      }
    }
  }

  lemma RoleNotUnder(m1: Phys, role1: Roles, role2: Roles, t: Addr, shared: bool, a: nat, b: nat, x: Addr)
    requires x in role1 && (role1[x] == Dir || role1[x].Table?)
    ensures !WasUnder(m1, role1, t, shared, a, b, x)
  {
  }

  /** A table whose pages are only in part in the range stays. */
  lemma TableStays(m0: Phys, role0: Roles, m: Phys, role: Roles, d: Addr, shared: bool, s: nat, k: nat, a: nat, b: nat)
    requires k < 1024 && a < b <= 1024 && (a > 0 ==> s == 1024 * k + a) && (a > 0 || b < 1024)
    requires DirFreed(m0, role0, m, role, d, shared, s, 1024 * k + b, 1024 * k + a)
    ensures DirFreed(m0, role0, m, role, d, shared, s, 1024 * k + b, 1024 * k + b)
  {
    hide Lookup, Entry, Inv, SharedIn, PageIn;
    forall x | x in role0
      ensures Released(m0, role0, m, role, d, shared, s, 1024 * k + b, 1024 * k + b, x)
    {
      assert Released(m0, role0, m, role, d, shared, s, 1024 * k + b, 1024 * k + a, x);
    }
  }

  /** Where there is no table, no page is mapped, and nothing is to be freed. */
  lemma NoTable(m0: Phys, role0: Roles, m: Phys, role: Roles, d: Addr, shared: bool, s: nat, k: nat, a: nat, b: nat)
    requires Inv(m0, role0) && k < 1024 && a < b <= 1024 && s <= 1024 * k + a && d in m.mem
    requires !Present(Entry(m.mem[d], k))
    requires DirFreed(m0, role0, m, role, d, shared, s, 1024 * k + a, 1024 * k + a)
    ensures DirFreed(m0, role0, m, role, d, shared, s, 1024 * k + b, 1024 * k + b)
  {
    hide Entry, Base, Avail, FreeListOk, RoleOk, SharedIn, PageIn, TableIn;
    ZeroNotShared();
    forall x | x in role0
      ensures Released(m0, role0, m, role, d, shared, s, 1024 * k + b, 1024 * k + b, x)
    {
      assert Released(m0, role0, m, role, d, shared, s, 1024 * k + a, 1024 * k + a, x);
      NothingToFree(m0, role0, m, role, d, shared, s, k, a, b, x);
    }
    forall pi | 0 <= pi < 0x10_0000 && !(s <= pi < 1024 * k + b)
      ensures SameAt(m0, m, d, pi)
    {
    }
  }

  lemma NothingToFree(
      m0: Phys, role0: Roles, m: Phys, role: Roles, d: Addr, shared: bool, s: nat, k: nat, a: nat, b: nat, x: Addr)
    requires Inv(m0, role0) && k < 1024 && a < b <= 1024 && s <= 1024 * k + a && d in m.mem
    requires !Present(Entry(m.mem[d], k))
    requires DirFreed(m0, role0, m, role, d, shared, s, 1024 * k + a, 1024 * k + a) && x in role0
    ensures ToFree(m0, role0, d, shared, s, 1024 * k + b, 1024 * k + b, x) <==> ToFree(m0, role0, d, shared, s,
      1024 * k + a, 1024 * k + a, x)
  {
    hide Entry, Base, Avail, FreeListOk, RoleOk;
    ZeroNotShared();
    DirMem(m0, role0, m, role, d, shared, s, 1024 * k + a, 1024 * k + a);
    PagesSmall(m0, role0, x);
    if IsTableOf(role0, d, x) { NoTableHere(m0, role0, m, role, d, shared, s, k, a, x); }
    if role0[x].Page? && IsTableOf(role0, d,
      role0[x].table) { NoTableHere(m0, role0, m, role, d, shared, s, k, a, role0[x].table); }
    forall pi {:trigger Lookup(m0, d, pi)} | 1024 * k + a <= pi < 1024 * k + b && pi < 0x10_0000
      ensures !Present(Lookup(m0, d, pi))
    {
      assert SameAt(m0, m, d, pi);
    }
  }

  lemma NoTableHere(
      m0: Phys, role0: Roles, m: Phys, role: Roles, d: Addr, shared: bool, s: nat, k: nat, a: nat, t: Addr)
    requires k < 1024 && a <= 1024 && d in m.mem && !Present(Entry(m.mem[d], k))
    requires DirFreed(m0, role0, m, role, d, shared, s, 1024 * k + a, 1024 * k + a) && IsTableOf(role0, d, t)
    ensures a < 1024 ==> role0[t].pdi != k
  {
    hide Entry, Base, Lookup;
    if role0[t].pdi == k && a < 1024 {
      NotYet(m0, role0, m, role, d, shared, s, 1024 * k + a, 1024 * k + a, t);
      DirMem(m0, role0, m, role, d, shared, s, 1024 * k + a, 1024 * k + a);
      DirectoryOf(m, role, d, k, t);
    }
  }

  /** A table all of whose pages are released goes too. */
  lemma TableGoes(m0: Phys, role0: Roles, m: Phys, role: Roles, d: Addr, shared: bool, s: nat, k: nat, t: Addr)
    requires Inv(m0, role0) && k < 1024 && s <= 1024 * k
    requires DirFreed(m0, role0, m, role, d, shared, s, 1024 * k + 1024, 1024 * k)
    requires t in role && role[t] == Table(d, k)
    ensures t in m.mem && d in m.mem && t != d && FrameAddr(t) && t !in m.free
    ensures (m.free != [] ==> m.free[0] < WORD_LIMIT)
    ensures Present(Entry(m.mem[d], k)) && Base(Entry(m.mem[d], k)) == t
    ensures DirFreed(m0, role0, Put(PushF(m, t), d, k, 0), role[t := Free], d, shared, s, 1024 * k + 1024,
      1024 * k + 1024)
  {
    hide Entry, SetEntry, Base, Avail, FreeListOk, RoleOk, PageIn, SharedIn, Lookup;
    DirMem(m0, role0, m, role, d, shared, s, 1024 * k + 1024, 1024 * k);
    DirectoryOf(m, role, d, k, t);
    TableEmpty(m0, role0, m, role, d, shared, s, k, t);
    FreeTableKeeps(m, role, d, k);
    PushEntries(m, t, d);
    PutEntries(PushF(m, t), d, k, 0);
    var m', role' := Put(PushF(m, t), d, k, 0), role[t := Free];
    NotYetTable(m0, role0, m, role, d, shared, s, 1024 * k + 1024, 1024 * k, t);
    forall pi | 0 <= pi < 0x10_0000
      ensures if s <= pi < 1024 * k + 1024 then !Present(Lookup(m', d, pi)) else SameAt(m0, m', d, pi)
    {
      if s <= pi < 1024 * k + 1024 { assert !Present(Lookup(m, d, pi)); } else { assert SameAt(m0, m, d, pi); }
      GoneView(m, role, m', d, k, t, pi);
    }
    forall x | x in role0
      ensures Released(m0, role0, m', role', d, shared, s, 1024 * k + 1024, 1024 * k + 1024, x)
    {
      assert Released(m0, role0, m, role, d, shared, s, 1024 * k + 1024, 1024 * k, x);
      if IsTableOf(role0, d, x) && role0[x].pdi == k { TableUnique(m0, role0, d, k, t, x); }
    }
  }

  lemma TableEmpty(m0: Phys, role0: Roles, m: Phys, role: Roles, d: Addr, shared: bool, s: nat, k: nat, t: Addr)
    requires k < 1024 && s <= 1024 * k && DirFreed(m0, role0, m, role, d, shared, s, 1024 * k + 1024, 1024 * k)
    requires t in role && role[t] == Table(d, k) && d in role && role[d] == Dir
    ensures t in m.mem && Empty(m.mem[t])
  {
    hide Entry, Base, Released, RoleOk;
    DirectoryOf(m, role, d, k, t);
    TableAt(m, role, d, k);
    forall j | 0 <= j < 1024
      ensures !Present(Entry(m.mem[t], j))
    {
      assert !Present(Lookup(m, d, 1024 * k + j));
      assert (1024 * k + j) / 1024 == k && (1024 * k + j) % 1024 == j;
    }
  }

  lemma GoneView(m: Phys, role: Roles, m': Phys, d: Addr, k: nat, t: Addr, pi: nat)
    requires Inv(m, role) && d in role && role[d] == Dir && t in role && role[t] == Table(d, k) && pi < 0x10_0000
    requires m'.mem.Keys == m.mem.Keys && k < 1024 && Entry(m'.mem[d], k) == 0
    requires forall j :: 0 <= j < 1024 && j != k ==> Entry(m'.mem[d], j) == Entry(m.mem[d], j)
    requires forall y :: y in m.mem && y != t && y != d ==> m'.mem[y] == m.mem[y]
    ensures d in m'.mem && Lookup(m', d, pi) == if pi / 1024 == k then 0 else Lookup(m, d, pi)
  {
    hide Entry, Base, RoleOk;
    ZeroNotShared();
    if pi / 1024 != k && Present(Entry(m.mem[d], pi / 1024)) {
      TableAt(m, role, d, pi / 1024);
    }
  }

  // ---------------------------------------------------------------------------
  // Returning shared frames
  // ---------------------------------------------------------------------------

  /** Shared frames mapped in [s, e) are mapped nowhere else. */
  ghost predicate DirMayReturn(m: Phys, role: Roles, d: Addr, s: nat, e: nat)
    requires role.Keys == m.mem.Keys
  {
    forall t, j {:trigger Entry(m.mem[t], j)} ::
      IsTableOf(role, d, t) && j < 1024 && s <= 1024 * role[t].pdi + j < e && IsShared(Entry(m.mem[t], j)) ==>
      SoleShare(m, role, t, j)
  }

  /** That holds for the table that is next. */
  lemma ReturnNext(
      m0: Phys, role0: Roles, m: Phys, role: Roles, d: Addr, s: nat, k: nat, t: Addr, a: nat, b: nat, e: nat)
    requires Inv(m0, role0) && k < 1024 && a <= b <= 1024 && s <= 1024 * k + a && 1024 * k + b <= e
    requires DirFreed(m0, role0, m, role, d, true, s, 1024 * k + a, 1024 * k + a) && DirMayReturn(m0, role0, d, s, e)
    requires t in role && role[t] == Table(d, k)
    ensures role.Keys == m.mem.Keys && MayReturn(m, role, t, a, b)
  {
    hide Entry, Base, Avail, FreeListOk, RoleOk, Released, ToFree, Lookup;
    DirMem(m0, role0, m, role, d, true, s, 1024 * k + a, 1024 * k + a);
    NotYetTable(m0, role0, m, role, d, true, s, 1024 * k + a, 1024 * k + a, t);
    forall j | a <= j < b && IsShared(Entry(m.mem[t], j))
      ensures SoleShare(m, role, t, j)
    {
      LiveEntry(m0, role0, m, role, d, s, 1024 * k + a, t, j);
      assert SoleShare(m0, role0, t, j);
      forall u, i {:trigger Entry(m.mem[u], i)} | u in role && role[u].Table? && 0 <= i < 1024
        && IsShared(Entry(m.mem[u], i))
          && Base(Entry(m.mem[u], i)) == Base(Entry(m.mem[t], j))
        ensures u == t && i == j
      {
        NotYetTable(m0, role0, m, role, d, true, s, 1024 * k + a, 1024 * k + a, u);
        LiveEntry(m0, role0, m, role, d, s, 1024 * k + a, u, i);
      }
    }
  }

  /** An entry that is still present is as it was. */
  lemma LiveEntry(m0: Phys, role0: Roles, m: Phys, role: Roles, d: Addr, s: nat, i: nat, t: Addr, j: nat)
    requires Inv(m0, role0) && DirFreed(m0, role0, m, role, d, true, s, i, i) && t in role && role[t].Table?
    requires t in role0 && role0[t] == role[t]
    requires j < 1024 && t in m.mem && Present(Entry(m.mem[t], j))
    ensures t in m0.mem && Entry(m0.mem[t], j) == Entry(m.mem[t], j)
  {
    hide Entry, Base, Avail, FreeListOk, RoleOk, ToFree, Lookup;
    assert Released(m0, role0, m, role, d, true, s, i, i, t) && Released(m0, role0, m, role, d, true, s, i, i, d);
    DirMem(m0, role0, m, role, d, true, s, i, i);
    if role[t].dir == d {
      var k := role[t].pdi;
      DirectoryOf(m, role, d, k, t);
      DirectoryOf(m0, role0, d, k, t);
      TableAt(m, role, d, k);
      TableAt(m0, role0, d, k);
      var pi := 1024 * k + j;
      assert pi / 1024 == k && pi % 1024 == j;
      assert Lookup(m, d, pi) == Entry(m.mem[t], j) && Lookup(m0, d, pi) == Entry(m0.mem[t], j);
      assert s <= pi < i || SameAt(m0, m, d, pi);
    }
  }

  // ---------------------------------------------------------------------------
  // A copy undone, and a copy deleted
  // ---------------------------------------------------------------------------

  /** A frame changes its use only between being free and being an empty table of `d`. */
  ghost predicate OnlyTablesDiffer(role0: Roles, role: Roles, d: Addr, x: Addr) {
    x in role0 && x in role
    && (role[x] == role0[x] || (role0[x] == Free && IsTableOf(role, d, x))
        || (role[x] == Free && IsTableOf(role0, d, x)))
  }
}
