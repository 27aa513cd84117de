/**
  How many frames an address space owns, and so how many a copy of it takes.
 */
module PageCosts {
  import opened PageEntries
  import opened PageRoles
  import opened PageRanges
  import opened PageViews
  import opened PageCopies

  /** The tables of directory `d` and the unique pages in them. */
  ghost function Owned(role: Roles, d: Addr): set<Addr> {
    set x | x in role && UnderDir(role, d, x)
  }

  /** Unique pages before page `i`, and tables that begin before it. */
  ghost function SpaceSize(m: Phys, d: Addr, i: nat): nat
    requires d in m.mem && i <= 0x10_0000
  {
    if i == 0 then 0 else SpaceSize(m, d, i - 1) + |OwnedAt(m, d, i - 1)|
  }

  /** What page `i` adds: its own frame, and its table's when it is the first page there. */
  ghost function OwnedAt(m: Phys, d: Addr, i: nat): set<Addr>
    requires d in m.mem && i < 0x10_0000
  {
    set x | x in m.mem && (PageAt(m, d, i, x) || TableBegins(m, d, i, x))
  }

  ghost predicate PageAt(m: Phys, d: Addr, i: nat, x: Addr)
    requires d in m.mem && i < 0x10_0000
  {
    IsUnique(Lookup(m, d, i)) && Base(Lookup(m, d, i)) == x
  }

  ghost predicate TableBegins(m: Phys, d: Addr, i: nat, x: Addr)
    requires d in m.mem && i < 0x10_0000
  {
    i % 1024 == 0 && Present(Entry(m.mem[d], i / 1024)) && Base(Entry(m.mem[d], i / 1024)) == x
  }

  /** The first page a frame of `d` counts for. */
  ghost function PlaceOf(role: Roles, d: Addr, x: Addr): int
    requires UnderDir(role, d, x)
  {
    if role[x].Table? then 1024 * role[x].pdi else 1024 * role[role[x].table].pdi + role[x].pti
  }

  ghost function OwnedTo(role: Roles, d: Addr, i: nat): set<Addr> {
    set x | x in role && UnderDir(role, d, x) && PlaceOf(role, d, x) < i
  }

  /** The frames that count for page `i` are the table and the page there. */
  lemma PlacedAt(m: Phys, role: Roles, d: Addr, x: Addr, i: nat)
    requires Inv(m, role) && d in role && role[d] == Dir && i < 0x10_0000
    ensures d in m.mem && (x in OwnedAt(m, d, i) <==> x in role && UnderDir(role, d, x) && PlaceOf(role, d, x) == i)
  {
    hide Entry, Base, Avail, FreeListOk, Lookup;
    if UnderDir(role, d, x) {
      if role[x].Table? {
        DirectoryOf(m, role, d, role[x].pdi, x);
      } else {
        PageLookup(m, role, d, x);
      }
    }
    if IsUnique(Lookup(m, d, i)) { PageBehind(m, role, d, i); }
    if Present(Entry(m.mem[d], i / 1024)) { TableAt(m, role, d, i / 1024); }
  }

  /** A page and its table are two frames. */
  lemma TwoFrames(m: Phys, role: Roles, d: Addr, i: nat)
    requires Inv(m, role) && d in role && role[d] == Dir && i < 0x10_0000
    ensures d in m.mem && |OwnedAt(m, d, i)| == (if IsUnique(Lookup(m, d, i)) then 1 else 0)
      + if i % 1024 == 0 && Present(Entry(m.mem[d], i / 1024)) then 1 else 0
  {
    hide Entry, Base, Avail, FreeListOk, Lookup, Present, RoleOk;
    var page, table := Base(Lookup(m, d, i)), Base(Entry(m.mem[d], i / 1024));
    var hasPage, hasTable := IsUnique(Lookup(m, d, i)), i % 1024 == 0 && Present(Entry(m.mem[d], i / 1024));
    if hasPage { PageBehind(m, role, d, i); }
    if hasTable { TableAt(m, role, d, i / 1024); }
    if hasPage && hasTable {
      assert OwnedAt(m, d, i) == {page, table};
    } else if hasPage {
      assert OwnedAt(m, d, i) == {page};
    } else if hasTable {
      assert OwnedAt(m, d, i) == {table};
    } else {
      assert OwnedAt(m, d, i) == {};
    }
  }

  /** The size is the number of frames. */
  lemma {:induction false} OwnedCount(m: Phys, role: Roles, d: Addr, i: nat)
    requires Inv(m, role) && d in role && role[d] == Dir && i <= 0x10_0000
    ensures d in m.mem && SpaceSize(m, d, i) == |OwnedTo(role, d, i)|
  {
    hide OwnedAt, Inv, UnderDir, PlaceOf;
    DirectoryThere(m, role, d);
    if i == 0 {
      NothingBefore(role, d);
    } else {
      OwnedCount(m, role, d, i - 1);
      forall x
        ensures x in OwnedAt(m, d, i - 1) <==> x in role && UnderDir(role, d, x) && PlaceOf(role, d, x) == i - 1
      {
        PlacedAt(m, role, d, x, i - 1);
      }
      var a, b := OwnedTo(role, d, i - 1), OwnedTo(role, d, i);
      assert b == a + OwnedAt(m, d, i - 1) && a !! OwnedAt(m, d, i - 1);
    }
  }

  lemma DirectoryThere(m: Phys, role: Roles, d: Addr)
    requires Inv(m, role) && d in role
    ensures d in m.mem
  {
  }

  lemma NothingBefore(role: Roles, d: Addr)
    ensures OwnedTo(role, d, 0) == {}
  {
    forall x | x in role && UnderDir(role, d, x)
      ensures PlaceOf(role, d, x) >= 0
    {
    }
  }

  /** All frames of a directory are found within its pages. */
  lemma OwnedSize(m: Phys, role: Roles, d: Addr)
    requires Inv(m, role) && d in role && role[d] == Dir
    ensures d in m.mem && SpaceSize(m, d, 0x10_0000) == |Owned(role, d)|
  {
    hide Entry, Base, Avail, FreeListOk, Lookup, SpaceSize;
    OwnedCount(m, role, d, 0x10_0000);
    forall x | x in role && UnderDir(role, d, x)
      ensures PlaceOf(role, d, x) < 0x10_0000
    {
      if role[x].Table? { DirectoryOf(m, role, d, role[x].pdi, x); } else { PageLookup(m, role, d, x); }
    }
    assert Owned(role, d) == OwnedTo(role, d, 0x10_0000);
  }

  /** Copying into an empty directory takes as many frames. */
  lemma {:induction false} EmptyTakesAll(m0: Phys, role0: Roles, m1: Phys, copy: Addr, d: Addr, i: nat)
    requires Inv(m0, role0) && d in role0 && role0[d] == Dir && d in m0.mem && d in m1.mem && copy in m1.mem
    requires i <= 0x10_0000
    requires m1.mem[d] == m0.mem[d] && forall k :: 0 <= k < 1024 ==> !Present(Entry(m1.mem[copy], k))
    requires forall pi {:trigger Lookup(m1, d, pi)} :: 0 <= pi < 0x10_0000 ==> Lookup(m1, d, pi) == Lookup(m0, d, pi)
    ensures Frames(m1, copy, d, 0, i) == SpaceSize(m0, d, i)
  {
    hide Entry, Lookup, OwnedAt, Inv, Present, IsUnique;
    if i > 0 {
      EmptyTakesAll(m0, role0, m1, copy, d, i - 1);
      TwoFrames(m0, role0, d, i - 1);
    }
  }

  lemma EmptyNoClash(m: Phys, copy: Addr, d: Addr, i: nat)
    requires d in m.mem && copy in m.mem && forall k :: 0 <= k < 1024 ==> !Present(Entry(m.mem[copy], k))
    ensures NoClash(m, copy, d, 0, i)
  {
    hide Entry;
    NothingAtZero();
  }

  lemma NothingAtZero()
    ensures !Present(0)
  {
  }
}
