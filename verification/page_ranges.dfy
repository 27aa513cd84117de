/**
  What allocating, copying and freeing ranges of page table entries amounts to.
 */
module PageRanges {
  import opened RawMemory
  import opened PageEntries
  import opened PageRoles
  import opened PageSteps

  /** A frame in use keeps its role and its content. */
  ghost predicate FrameKept(m0: Phys, role0: Roles, m: Phys, role: Roles, x: Addr) {
    x in role0 && x in role && role[x] == role0[x] && x in m0.mem && x in m.mem && m.mem[x] == m0.mem[x]
  }

  /** All frames in use, other than table `t`, are kept, and `t` is still that table. */
  ghost predicate OthersKept(m0: Phys, role0: Roles, m: Phys, role: Roles, t: Addr) {
    && role.Keys == role0.Keys && t in role0 && role[t] == role0[t]
    && forall x {:trigger FrameKept(m0, role0, m, role, x)} :: x in role0 && role0[x] != Free && x != t ==>
        FrameKept(m0, role0, m, role, x)
  }

  /** A free frame is still free, or is now the page of an entry of `t` in [s, i), or shared when that was asked for. */
  ghost predicate TakenFor(role0: Roles, role: Roles, t: Addr, shared: bool, s: nat, i: nat, x: Addr) {
    x in role0 && x in role && role0[x] == Free ==>
      role[x] == Free || (if shared then role[x] == Shared
        else role[x].Page? && role[x].table == t && s <= role[x].pti < i)
  }

  ghost predicate SameEntry(m0: Phys, m: Phys, t: Addr, j: nat) {
    t in m0.mem && t in m.mem && j < 1024 && Entry(m.mem[t], j) == Entry(m0.mem[t], j)
  }

  /** An entry that was not present maps a frame that was free. */
  ghost predicate Fresh(m0: Phys, role0: Roles, m: Phys, t: Addr, user: bool, shared: bool, j: nat) {
    && t in m0.mem && t in m.mem && j < 1024 && !Present(Entry(m0.mem[t], j))
    && var w := Entry(m.mem[t], j);
       && (if shared then IsShared(w) else IsUnique(w)) && User(w) == user && Writable(w)
       && Base(w) in role0 && role0[Base(w)] == Free
  }

  /** Entries [s, i) of `t` are freshly allocated. */
  ghost predicate Allocated(
      m0: Phys, role0: Roles, m: Phys, role: Roles, t: Addr, user: bool, shared: bool, s: nat, i: nat) {
    && Inv(m, role) && OthersKept(m0, role0, m, role, t) && s <= i <= 1024
    && (forall j {:trigger Fresh(m0, role0, m, t, user, shared, j)} :: s <= j < i ==>
        Fresh(m0, role0, m, t, user, shared, j))
    && (forall j {:trigger SameEntry(m0, m, t, j)} :: 0 <= j < 1024 && !(s <= j < i) ==> SameEntry(m0, m, t, j))
    && (forall x {:trigger TakenFor(role0, role, t, shared, s, i, x)} :: TakenFor(role0, role, t, shared, s, i, x))
    && |m.free| + (i - s) == |m0.free|
  }

  lemma NoneAllocated(m: Phys, role: Roles, t: Addr, user: bool, shared: bool, s: nat)
    requires Inv(m, role) && t in role && s <= 1024
    ensures Allocated(m, role, m, role, t, user, shared, s, s)
  {
  }

  lemma OneMoreAllocated(
      m0: Phys, role0: Roles, m: Phys, role: Roles, t: Addr, user: bool, shared: bool, s: nat, i: nat, w: int)
    requires Inv(m0, role0) && t in role0 && role0[t].Table? && Allocated(m0, role0, m, role, t, user, shared, s, i)
    requires i < 1024
    requires m.free != [] && !Present(Entry(m.mem[t], i))
    requires 0 <= w < WORD_LIMIT && Base(w) == m.free[0] && User(w) == user && Writable(w)
    requires (if shared then IsShared(w) else IsUnique(w))
    ensures t in m.mem && m.free[0] in role && m.free[0] != t
    ensures var role' := role[m.free[0] := if shared then Shared else Page(t, i)];
      Allocated(m0, role0, Put(PopF(m), t, i, w), role', t, user, shared, s, i + 1)
  {
    hide Entry, SetEntry, Base, Avail, Present, Writable, User, RoleOk, FreeListOk;
    var x := m.free[0];
    assert x in m.free;
    AllocEntryKeeps(m, role, t, i, w);
    PutEntries(PopF(m), t, i, w);
    var m', role' := Put(PopF(m), t, i, w), role[x := if shared then Shared else Page(t, i)];
    assert SameEntry(m0, m, t, i);
    forall y | y in role0 && role0[y] != Free && y != t
      ensures FrameKept(m0, role0, m', role', y)
    {
      assert FrameKept(m0, role0, m, role, y);
    }
    forall j | 0 <= j < 1024
      ensures if s <= j < i + 1 then Fresh(m0, role0, m', t, user, shared, j) else SameEntry(m0, m', t, j)
    {
      if s <= j < i { assert Fresh(m0, role0, m, t, user, shared, j); }
      else { assert SameEntry(m0, m, t, j); }
      if j == i { assert role0[x] != Free && x != t ==> FrameKept(m0, role0, m, role, x); }
    }
    forall y {:trigger TakenFor(role0, role', t, shared, s, i + 1, y)}
      ensures TakenFor(role0, role', t, shared, s, i + 1, y)
    {
      assert TakenFor(role0, role, t, shared, s, i, y);
    }
  }

  // ---------------------------------------------------------------------------
  // Copying
  // ---------------------------------------------------------------------------

  /** Entry `j` of `t` is a copy of that of `u`: a frame of its own with the same content for a unique page. */
  ghost predicate CopyOf(m0: Phys, role0: Roles, m: Phys, t: Addr, u: Addr, j: nat) {
    && t in m0.mem && t in m.mem && u in m0.mem && j < 1024 && !Present(Entry(m0.mem[t], j))
    && var w0, w := Entry(m0.mem[u], j), Entry(m.mem[t], j);
       if !Present(w0) then w == Entry(m0.mem[t], j)
       else if !IsUnique(w0) then w == w0
       else
         && IsUnique(w) && User(w) == User(w0) && Writable(w) == Writable(w0)
         && Base(w) in role0 && role0[Base(w)] == Free
         && Base(w) in m.mem && Base(w0) in m0.mem && m.mem[Base(w)] == m0.mem[Base(w0)]
  }

  /** Entries [s, i) of `t` are copies of those of `u`. */
  ghost predicate Copied(m0: Phys, role0: Roles, m: Phys, role: Roles, t: Addr, u: Addr, s: nat, i: nat) {
    && Inv(m, role) && OthersKept(m0, role0, m, role, t) && s <= i <= 1024
    && (forall j {:trigger CopyOf(m0, role0, m, t, u, j)} :: s <= j < i ==> CopyOf(m0, role0, m, t, u, j))
    && (forall j {:trigger SameEntry(m0, m, t, j)} :: 0 <= j < 1024 && !(s <= j < i) ==> SameEntry(m0, m, t, j))
    && (forall x {:trigger TakenFor(role0, role, t, false, s, i, x)} :: TakenFor(role0, role, t, false, s, i, x))
  }

  /** How many unique pages the entries [s, i) of a table map: the frames that copying them takes. */
  function Uniques(f: Frame, s: nat, i: nat): nat
    requires i <= 1024
  {
    if i <= s then 0 else Uniques(f, s, i - 1) + if IsUnique(Entry(f, i - 1)) then 1 else 0
  }

  lemma {:induction false} MoreUniques(f: Frame, s: nat, i: nat, e: nat)
    requires i <= e <= 1024
    ensures Uniques(f, s, i) <= Uniques(f, s, e)
    decreases e
  {
    hide Entry, IsUnique;
    if i < e { MoreUniques(f, s, i, e - 1); }
  }

  /** A page that is out of reach when the frames run out. */
  lemma TooMany(f: Frame, s: nat, i: nat, e: nat)
    requires s <= i < e <= 1024 && IsUnique(Entry(f, i))
    ensures Uniques(f, s, i) < Uniques(f, s, e)
  {
    hide Entry;
    assert Uniques(f, s, i + 1) == Uniques(f, s, i) + 1;
    MoreUniques(f, s, i + 1, e);
  }

  /** A copy goes to entries that were absent. */
  lemma CopiedAbsent(m0: Phys, role0: Roles, m: Phys, role: Roles, t: Addr, u: Addr, s: nat, i: nat)
    requires Copied(m0, role0, m, role, t, u, s, i) && t in m0.mem
    ensures forall j {:trigger Entry(m0.mem[t], j)} :: s <= j < i ==> !Present(Entry(m0.mem[t], j))
  {
    hide Entry, Inv;
    forall j {:trigger Entry(m0.mem[t], j)} | s <= j < i
      ensures !Present(Entry(m0.mem[t], j))
    {
      assert CopyOf(m0, role0, m, t, u, j);
    }
  }

  lemma NoneCopied(m: Phys, role: Roles, t: Addr, u: Addr, s: nat)
    requires Inv(m, role) && t in role && s <= 1024
    ensures Copied(m, role, m, role, t, u, s, s)
  {
  }

  /** The next entry of the source is not present. */
  lemma CopySkips(m0: Phys, role0: Roles, m: Phys, role: Roles, t: Addr, u: Addr, s: nat, i: nat)
    requires Copied(m0, role0, m, role, t, u, s, i) && i < 1024 && t in m.mem && u in m0.mem
    requires !Present(Entry(m.mem[t], i)) && !Present(Entry(m0.mem[u], i))
    ensures Copied(m0, role0, m, role, t, u, s, i + 1)
  {
    hide Entry, Present, Inv, Base, Avail;
    assert SameEntry(m0, m, t, i);
    forall j | s <= j < i + 1
      ensures CopyOf(m0, role0, m, t, u, j)
    {
      if j < i { assert CopyOf(m0, role0, m, t, u, j); }
    }
    forall x {:trigger TakenFor(role0, role, t, false, s, i + 1, x)}
      ensures TakenFor(role0, role, t, false, s, i + 1, x)
    {
      assert TakenFor(role0, role, t, false, s, i, x);
    }
  }

  /** The next entry of the source is copied as it is. */
  lemma CopyShares(m0: Phys, role0: Roles, m: Phys, role: Roles, t: Addr, u: Addr, s: nat, i: nat)
    requires Inv(m0, role0) && t in role0 && role0[t].Table? && u in role0 && role0[u].Table? && u != t
    requires Copied(m0, role0, m, role, t, u, s, i) && i < 1024 && t in m.mem && u in m.mem && u in m0.mem
    requires !Present(Entry(m.mem[t], i)) && Present(Entry(m0.mem[u], i)) && !IsUnique(Entry(m0.mem[u], i))
    ensures m.mem[u] == m0.mem[u] && Copied(m0, role0, Put(m, t, i, Entry(m0.mem[u], i)), role, t, u, s, i + 1)
  {
    hide Entry, SetEntry, Base, Avail, Present, Writable, User, RoleOk, FreeListOk;
    assert FrameKept(m0, role0, m, role, u) && SameEntry(m0, m, t, i);
    var w := Entry(m0.mem[u], i);
    ShareKeeps(m, role, t, i, u, i);
    PutEntries(m, t, i, w);
    CopyGoesOn(m0, role0, m, role, Put(m, t, i, w), role, t, u, s, i);
  }

  /** The next entry of the source is a unique page, for which a frame is taken and filled. */
  lemma CopyFills(m0: Phys, role0: Roles, m: Phys, role: Roles, t: Addr, u: Addr, s: nat, i: nat, w: int)
    requires Inv(m0, role0) && t in role0 && role0[t].Table? && u in role0 && role0[u].Table? && u != t
    requires Copied(m0, role0, m, role, t, u, s, i) && i < 1024 && t in m.mem && u in m0.mem && m.free != []
    requires !Present(Entry(m.mem[t], i)) && IsUnique(Entry(m0.mem[u], i))
    requires 0 <= w < WORD_LIMIT && IsUnique(w) && Base(w) == m.free[0]
    requires User(w) == User(Entry(m0.mem[u], i)) && Writable(w) == Writable(Entry(m0.mem[u], i))
    ensures Base(Entry(m0.mem[u], i)) in m.mem && m.free[0] != t && m.free[0] in m.mem
    ensures Base(Entry(m0.mem[u], i)) != m.free[0]
    ensures var x := m.free[0];
      var m1 := PopF(m).(mem := m.mem[x := m.mem[Base(Entry(m0.mem[u], i))]]);
      Copied(m0, role0, Put(m1, t, i, w), role[x := Page(t, i)], t, u, s, i + 1)
  {
    hide Entry, SetEntry, Base, Avail, Present, Writable, User, RoleOk, FreeListOk, CopyOf;
    var x, w0 := m.free[0], Entry(m0.mem[u], i);
    assert x in m.free;
    SourcePage(m0, role0, u, i);
    assert FrameKept(m0, role0, m, role, Base(w0)) && SameEntry(m0, m, t, i);
    var f := m.mem[Base(w0)];
    CopyEntryKeeps(m, role, t, i, w, f);
    var m1 := PopF(m).(mem := m.mem[x := f]);
    PutEntries(m1, t, i, w);
    var m', role' := Put(m1, t, i, w), role[x := Page(t, i)];
    assert role0[x] != Free && x != t ==> FrameKept(m0, role0, m, role, x);
    FilledIsCopy(m0, role0, m', t, u, i, w, x);
    CopyGoesOn(m0, role0, m, role, m', role', t, u, s, i);
  }

  lemma FilledIsCopy(m0: Phys, role0: Roles, m': Phys, t: Addr, u: Addr, i: nat, w: int, x: Addr)
    requires t in m0.mem && t in m'.mem && u in m0.mem && i < 1024 && !Present(Entry(m0.mem[t], i))
    requires IsUnique(Entry(m0.mem[u], i))
    requires Entry(m'.mem[t], i) == w && IsUnique(w) && Base(w) == x
    requires User(w) == User(Entry(m0.mem[u], i)) && Writable(w) == Writable(Entry(m0.mem[u], i))
    requires x in role0 && role0[x] == Free && x in m'.mem && Base(Entry(m0.mem[u], i)) in m0.mem
    requires m'.mem[x] == m0.mem[Base(Entry(m0.mem[u], i))]
    ensures CopyOf(m0, role0, m', t, u, i)
  {
  }

  lemma SourcePage(m0: Phys, role0: Roles, u: Addr, j: nat)
    requires Inv(m0, role0) && u in role0 && role0[u].Table? && j < 1024 && IsUnique(Entry(m0.mem[u], j))
    ensures var b := Base(Entry(m0.mem[u], j)); b in role0 && role0[b] == Page(u, j) && b in m0.mem
  {
    assert RoleOk(m0, role0, u) && TableEntryOk(m0, role0, u, j);
  }

  /** One more entry of `t` is a copy, at most one frame was taken for it, and nothing else has changed. */
  lemma CopyGoesOn(
      m0: Phys, role0: Roles, m: Phys, role: Roles, m': Phys, role': Roles, t: Addr, u: Addr, s: nat, i: nat)
    requires Copied(m0, role0, m, role, t, u, s, i) && i < 1024 && Inv(m0, role0) && t in role0 && role0[t].Table?
    requires Inv(m', role') && role'.Keys == role.Keys && m'.mem.Keys == m.mem.Keys && t in m.mem && role'[t] == role[t]
    requires forall j :: 0 <= j < 1024 && j != i ==> Entry(m'.mem[t], j) == Entry(m.mem[t], j)
    requires forall y :: y in role && y != t && role[y] != Free ==> role'[y] == role[y] && m'.mem[y] == m.mem[y]
    requires forall y :: y in role && role[y] == Free ==> role'[y] == Free || role'[y] == Page(t, i)
    requires CopyOf(m0, role0, m', t, u, i)
    ensures Copied(m0, role0, m', role', t, u, s, i + 1)
  {
    hide Entry, Base, Avail, Present, Writable, User, RoleOk, FreeListOk;
    forall y | y in role0 && role0[y] != Free && y != t
      ensures FrameKept(m0, role0, m', role', y)
    {
      assert FrameKept(m0, role0, m, role, y);
    }
    forall j | 0 <= j < 1024
      ensures if s <= j < i + 1 then CopyOf(m0, role0, m', t, u, j) else SameEntry(m0, m', t, j)
    {
      if s <= j < i {
        assert CopyOf(m0, role0, m, t, u, j);
        CopyStays(m0, role0, m, role, m', t, u, j);
      } else if j != i {
        assert SameEntry(m0, m, t, j);
      }
    }
    forall y {:trigger TakenFor(role0, role', t, false, s, i + 1, y)}
      ensures TakenFor(role0, role', t, false, s, i + 1, y)
    {
      assert TakenFor(role0, role, t, false, s, i, y);
    }
  }

  /** The page of an entry that is a copy is in use, so it is not touched again. */
  lemma CopyStays(m0: Phys, role0: Roles, m: Phys, role: Roles, m': Phys, t: Addr, u: Addr, j: nat)
    requires Inv(m, role) && t in role && role[t].Table? && CopyOf(m0, role0, m, t, u, j) && t in m'.mem && j < 1024
    requires Entry(m'.mem[t], j) == Entry(m.mem[t], j) && m'.mem.Keys == m.mem.Keys
    requires forall y :: y in role && y != t && role[y] != Free ==> m'.mem[y] == m.mem[y]
    ensures CopyOf(m0, role0, m', t, u, j)
  {
    hide Entry, Base, Avail, FreeListOk;
    assert RoleOk(m, role, t) && TableEntryOk(m, role, t, j);
  }

  // ---------------------------------------------------------------------------
  // Freeing
  // ---------------------------------------------------------------------------

  /** Shared frames of the range are returned only when no other entry maps them. */
  ghost predicate MayReturn(m: Phys, role: Roles, t: Addr, s: nat, e: nat)
    requires role.Keys == m.mem.Keys && t in role && e <= 1024
  {
    forall j :: s <= j < e && IsShared(Entry(m.mem[t], j)) ==> SoleShare(m, role, t, j)
  }

  /** Frame `x` was mapped, as a unique page or, if these are returned, as a shared frame, by an entry in [s, i). */
  ghost predicate WasUnder(m0: Phys, role0: Roles, t: Addr, shared: bool, s: nat, i: nat, x: Addr) {
    && x in role0 && t in m0.mem
    && ((role0[x].Page? && role0[x].table == t && s <= role0[x].pti < i)
        || (shared && role0[x] == Shared && exists j ::
          s <= j < i && j < 1024 && IsShared(Entry(m0.mem[t], j)) && Base(Entry(m0.mem[t], j)) == x))
  }

  ghost predicate FreedRole(m0: Phys, role0: Roles, role: Roles, t: Addr, shared: bool, s: nat, i: nat, x: Addr) {
    x in role0 && x in role && role[x] == if WasUnder(m0, role0, t, shared, s, i, x) then Free else role0[x]
  }

  /** Frames in use, other than table `t`, keep their content. */
  ghost predicate ContentKept(m0: Phys, m: Phys, role: Roles, t: Addr, x: Addr) {
    x in m0.mem && x in m.mem && x in role && (role[x] != Free && x != t ==> m.mem[x] == m0.mem[x])
  }

  /** Entries [s, i) of `t` are cleared, and exactly the frames they owned are free now. */
  ghost predicate Freed(m0: Phys, role0: Roles, m: Phys, role: Roles, t: Addr, shared: bool, s: nat, i: nat) {
    && Inv(m, role) && role.Keys == role0.Keys && s <= i <= 1024 && t in m.mem
    && (forall j {:trigger Entry(m.mem[t], j)} :: s <= j < i ==> Entry(m.mem[t], j) == 0)
    && (forall j {:trigger SameEntry(m0, m, t, j)} :: 0 <= j < 1024 && !(s <= j < i) ==> SameEntry(m0, m, t, j))
    && (forall x {:trigger FreedRole(m0, role0, role, t, shared, s, i, x)} :: x in role0 ==>
        FreedRole(m0, role0, role, t, shared, s, i, x))
    && (forall x {:trigger ContentKept(m0, m, role, t, x)} :: x in role0 ==> ContentKept(m0, m, role, t, x))
  }

  lemma NoneFreed(m: Phys, role: Roles, t: Addr, shared: bool, s: nat)
    requires Inv(m, role) && t in role && s <= 1024
    ensures Freed(m, role, m, role, t, shared, s, s)
  {
    hide Entry;
    forall x | x in role
      ensures FreedRole(m, role, role, t, shared, s, s, x) && ContentKept(m, m, role, t, x)
    {
    }
  }

  /** The frame to return for an entry, if any. */
  predicate Returns(w: int, shared: bool) {
    IsUnique(w) || (shared && IsShared(w))
  }

  lemma FreeReturns(m0: Phys, role0: Roles, m: Phys, role: Roles, t: Addr, shared: bool, s: nat, i: nat)
    requires Inv(m0, role0) && t in role0 && role0[t].Table? && s <= i < 1024
    requires Freed(m0, role0, m, role, t, shared, s, i)
    requires Returns(Entry(m.mem[t], i), shared) && (shared ==> MayReturn(m0, role0, t, s, i + 1))
    ensures var x := Base(Entry(m.mem[t], i));
      && x in m.mem && x in role && x != t && FrameAddr(x) && x !in m.free && (m.free != [] ==> m.free[0] < WORD_LIMIT)
      && Freed(m0, role0, Put(PushF(m, x), t, i, 0), role[x := Free], t, shared, s, i + 1)
  {
    hide Entry, SetEntry, Base, Avail, Present, FreeListOk, RoleOk, Freed, WasUnder, SoleShare;
    FreedTable(m0, role0, m, role, t, shared, s, i);
    var w := Entry(m.mem[t], i);
    var x := Base(w);
    if IsUnique(w) {
      FreeEntryKeeps(m, role, t, i);
    } else {
      SoleStill(m0, role0, m, role, t, shared, s, i);
      FreeSharedKeeps(m, role, t, i);
    }
    PushEntries(m, x, t);
    PutEntries(PushF(m, x), t, i, 0);
    ReturnedUnder(m0, role0, m, role, t, shared, s, i, x);
    FreedGoesOn(m0, role0, m, role, Put(PushF(m, x), t, i, 0), role[x := Free], t, shared, s, i, {x});
  }

  lemma PushEntries(m: Phys, x: Addr, t: Addr)
    requires x in m.mem && t in m.mem && x != t && (m.free != [] ==> m.free[0] < WORD_LIMIT)
    ensures var m' := PushF(m, x);
      m'.mem.Keys == m.mem.Keys && forall y :: y in m.mem && y != x ==> m'.mem[y] == m.mem[y]
  {
  }

  lemma FreedTable(m0: Phys, role0: Roles, m: Phys, role: Roles, t: Addr, shared: bool, s: nat, i: nat)
    requires Inv(m0, role0) && t in role0 && role0[t].Table? && Freed(m0, role0, m, role, t, shared, s, i)
    ensures Inv(m, role) && role.Keys == role0.Keys && t in role && role[t] == role0[t] && t in m.mem
    ensures i < 1024 ==> Entry(m.mem[t], i) == Entry(m0.mem[t], i)
  {
    hide Entry;
    assert FreedRole(m0, role0, role, t, shared, s, i, t);
    assert i < 1024 ==> SameEntry(m0, m, t, i);
  }

  /** The entries that are left are shared no more than before. */
  lemma SoleStill(m0: Phys, role0: Roles, m: Phys, role: Roles, t: Addr, shared: bool, s: nat, i: nat)
    requires Inv(m0, role0) && t in role0 && role0[t].Table? && s <= i < 1024
    requires Freed(m0, role0, m, role, t, shared, s, i)
    requires MayReturn(m0, role0, t, s, i + 1) && IsShared(Entry(m.mem[t], i))
    ensures t in role && SoleShare(m, role, t, i)
  {
    hide Entry, Base, Avail, Present, FreeListOk, RoleOk, WasUnder;
    FreedTable(m0, role0, m, role, t, shared, s, i);
    assert SoleShare(m0, role0, t, i);
    forall u, k {:trigger Entry(m.mem[u], k)} | u in role && role[u].Table? && 0 <= k < 1024
      && IsShared(Entry(m.mem[u], k))
        && Base(Entry(m.mem[u], k)) == Base(Entry(m.mem[t], i))
      ensures u == t && k == i
    {
      assert FreedRole(m0, role0, role, t, shared, s, i, u) && ContentKept(m0, m, role, t, u);
      if u == t {
        ZeroNotShared();
        if !(s <= k < i) { assert SameEntry(m0, m, t, k); }
      }
      assert Entry(m0.mem[u], k) == Entry(m.mem[u], k);
    }
  }

  lemma ZeroNotShared()
    ensures !Present(0)
  {
  }

  /** The frame that is returned for entry `i` is the one that counts as mapped by it. */
  lemma ReturnedUnder(m0: Phys, role0: Roles, m: Phys, role: Roles, t: Addr, shared: bool, s: nat, i: nat, x: Addr)
    requires Inv(m0, role0) && t in role0 && role0[t].Table? && s <= i < 1024 && t in m.mem
    requires Entry(m.mem[t], i) == Entry(m0.mem[t], i)
    requires Returns(Entry(m0.mem[t], i), shared) && x == Base(Entry(m0.mem[t], i))
    ensures x in role0 && WasUnder(m0, role0, t, shared, i, i + 1, x)
    ensures forall y :: y in role0 ==>
      (WasUnder(m0, role0, t, shared, s, i + 1, y) <==> WasUnder(m0, role0, t, shared, s, i, y) || y == x)
  {
    hide Entry, Base, Avail, FreeListOk;
    assert RoleOk(m0, role0, t) && TableEntryOk(m0, role0, t, i);
    forall y | y in role0
      ensures WasUnder(m0, role0, t, shared, s, i + 1, y) <==> WasUnder(m0, role0, t, shared, s, i, y) || y == x
    {
      assert RoleOk(m0, role0, y);
    }
  }

  lemma FreeClears(m0: Phys, role0: Roles, m: Phys, role: Roles, t: Addr, shared: bool, s: nat, i: nat)
    requires Inv(m0, role0) && t in role0 && role0[t].Table? && s <= i < 1024
    requires Freed(m0, role0, m, role, t, shared, s, i)
    requires !Returns(Entry(m.mem[t], i), shared)
    ensures Freed(m0, role0, Put(m, t, i, 0), role, t, shared, s, i + 1)
  {
    hide Entry, SetEntry, Base, Avail, Present, FreeListOk, RoleOk, Freed, WasUnder;
    FreedTable(m0, role0, m, role, t, shared, s, i);
    ClearEntryKeeps(m, role, t, i);
    PutEntries(m, t, i, 0);
    NothingUnder(m0, role0, t, shared, s, i);
    FreedGoesOn(m0, role0, m, role, Put(m, t, i, 0), role, t, shared, s, i, {});
  }

  lemma NothingUnder(m0: Phys, role0: Roles, t: Addr, shared: bool, s: nat, i: nat)
    requires Inv(m0, role0) && t in role0 && role0[t].Table? && s <= i < 1024 && !Returns(Entry(m0.mem[t], i), shared)
    ensures forall y :: y in role0 ==>
      (WasUnder(m0, role0, t, shared, s, i + 1, y) <==> WasUnder(m0, role0, t, shared, s, i, y))
  {
    hide Entry, Base, Avail, FreeListOk;
    forall y | y in role0
      ensures WasUnder(m0, role0, t, shared, s, i + 1, y) <==> WasUnder(m0, role0, t, shared, s, i, y)
    {
      assert RoleOk(m0, role0, y);
    }
  }

  lemma FreedGoesOn(
      m0: Phys, role0: Roles, m: Phys, role: Roles, m': Phys, role': Roles, t: Addr, shared: bool, s: nat, i: nat,
      back: set<Addr>)
    requires Freed(m0, role0, m, role, t, shared, s, i) && i < 1024 && Inv(m', role') && role'.Keys == role.Keys
    requires t in m'.mem && m'.mem.Keys == m.mem.Keys && Entry(m'.mem[t], i) == 0
    requires forall j :: 0 <= j < 1024 && j != i ==> Entry(m'.mem[t], j) == Entry(m.mem[t], j)
    requires forall y :: y in role ==> role'[y] == if y in back then Free else role[y]
    requires forall y :: y in m.mem && y != t && y !in back ==> m'.mem[y] == m.mem[y]
    requires forall y :: y in role0 ==>
      (WasUnder(m0, role0, t, shared, s, i + 1, y) <==> WasUnder(m0, role0, t, shared, s, i, y) || y in back)
    ensures Freed(m0, role0, m', role', t, shared, s, i + 1)
  {
    hide Entry, Base, Avail, Present, RoleOk, FreeListOk, WasUnder;
    forall j | 0 <= j < 1024
      ensures if s <= j < i + 1 then Entry(m'.mem[t], j) == 0 else SameEntry(m0, m', t, j)
    {
      if !(s <= j < i + 1) { assert SameEntry(m0, m, t, j); }
    }
    forall y | y in role0
      ensures FreedRole(m0, role0, role', t, shared, s, i + 1, y) && ContentKept(m0, m', role', t, y)
    {
      assert FreedRole(m0, role0, role, t, shared, s, i, y) && ContentKept(m0, m, role, t, y);
    }
  }

  // ---------------------------------------------------------------------------
  // A copy undone
  // ---------------------------------------------------------------------------

  /** The mapping of a table: its present entries. */
  ghost predicate SameMapping(m0: Phys, m: Phys, t: Addr) {
    t in m0.mem && t in m.mem && forall j {:trigger Entry(m.mem[t], j)} :: 0 <= j < 1024 ==>
      (Present(Entry(m.mem[t], j)) <==> Present(Entry(m0.mem[t], j)))
      && (Present(Entry(m.mem[t], j)) ==> Entry(m.mem[t], j) == Entry(m0.mem[t], j))
  }

  /** Freeing what a copy has made so far gives back every frame, and the table's mapping as it was. */
  lemma CopyUndone(
      m0: Phys, role0: Roles, m1: Phys, role1: Roles, m: Phys, role: Roles, t: Addr, u: Addr, s: nat, i: nat)
    requires Inv(m0, role0) && t in role0 && role0[t].Table? && Copied(m0, role0, m1, role1, t, u, s, i)
    requires Freed(m1, role1, m, role, t, false, s, i)
    ensures role == role0 && SameMapping(m0, m, t)
    ensures forall x {:trigger ContentKept(m0, m, role, t, x)} :: x in role0 ==> ContentKept(m0, m, role, t, x)
  {
    hide Entry, Base, Avail, FreeListOk;
    forall x | x in role0
      ensures role[x] == role0[x] && ContentKept(m0, m, role, t, x)
    {
      assert FreedRole(m1, role1, role, t, false, s, i, x) && ContentKept(m1, m, role, t, x);
      assert RoleOk(m0, role0, x) && TakenFor(role0, role1, t, false, s, i, x);
      if role0[x] != Free && x != t { assert FrameKept(m0, role0, m1, role1, x); }
      assert role0[x].Page? && role0[x].table == t && s <= role0[x].pti < i ==>
        CopyOf(m0, role0, m1, t, u, role0[x].pti);
    }
    forall j | 0 <= j < 1024
      ensures (Present(Entry(m.mem[t], j)) <==> Present(Entry(m0.mem[t], j)))
      ensures (Present(Entry(m.mem[t], j)) ==> Entry(m.mem[t], j) == Entry(m0.mem[t], j))
    {
      if s <= j < i {
        assert CopyOf(m0, role0, m1, t, u, j);
      } else {
        assert SameEntry(m1, m, t, j) && SameEntry(m0, m1, t, j);
      }
    }
  }
}
