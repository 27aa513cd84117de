/**
  The elementary changes of frames and roles; each keeps the invariant.
 */
module PageSteps {
  import opened RawMemory
  import opened PageEntries
  import opened PageRoles

  /** A frame's role is right again after a change that touches neither its entries nor the roles they name. */
  lemma RoleStays(m: Phys, role: Roles, m': Phys, role': Roles, y: Addr)
    requires Inv(m, role) && role'.Keys == role.Keys == m'.mem.Keys && y in role && role'[y] == role[y]
    requires role[y] == Free ==> y in m'.free
    requires role[y] == Dir || role[y].Table? ==> m'.mem[y] == m.mem[y]
    requires role[y] == Dir ==> forall x :: x in role && role[x].Table? && role[x].dir == y ==> role'[x] == role[x]
    requires role[y].Table? ==>
      forall x :: x in role && ((role[x].Page? && role[x].table == y) || role[x] == Shared || role[x] == Outside) ==>
        role'[x] == role[x]
    requires role[y].Table? && role[y].dir != NULL_FRAME && role[y].dir in role && role[y].pdi < 1024 ==>
      role'[role[y].dir] == role[role[y].dir]
        && Entry(m'.mem[role[y].dir], role[y].pdi) == Entry(m.mem[role[y].dir], role[y].pdi)
    requires role[y].Page? && role[y].table in role && role[y].pti < 1024 ==>
      role'[role[y].table] == role[role[y].table]
        && Entry(m'.mem[role[y].table], role[y].pti) == Entry(m.mem[role[y].table], role[y].pti)
    ensures RoleOk(m', role', y)
  {
    hide Entry, Base, Avail, FreeListOk;
    assert RoleOk(m, role, y);
    match role[y]
    case Dir =>
      forall i | 0 <= i < 1024
        ensures DirEntryOk(m', role', y, i)
      {
        assert DirEntryOk(m, role, y, i);
      }
    case Table(d, i) =>
      forall j | 0 <= j < 1024
        ensures TableEntryOk(m', role', y, j)
      {
        assert TableEntryOk(m, role, y, j);
      }
    case _ =>
  }

  /** A frame is taken from the free list. */
  lemma PopKeeps(m: Phys, role: Roles)
    requires Inv(m, role) && m.free != []
    ensures var x := m.free[0];
      x in role && role[x] == Free && FrameAddr(x) && Inv(PopF(m), role[x := Held])
  {
    var x := m.free[0];
    var m', role' := PopF(m), role[x := Held];
    assert x in m.free;
    PopList(m);
    forall y | y in role'
      ensures FrameAddr(y) && RoleOk(m', role', y)
    {
      assert RoleOk(m, role, y);
      if y != x {
        assert role[y] == Free ==> y in m'.free;
        RoleStays(m, role, m', role', y);
      }
    }
  }

  /** A frame nobody uses goes to the free list. */
  lemma PushKeeps(m: Phys, role: Roles, x: Addr)
    requires Inv(m, role) && x in role && role[x] == Held
    ensures (m.free != [] ==> m.free[0] < WORD_LIMIT) && Inv(PushF(m, x), role[x := Free])
  {
    hide Entry, SetEntry, FreeListOk, Linked;
    if m.free != [] { assert m.free[0] in m.free && RoleOk(m, role, m.free[0]); }
    var m', role' := PushF(m, x), role[x := Free];
    PushList(m, x);
    forall y | y in role'
      ensures FrameAddr(y) && RoleOk(m', role', y)
    {
      assert RoleOk(m, role, y);
      if y != x { RoleStays(m, role, m', role', y); }
    }
  }

  /** The content of a frame nobody uses may change. */
  lemma FillKeeps(m: Phys, role: Roles, x: Addr, f: Frame)
    requires Inv(m, role) && x in role && role[x] == Held
    ensures Inv(m.(mem := m.mem[x := f]), role)
  {
    hide Entry;
    var m' := m.(mem := m.mem[x := f]);
    ListFrame(m, m');
    forall y | y in role
      ensures FrameAddr(y) && RoleOk(m', role, y)
    {
      assert RoleOk(m, role, y);
      if y != x { RoleStays(m, role, m', role, y); }
    }
  }

  /** An entry of a table that is not present is set, to a frame nobody uses. */
  lemma MapKeeps(m: Phys, role: Roles, t: Addr, j: nat, x: Addr, w: int)
    requires Inv(m, role) && t in role && role[t].Table? && j < 1024 && !Present(Entry(m.mem[t], j))
    requires x in role && role[x] == Held && 0 <= w < WORD_LIMIT && Present(w) && Base(w) == x
    requires (IsUnique(w) || IsShared(w))
    ensures Inv(Put(m, t, j, w), role[x := if IsUnique(w) then Page(t, j) else Shared])
  {
    hide Entry, SetEntry, Base, Avail, FreeListOk, Linked, Present;
    var m', role' := Put(m, t, j, w), role[x := if IsUnique(w) then Page(t, j) else Shared];
    PutEntries(m, t, j, w);
    ListFrame(m, m');
    forall y | y in role'
      ensures FrameAddr(y) && RoleOk(m', role', y)
    {
      assert RoleOk(m, role, y);
      if y != x && y != t { RoleStays(m, role, m', role', y); }
      if y == t {
        forall k | 0 <= k < 1024
          ensures TableEntryOk(m', role', t, k)
        {
          assert TableEntryOk(m, role, t, k);
        }
      }
    }
  }

  /** An entry that is not present gets a copy of another table's entry for a shared or outside frame. */
  lemma ShareKeeps(m: Phys, role: Roles, t: Addr, j: nat, u: Addr, k: nat)
    requires Inv(m, role) && t in role && role[t].Table? && j < 1024 && !Present(Entry(m.mem[t], j))
    requires u in role && role[u].Table? && k < 1024 && Present(Entry(m.mem[u], k)) && !IsUnique(Entry(m.mem[u], k))
    ensures Inv(Put(m, t, j, Entry(m.mem[u], k)), role)
  {
    hide Entry, SetEntry, Base, Avail, FreeListOk, Linked, Present;
    var w := Entry(m.mem[u], k);
    var m' := Put(m, t, j, w);
    PutEntries(m, t, j, w);
    ListFrame(m, m');
    assert RoleOk(m, role, u) && TableEntryOk(m, role, u, k);
    forall y | y in role
      ensures FrameAddr(y) && RoleOk(m', role, y)
    {
      assert RoleOk(m, role, y);
      if y != t { RoleStays(m, role, m', role, y); }
      if y == t {
        forall i | 0 <= i < 1024
          ensures TableEntryOk(m', role, t, i)
        {
          assert TableEntryOk(m, role, t, i);
        }
      }
    }
  }

  /** What becomes of the roles when entry `j` of a table is cleared. */
  function Unmapped(m: Phys, role: Roles, t: Addr, j: nat): Roles
    requires t in m.mem && j < 1024
  {
    var w := Entry(m.mem[t], j);
    if IsUnique(w) && Base(w) >= 0 then role[Base(w) := Held] else role
  }

  lemma UnmapKeeps(m: Phys, role: Roles, t: Addr, j: nat)
    requires Inv(m, role) && t in role && role[t].Table? && j < 1024
    ensures Inv(Put(m, t, j, 0), Unmapped(m, role, t, j))
    ensures var w := Entry(m.mem[t], j); IsUnique(w) ==> Base(w) in role && role[Base(w)] == Page(t, j) && Base(w) != t
  {
    hide Entry, SetEntry, Base, Avail, FreeListOk, Linked;
    var w := Entry(m.mem[t], j);
    var m', role' := Put(m, t, j, 0), Unmapped(m, role, t, j);
    PutEntries(m, t, j, 0);
    ListFrame(m, m');
    assert RoleOk(m, role, t) && TableEntryOk(m, role, t, j);
    forall y | y in role'
      ensures FrameAddr(y) && RoleOk(m', role', y)
    {
      assert RoleOk(m, role, y);
      if y == t {
        forall k | 0 <= k < 1024
          ensures TableEntryOk(m', role', t, k)
        {
          assert TableEntryOk(m, role, t, k);
        }
      } else if !(IsUnique(w) && y == Base(w)) {
        RoleStays(m, role, m', role', y);
      }
    }
  }

  /** No entry of the frame is present. */
  ghost predicate Empty(f: Frame) {
    forall i {:trigger Entry(f, i)} :: 0 <= i < 1024 ==> !Present(Entry(f, i))
  }

  /** An empty frame becomes the table of a directory's entry. */
  lemma AttachKeeps(m: Phys, role: Roles, d: Addr, i: nat, x: Addr, w: int)
    requires Inv(m, role) && d in role && role[d] == Dir && i < 1024 && !Present(Entry(m.mem[d], i))
    requires x in role && role[x] == Held && Empty(m.mem[x]) && 0 <= w < WORD_LIMIT && Present(w) && Base(w) == x
    ensures Inv(Put(m, d, i, w), role[x := Table(d, i)])
  {
    hide Entry, SetEntry, Base, Avail, FreeListOk, Linked, Present;
    var m', role' := Put(m, d, i, w), role[x := Table(d, i)];
    PutEntries(m, d, i, w);
    ListFrame(m, m');
    assert RoleOk(m, role, x) && RoleOk(m, role, d);
    forall y | y in role'
      ensures FrameAddr(y) && RoleOk(m', role', y)
    {
      assert RoleOk(m, role, y);
      if y != x && y != d { RoleStays(m, role, m', role', y); }
      if y == d {
        forall k | 0 <= k < 1024
          ensures DirEntryOk(m', role', d, k)
        {
          assert DirEntryOk(m, role, d, k);
        }
      }
    }
  }

  /** An empty table leaves its directory. */
  lemma DetachKeeps(m: Phys, role: Roles, d: Addr, i: nat)
    requires Inv(m, role) && d in role && role[d] == Dir && i < 1024 && Present(Entry(m.mem[d], i))
    requires Base(Entry(m.mem[d], i)) in m.mem && Empty(m.mem[Base(Entry(m.mem[d], i))])
    ensures var t := Base(Entry(m.mem[d], i));
      t in role && role[t] == Table(d, i) && t != d && Inv(Put(m, d, i, 0), role[t := Held])
  {
    hide Entry, SetEntry, Base, Avail, FreeListOk, Linked;
    var t := Base(Entry(m.mem[d], i));
    var m', role' := Put(m, d, i, 0), role[t := Held];
    PutEntries(m, d, i, 0);
    ListFrame(m, m');
    assert RoleOk(m, role, d) && DirEntryOk(m, role, d, i) && RoleOk(m, role, t);
    forall y | y in role'
      ensures FrameAddr(y) && RoleOk(m', role', y)
    {
      assert RoleOk(m, role, y);
      if y == d {
        forall k | 0 <= k < 1024
          ensures DirEntryOk(m', role', d, k)
        {
          assert DirEntryOk(m, role, d, k);
        }
      } else if y != t {
        assert role[y].Page? ==> role[y].table != t;
        RoleStays(m, role, m', role', y);
      }
    }
  }

  /** An empty frame becomes a directory, and an empty directory a frame nobody uses. */
  lemma DirKeeps(m: Phys, role: Roles, d: Addr)
    requires Inv(m, role) && d in role && Empty(m.mem[d])
    ensures role[d] == Held ==> Inv(m, role[d := Dir])
    ensures role[d] == Dir ==> Inv(m, role[d := Held])
  {
    hide Entry, Base, Avail, FreeListOk, Linked;
    if role[d] == Held || role[d] == Dir {
      var role' := role[d := if role[d] == Held then Dir else Held];
      assert RoleOk(m, role, d);
      forall y | y in role'
        ensures FrameAddr(y) && RoleOk(m, role', y)
      {
        assert RoleOk(m, role, y);
        if y != d {
          assert role[y].Table? ==> role[y].dir != d;
          RoleStays(m, role, m, role', y);
        }
      }
    }
  }

  // ---------------------------------------------------------------------------
  // The same in the order of the source: the frame is pushed before the entry is cleared
  // ---------------------------------------------------------------------------

  lemma PushPutCommute(m: Phys, x: Addr, t: Addr, j: nat)
    requires x in m.mem && t in m.mem && x != t && j < 1024 && (m.free != [] ==> m.free[0] < WORD_LIMIT)
    ensures Put(PushF(m, x), t, j, 0) == PushF(Put(m, t, j, 0), x)
  {
    hide SetEntry;
    assert Put(PushF(m, x), t, j, 0).mem == PushF(Put(m, t, j, 0), x).mem;
  }

  lemma HeadSmall(m: Phys, role: Roles)
    requires Inv(m, role)
    ensures m.free != [] ==> m.free[0] in m.mem && FrameAddr(m.free[0])
  {
    if m.free != [] { assert m.free[0] in m.free && RoleOk(m, role, m.free[0]); }
  }

  /** The frame of a unique entry goes back to the list, and the entry is cleared. */
  lemma FreeEntryKeeps(m: Phys, role: Roles, t: Addr, j: nat)
    requires Inv(m, role) && t in role && role[t].Table? && j < 1024 && IsUnique(Entry(m.mem[t], j))
    ensures var x := Base(Entry(m.mem[t], j));
      && x in m.mem && x in role && role[x] == Page(t, j) && x != t && FrameAddr(x) && x !in m.free
      && (m.free != [] ==> m.free[0] < WORD_LIMIT)
      && Inv(Put(PushF(m, x), t, j, 0), role[x := Free])
  {
    hide Entry, SetEntry, Base, Avail, FreeListOk, Linked, RoleOk;
    var x := Base(Entry(m.mem[t], j));
    UnmapKeeps(m, role, t, j);
    HeadSmall(m, role);
    assert RoleOk(m, role, x);
    PushPutCommute(m, x, t, j);
    var role1 := Unmapped(m, role, t, j);
    PushKeeps(Put(m, t, j, 0), role1, x);
    assert role1[x := Free] == role[x := Free];
  }

  /** An empty table goes back to the list, and its directory entry is cleared. */
  lemma FreeTableKeeps(m: Phys, role: Roles, d: Addr, i: nat)
    requires Inv(m, role) && d in role && role[d] == Dir && i < 1024 && Present(Entry(m.mem[d], i))
    requires Base(Entry(m.mem[d], i)) in m.mem && Empty(m.mem[Base(Entry(m.mem[d], i))])
    ensures var t := Base(Entry(m.mem[d], i));
      && t in role && role[t] == Table(d, i) && t != d && FrameAddr(t) && t !in m.free
      && (m.free != [] ==> m.free[0] < WORD_LIMIT)
      && Inv(Put(PushF(m, t), d, i, 0), role[t := Free])
  {
    hide Entry, SetEntry, Base, Avail, FreeListOk, Linked, RoleOk, Empty;
    var t := Base(Entry(m.mem[d], i));
    DetachKeeps(m, role, d, i);
    HeadSmall(m, role);
    assert RoleOk(m, role, t);
    PushPutCommute(m, t, d, i);
    PushKeeps(Put(m, d, i, 0), role[t := Held], t);
    assert role[t := Held][t := Free] == role[t := Free];
  }

  /** A frame from the list is mapped by an entry that was not present. */
  lemma AllocEntryKeeps(m: Phys, role: Roles, t: Addr, j: nat, w: int)
    requires Inv(m, role) && t in role && role[t].Table? && j < 1024 && !Present(Entry(m.mem[t], j)) && m.free != []
    requires 0 <= w < WORD_LIMIT && Present(w) && Base(w) == m.free[0] && (IsUnique(w) || IsShared(w))
    ensures m.free[0] in role && role[m.free[0]] == Free && m.free[0] != t
    ensures Inv(Put(PopF(m), t, j, w), role[m.free[0] := if IsUnique(w) then Page(t, j) else Shared])
  {
    hide Entry, SetEntry, Base, Avail, FreeListOk, Linked, RoleOk;
    var x := m.free[0];
    PopKeeps(m, role);
    MapKeeps(PopF(m), role[x := Held], t, j, x, w);
    assert role[x := Held][x := if IsUnique(w) then Page(t, j) else Shared]
      == role[x := if IsUnique(w) then Page(t, j) else Shared];
  }

  /** The same, and the frame gets the content of another one first. */
  lemma CopyEntryKeeps(m: Phys, role: Roles, t: Addr, j: nat, w: int, f: Frame)
    requires Inv(m, role) && t in role && role[t].Table? && j < 1024 && !Present(Entry(m.mem[t], j)) && m.free != []
    requires 0 <= w < WORD_LIMIT && IsUnique(w) && Base(w) == m.free[0]
    ensures m.free[0] in role && role[m.free[0]] == Free && m.free[0] != t
    ensures var x := m.free[0];
      var m1 := PopF(m).(mem := m.mem[x := f]); Inv(Put(m1, t, j, w), role[x := Page(t, j)])
  {
    hide Entry, SetEntry, Base, Avail, FreeListOk, Linked, RoleOk;
    var x := m.free[0];
    PopKeeps(m, role);
    FillKeeps(PopF(m), role[x := Held], x, f);
    MapKeeps(PopF(m).(mem := m.mem[x := f]), role[x := Held], t, j, x, w);
    assert role[x := Held][x := Page(t, j)] == role[x := Page(t, j)];
  }

  /** A cleared frame from the list becomes a table. */
  lemma NewTableKeeps(m: Phys, role: Roles, d: Addr, i: nat, w: int)
    requires Inv(m, role) && d in role && role[d] == Dir && i < 1024 && !Present(Entry(m.mem[d], i)) && m.free != []
    requires 0 <= w < WORD_LIMIT && Present(w) && Base(w) == m.free[0]
    ensures m.free[0] in role && role[m.free[0]] == Free && m.free[0] != d
    ensures var x := m.free[0];
      var m1 := PopF(m).(mem := m.mem[x := ClearFrame()]); Inv(Put(m1, d, i, w), role[x := Table(d, i)])
  {
    hide Entry, SetEntry, Base, Avail, FreeListOk, Linked, RoleOk;
    var x := m.free[0];
    PopKeeps(m, role);
    FillKeeps(PopF(m), role[x := Held], x, ClearFrame());
    AttachKeeps(PopF(m).(mem := m.mem[x := ClearFrame()]), role[x := Held], d, i, x, w);
    assert role[x := Held][x := Table(d, i)] == role[x := Table(d, i)];
  }

  // ---------------------------------------------------------------------------
  // Returning shared frames
  // ---------------------------------------------------------------------------

  /** No table maps the shared frame `x`. */
  ghost predicate Unshared(m: Phys, role: Roles, x: Addr)
    requires role.Keys == m.mem.Keys
  {
    forall t, j {:trigger Entry(m.mem[t], j)} ::
      t in role && role[t].Table? && 0 <= j < 1024 && IsShared(Entry(m.mem[t], j)) ==> Base(Entry(m.mem[t], j)) != x
  }

  lemma UnshareKeeps(m: Phys, role: Roles, x: Addr)
    requires Inv(m, role) && x in role && role[x] == Shared && Unshared(m, role, x)
    ensures Inv(m, role[x := Held])
  {
    hide Entry, Base, Avail, FreeListOk, Linked;
    var role' := role[x := Held];
    forall y | y in role'
      ensures FrameAddr(y) && RoleOk(m, role', y)
    {
      assert RoleOk(m, role, y);
      if y != x {
        if role[y].Table? {
          forall j | 0 <= j < 1024
            ensures TableEntryOk(m, role', y, j)
          {
            assert TableEntryOk(m, role, y, j);
          }
        } else {
          RoleStays(m, role, m, role', y);
        }
      }
    }
  }

  /** Entry `j` of table `t` is the only one that maps its shared frame. */
  ghost predicate SoleShare(m: Phys, role: Roles, t: Addr, j: nat)
    requires role.Keys == m.mem.Keys && t in role && j < 1024
  {
    var x := Base(Entry(m.mem[t], j));
    forall u, k {:trigger Entry(m.mem[u], k)} ::
      u in role && role[u].Table? && 0 <= k < 1024 && IsShared(Entry(m.mem[u], k)) && Base(Entry(m.mem[u], k)) == x ==>
        u == t && k == j
  }

  lemma FreeSharedKeeps(m: Phys, role: Roles, t: Addr, j: nat)
    requires Inv(m, role) && t in role && role[t].Table? && j < 1024 && IsShared(Entry(m.mem[t], j))
    requires SoleShare(m, role, t, j)
    ensures var x := Base(Entry(m.mem[t], j));
      && x in m.mem && x in role && role[x] == Shared && x != t && FrameAddr(x) && x !in m.free
      && (m.free != [] ==> m.free[0] < WORD_LIMIT)
      && Inv(Put(PushF(m, x), t, j, 0), role[x := Free])
  {
    hide Entry, SetEntry, Base, Avail, FreeListOk, Linked;
    var x := Base(Entry(m.mem[t], j));
    UnmapKeeps(m, role, t, j);
    HeadSmall(m, role);
    assert RoleOk(m, role, t) && TableEntryOk(m, role, t, j) && RoleOk(m, role, x);
    PutEntries(m, t, j, 0);
    var m1 := Put(m, t, j, 0);
    UnshareKeeps(m1, role, x);
    PushPutCommute(m, x, t, j);
    PushKeeps(m1, role[x := Held], x);
    assert role[x := Held][x := Free] == role[x := Free];
  }

  /** An entry that maps no frame of its own is cleared. */
  lemma ClearEntryKeeps(m: Phys, role: Roles, t: Addr, j: nat)
    requires Inv(m, role) && t in role && role[t].Table? && j < 1024 && !IsUnique(Entry(m.mem[t], j))
    ensures Inv(Put(m, t, j, 0), role)
  {
    UnmapKeeps(m, role, t, j);
  }
}
