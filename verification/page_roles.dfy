/**
  What every physical frame is used for, and the invariant that ties these roles to the free list,
  the page directories and the page tables in memory.
 */
module PageRoles {
  import opened RawMemory
  import opened PageEntries

  /**
    A table belongs to entry `pdi` of directory `dir`, or to none when `dir` is the null frame; a page
    is the only frame of entry `pti` of `table`; a shared frame may be mapped by many tables; `Outside`
    frames are never allocated or freed, such as those of identity mappings.
   */
  datatype Role = Free | Dir | Table(dir: Addr, pdi: nat) | Page(table: Addr, pti: nat) | Shared | Held | Outside

  type Roles = map<Addr, Role>

  /** Physical memory and the free list, as the addresses its links run through. */
  datatype Phys = Phys(mem: map<Addr, Frame>, free: seq<Addr>)

  ghost predicate Linked(m: Phys, k: nat)
    requires k < |m.free|
  {
    m.free[k] in m.mem && Entry(m.mem[m.free[k]], 0) == if k + 1 < |m.free| then m.free[k + 1] else NULL_FRAME
  }

  ghost predicate FreeListOk(m: Phys) {
    && (forall k {:trigger Linked(m, k)} :: 0 <= k < |m.free| ==> Linked(m, k))
    && (forall a, b :: 0 <= a < b < |m.free| ==> m.free[a] != m.free[b])
  }

  ghost predicate DirEntryOk(m: Phys, role: Roles, d: Addr, i: nat)
    requires d in m.mem && i < 1024
  {
    var w := Entry(m.mem[d], i);
    Present(w) ==> Base(w) in role && role[Base(w)] == Table(d, i)
  }

  ghost predicate TableEntryOk(m: Phys, role: Roles, t: Addr, j: nat)
    requires t in m.mem && j < 1024
  {
    var w := Entry(m.mem[t], j);
    Present(w) ==>
      if Avail(w) == UNIQUE then Base(w) in role && role[Base(w)] == Page(t, j)
      else if Avail(w) == SHARED then Base(w) in role && role[Base(w)] == Shared
      else Base(w) !in role || role[Base(w)] == Outside
  }

  /** The frame is where its role says. */
  ghost predicate RoleOk(m: Phys, role: Roles, x: Addr)
    requires x in role && role.Keys == m.mem.Keys
  {
    match role[x]
    case Free => x in m.free
    case Dir => forall i {:trigger DirEntryOk(m, role, x, i)} :: 0 <= i < 1024 ==> DirEntryOk(m, role, x, i)
    case Table(d, i) =>
      && (forall j {:trigger TableEntryOk(m, role, x, j)} :: 0 <= j < 1024 ==> TableEntryOk(m, role, x, j))
      && (d != NULL_FRAME ==>
            d in role && role[d] == Dir && i < 1024 && Present(Entry(m.mem[d], i)) && Base(Entry(m.mem[d], i)) == x)
    case Page(t, j) =>
      t in role && role[t].Table? && j < 1024 && IsUnique(Entry(m.mem[t], j)) && Base(Entry(m.mem[t], j)) == x
    case _ => true
  }

  ghost predicate Inv(m: Phys, role: Roles) {
    && role.Keys == m.mem.Keys
    && FreeListOk(m)
    && (forall x :: x in m.free ==> x in role && role[x] == Free)
    && (forall x {:trigger RoleOk(m, role, x)} :: x in role ==> FrameAddr(x) && RoleOk(m, role, x))
  }

  // ---------------------------------------------------------------------------
  // Steps
  // ---------------------------------------------------------------------------

  function Put(m: Phys, a: Addr, i: nat, w: int): Phys
    requires a in m.mem && i < 1024 && 0 <= w < WORD_LIMIT
  {
    m.(mem := m.mem[a := SetEntry(m.mem[a], i, w)])
  }

  function PopF(m: Phys): Phys
    requires m.free != []
  {
    m.(free := m.free[1..])
  }

  /** The frame's first word becomes the link to the rest of the list. */
  function PushF(m: Phys, a: Addr): Phys
    requires a in m.mem && (m.free != [] ==> m.free[0] < WORD_LIMIT)
  {
    Put(m, a, 0, if m.free == [] then NULL_FRAME else m.free[0]).(free := [a] + m.free)
  }

  lemma PutEntries(m: Phys, a: Addr, i: nat, w: int)
    requires a in m.mem && i < 1024 && 0 <= w < WORD_LIMIT
    ensures var m' := Put(m, a, i, w);
      && m'.mem.Keys == m.mem.Keys && m'.free == m.free
      && Entry(m'.mem[a], i) == w
      && (forall j :: 0 <= j < 1024 && j != i ==> Entry(m'.mem[a], j) == Entry(m.mem[a], j))
      && (forall b :: b in m.mem && b != a ==> m'.mem[b] == m.mem[b])
  {
    SetEntryElsewhere(m.mem[a], i, w);
  }

  /** The head of the list, and what the list is without it. */
  lemma PopList(m: Phys)
    requires FreeListOk(m) && m.free != []
    ensures FreeListOk(PopF(m)) && m.free[0] !in m.free[1..] && m.free[0] in m.mem
    ensures Entry(m.mem[m.free[0]], 0) == if |m.free| > 1 then m.free[1] else NULL_FRAME
  {
    var m' := PopF(m);
    assert Linked(m, 0);
    forall k | 0 <= k < |m'.free|
      ensures Linked(m', k)
    {
      assert Linked(m, k + 1);
    }
  }

  lemma PushList(m: Phys, a: Addr)
    requires FreeListOk(m) && a in m.mem && a !in m.free && (m.free != [] ==> m.free[0] < WORD_LIMIT)
    ensures FreeListOk(PushF(m, a))
  {
    hide Entry, SetEntry;
    var m' := PushF(m, a);
    PutEntries(m, a, 0, if m.free == [] then NULL_FRAME else m.free[0]);
    forall k | 0 <= k < |m'.free|
      ensures Linked(m', k)
    {
      if k > 0 { assert Linked(m, k - 1); }
    }
  }

  /** A list does not depend on frames that are not in it. */
  lemma ListFrame(m: Phys, m': Phys)
    requires FreeListOk(m) && m'.free == m.free
    requires forall x :: x in m.free && x in m.mem ==> x in m'.mem && m'.mem[x] == m.mem[x]
    ensures FreeListOk(m')
  {
    forall k | 0 <= k < |m'.free|
      ensures Linked(m', k)
    {
      assert Linked(m, k);
    }
  }
}
