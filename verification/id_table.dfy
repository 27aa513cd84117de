/**
  The ID table: one array of cells that carries two doubly linked lists, of the free and of the
  allocated IDs.
 */
module IdTables {
  import opened Sequences

  datatype Cell = Cell(inUse: bool, next: nat, prev: nat, data: int)

  datatype Code = Success | BadArgs | InvalidIndex | AlreadyAllocated | NoMem

  const STARTING_CAP := 4
  const NO_DATA := 0

  // ---------------------------------------------------------------------------
  // Lists through the cells
  // ---------------------------------------------------------------------------

  /** The `k`-th member of list `l`, linked to its neighbours; `none` stands for no ID. */
  ghost predicate LinkOk(t: seq<Cell>, l: seq<nat>, none: nat, used: bool, k: nat)
    requires k < |l|
  {
    && l[k] < |t| && l[k] < none && t[l[k]].inUse == used
    && t[l[k]].next == (if k + 1 < |l| then l[k + 1] else none)
    && t[l[k]].prev == (if k > 0 then l[k - 1] else none)
  }

  ghost predicate IsList(t: seq<Cell>, head: nat, l: seq<nat>, none: nat, used: bool) {
    && head == (if l == [] then none else l[0])
    && Distinct(l)
    && forall k {:trigger LinkOk(t, l, none, used, k)} :: 0 <= k < |l| ==> LinkOk(t, l, none, used, k)
  }

  /** Both lists together hold every ID of the table once. */
  ghost predicate Partition(n: nat, a: seq<nat>, f: seq<nat>) {
    && (forall id :: id in a ==> id !in f)
    && (forall id :: 0 <= id < n ==> id in a || id in f)
  }

  /** Taking the member at position `p` out: its neighbours are linked to each other. */
  function Unlinked(t: seq<Cell>, id: nat, none: nat): (r: seq<Cell>)
    requires id < |t|
    ensures |r| == |t|
  {
    var next, prev := t[id].next, t[id].prev;
    var t1 := if next < |t| && next != none then t[next := t[next].(prev := prev)] else t;
    if prev < |t| && prev != none then t1[prev := t1[prev].(next := next)] else t1
  }

  lemma UnlinkKeeps(t: seq<Cell>, head: nat, l: seq<nat>, none: nat, used: bool, p: nat)
    requires IsList(t, head, l, none, used) && p < |l|
    ensures LinkOk(t, l, none, used, p)
    ensures var id := l[p];
      IsList(Unlinked(t, id, none), if t[id].prev == none then t[id].next else head, Without(l, p), none, used)
    ensures forall id :: id in Without(l, p) <==> id in l && id != l[p]
  {
    var id, m := l[p], Without(l, p);
    assert LinkOk(t, l, none, used, p);
    if p > 0 { assert LinkOk(t, l, none, used, p - 1); }
    if p + 1 < |l| { assert LinkOk(t, l, none, used, p + 1); }
    var r := Unlinked(t, id, none);
    forall k | 0 <= k < |m|
      ensures LinkOk(r, m, none, used, k)
    {
      UnlinkedAt(t, head, l, none, used, p, k);
    }
    WithoutMembers(l, p);
  }

  lemma UnlinkedAt(t: seq<Cell>, head: nat, l: seq<nat>, none: nat, used: bool, p: nat, k: nat)
    requires IsList(t, head, l, none, used) && p < |l| && k < |l| - 1
    ensures l[p] < |t| && LinkOk(Unlinked(t, l[p], none), Without(l, p), none, used, k)
  {
    var i := if k < p then k else k + 1;
    assert LinkOk(t, l, none, used, p) && LinkOk(t, l, none, used, i);
    if p > 0 { assert LinkOk(t, l, none, used, p - 1); }
    if p + 1 < |l| { assert LinkOk(t, l, none, used, p + 1); }
    assert l[i] != l[p] && (l[i] == t[l[p]].next <==> i == p + 1) && (l[i] == t[l[p]].prev <==> i + 1 == p);
    hide Distinct;
  }

  /** A list is not touched by changes to cells of others. */
  lemma ListFrame(t: seq<Cell>, r: seq<Cell>, head: nat, l: seq<nat>, none: nat, used: bool)
    requires IsList(t, head, l, none, used) && |r| >= |t| && forall id :: id in l && id < |t| ==> r[id] == t[id]
    ensures IsList(r, head, l, none, used)
  {
    forall k | 0 <= k < |l|
      ensures LinkOk(r, l, none, used, k)
    {
      assert LinkOk(t, l, none, used, k);
    }
  }

  /** Linking `id` before the head. */
  function Pushed(t: seq<Cell>, head: nat, id: nat, none: nat, used: bool, data: int): (r: seq<Cell>)
    requires id < |t|
    ensures |r| == |t|
  {
    var t1 := if head < |t| && head != none then t[head := t[head].(prev := id)] else t;
    t1[id := Cell(used, head, none, data)]
  }

  lemma PushKeeps(t: seq<Cell>, head: nat, l: seq<nat>, none: nat, used: bool, id: nat, data: int)
    requires IsList(t, head, l, none, used) && id < |t| && id < none && id !in l
    ensures IsList(Pushed(t, head, id, none, used, data), id, [id] + l, none, used)
  {
    var r, m := Pushed(t, head, id, none, used, data), [id] + l;
    if l != [] { assert LinkOk(t, l, none, used, 0); }
    forall k | 0 <= k < |m|
      ensures LinkOk(r, m, none, used, k)
    {
      if k > 0 {
        assert LinkOk(t, l, none, used, k - 1);
        assert m[k] == l[k - 1];
      }
    }
  }

  /** Unlinking and pushing only write cells of the members of the list, and the cell itself. */
  lemma OnlyMembers(t: seq<Cell>, head: nat, l: seq<nat>, none: nat, used: bool, p: nat)
    requires IsList(t, head, l, none, used) && p < |l|
    ensures l[p] < |t| && forall id :: 0 <= id < |t| && id !in l ==> Unlinked(t, l[p], none)[id] == t[id]
    ensures Unlinked(t, l[p], none)[l[p]] == t[l[p]]
  {
    assert LinkOk(t, l, none, used, p);
    if p > 0 { assert LinkOk(t, l, none, used, p - 1); }
    if p + 1 < |l| { assert LinkOk(t, l, none, used, p + 1); }
  }

  // ---------------------------------------------------------------------------
  // Growing
  // ---------------------------------------------------------------------------

  function Range(from: nat, to: nat): (r: seq<nat>)
    requires from <= to
    ensures |r| == to - from && forall k :: 0 <= k < |r| ==> r[k] == from + k
  {
    seq(to - from, k requires k >= 0 => from + k)
  }

  /** The fresh cells are linked in order, and in front of the free list. */
  function Grown(t: seq<Cell>, head: nat, cap: nat, none: nat): (r: seq<Cell>)
    requires |t| < cap
    ensures |r| == cap
  {
    seq(cap, id requires 0 <= id < cap =>
      if id >= |t| then
        Cell(false, if id + 1 == cap then head else id + 1, if id == |t| then none else id - 1, NO_DATA)
      else if id == head && head != none then t[id].(prev := cap - 1)
      else t[id])
  }

  lemma GrowKeeps(t: seq<Cell>, head: nat, f: seq<nat>, cap: nat, none: nat)
    requires IsList(t, head, f, none, false) && |t| < cap <= none
    ensures IsList(Grown(t, head, cap, none), |t|, Range(|t|, cap) + f, none, false)
  {
    var r, n, m := Grown(t, head, cap, none), cap - |t|, Range(|t|, cap) + f;
    if f != [] { assert LinkOk(t, f, none, false, 0); }
    forall k | 0 <= k < |f|
      ensures f[k] < |t|
    {
      assert LinkOk(t, f, none, false, k);
    }
    forall k | 0 <= k < |m|
      ensures LinkOk(r, m, none, false, k)
    {
      if k >= n {
        assert LinkOk(t, f, none, false, k - n);
        assert m[k] == f[k - n];
        if k > n {
          assert m[k] != head;
        }
      }
    }
    forall i, j | 0 <= i < j < |m|
      ensures m[i] != m[j]
    {
      if i >= n { assert m[i] == f[i - n] && m[j] == f[j - n]; }
    }
  }

  // ---------------------------------------------------------------------------
  // The table
  // ---------------------------------------------------------------------------

  // ---------------------------------------------------------------------------
  // Data
  // ---------------------------------------------------------------------------

  /** Cells that are not in use hold no data. */
  ghost predicate FreeBlank(t: seq<Cell>) {
    forall k :: 0 <= k < |t| && !t[k].inUse ==> t[k].data == NO_DATA
  }

  /** What the IDs in use hold. */
  ghost function DataIn(t: seq<Cell>): map<nat, int> {
    map k: nat | k < |t| && t[k].inUse :: t[k].data
  }

  /** The cells are the same up to the links. */
  ghost predicate SameUpToLinks(t: seq<Cell>, r: seq<Cell>) {
    |r| == |t| && forall k :: 0 <= k < |t| ==> r[k].data == t[k].data && r[k].inUse == t[k].inUse
  }

  lemma UnlinkedSame(t: seq<Cell>, id: nat, none: nat)
    requires id < |t|
    ensures SameUpToLinks(t, Unlinked(t, id, none))
  {
  }

  lemma PushedSame(t: seq<Cell>, r: seq<Cell>, head: nat, id: nat, none: nat, used: bool, data: int)
    requires id < |t| && SameUpToLinks(t, r) && FreeBlank(t) && (!used ==> data == NO_DATA)
    ensures var m := Pushed(r, head, id, none, used, data);
      FreeBlank(m) && DataIn(m) == if used then DataIn(t)[id := data] else DataIn(t) - {id}
  {
    var m := Pushed(r, head, id, none, used, data);
    assert forall k :: 0 <= k < |t| && k != id ==> m[k].data == t[k].data && m[k].inUse == t[k].inUse;
    assert m[id].data == data && m[id].inUse == used;
  }

  lemma GrownSame(t: seq<Cell>, head: nat, cap: nat, none: nat)
    requires |t| < cap <= none && FreeBlank(t)
    ensures FreeBlank(Grown(t, head, cap, none)) && DataIn(Grown(t, head, cap, none)) == DataIn(t)
  {
    var m := Grown(t, head, cap, none);
    assert forall k :: 0 <= k < |t| ==> m[k].data == t[k].data && m[k].inUse == t[k].inUse;
    assert forall k :: |t| <= k < |m| ==> m[k].data == NO_DATA && !m[k].inUse;
  }

  class IdTable {
    const maxCap: nat
    var tbl: array<Cell>
    var flHead: nat
    var alHead: nat
    var iter: nat
    ghost var free: seq<nat>
    ghost var used: seq<nat>

    ghost predicate Valid()
      reads this, tbl
    {
      && 0 < tbl.Length <= maxCap
      && IsList(tbl[..], flHead, free, maxCap, false)
      && IsList(tbl[..], alHead, used, maxCap, true)
      && Partition(tbl.Length, used, free) && FreeBlank(tbl[..])
    }

    /** The data of the allocated IDs. */
    ghost function DataOf(): map<nat, int>
      reads this, tbl
    {
      DataIn(tbl[..])
    }

    /** The allocated IDs are those that have data. */
    lemma DataOfUsed()
      requires Valid()
      ensures forall id :: id in DataOf() <==> id in used
    {
      Members(tbl[..], alHead, used, maxCap, true);
      forall id: nat | id < tbl.Length
        ensures tbl[id].inUse <==> id in used
      {
        Flags(tbl[..], flHead, free, alHead, used, maxCap, id);
      }
    }

    constructor (mc: nat)
      requires mc > 0
      ensures Valid() && maxCap == mc && used == [] && fresh(tbl) && DataOf() == map[]
    {
      maxCap := mc;
      var cap := if mc < STARTING_CAP then mc else STARTING_CAP;
      tbl := new Cell[cap](id requires 0 <= id < cap =>
        Cell(false, if id + 1 == cap then mc else id + 1, if id == 0 then mc else id - 1, NO_DATA));
      flHead, alHead, iter := 0, mc, mc;
      free, used := Range(0, cap), [];
      new;
      forall k | 0 <= k < |free|
        ensures LinkOk(tbl[..], free, maxCap, false, k)
      {
      }
      forall id | 0 <= id < tbl.Length
        ensures id in free
      {
        assert free[id] == id;
      }
    }

    /** idtb_resize; `memory` says whether the allocator can provide the larger table. */
    method Resize(cap: nat, memory: bool) returns (code: Code)
      requires Valid()
      modifies this`tbl, this`flHead, this`free
      ensures Valid() && used == old(used) && DataOf() == old(DataOf())
      ensures code == if cap > tbl.Length then (if cap > maxCap then BadArgs else NoMem) else Success
      ensures old(tbl.Length) < cap <= maxCap && memory ==>
        code == Success && tbl.Length == cap && fresh(tbl) && free == Range(old(tbl.Length), cap) + old(free)
      ensures !(old(tbl.Length) < cap <= maxCap && memory) ==>
        tbl == old(tbl) && free == old(free) && flHead == old(flHead)
    {
      if cap <= tbl.Length {
        return Success;
      }
      if cap > maxCap {
        return BadArgs;
      }
      if !memory {
        return NoMem;
      }
      ghost var t, f := tbl[..], free;
      GrowKeeps(t, flHead, f, cap, maxCap);
      GrownSame(t, flHead, cap, maxCap);
      GrowFrame(t, flHead, f, alHead, used, cap, maxCap);
      Members(t, flHead, f, maxCap, false);
      Members(t, alHead, used, maxCap, true);
      GrowPartition(used, f, tbl.Length, cap);
      var n := tbl.Length;
      var larger := Enlarge(cap);
      flHead := n;
      tbl := larger;
      free := Range(n, cap) + f;
      code := Success;
    }

    /** The reallocated table with its new cells linked. */
    method Enlarge(cap: nat) returns (larger: array<Cell>)
      requires tbl.Length < cap <= maxCap && (flHead == maxCap || flHead < tbl.Length)
      ensures larger[..] == Grown(tbl[..], flHead, cap, maxCap) && fresh(larger)
    {
      larger := new Cell[cap](i => Cell(false, 0, 0, NO_DATA));
      var n, id := tbl.Length, 0;
      while id < n
        invariant 0 <= id <= n
        invariant forall k :: 0 <= k < id ==> larger[k] == tbl[k]
      {
        larger[id] := tbl[id];
        id := id + 1;
      }
      while id < cap
        invariant n <= id <= cap
        invariant forall k :: 0 <= k < n ==> larger[k] == tbl[k]
        invariant forall k :: n <= k < id ==> larger[k] == Cell(false, k + 1, if k == 0 then 0 else k - 1, NO_DATA)
      {
        larger[id] := Cell(false, id + 1, if id == 0 then 0 else id - 1, NO_DATA);
        id := id + 1;
      }
      larger[n] := larger[n].(prev := maxCap);
      larger[cap - 1] := larger[cap - 1].(next := flHead);
      if flHead != maxCap {
        larger[flHead] := larger[flHead].(prev := cap - 1);
      }
    }

    /** Takes a cell out of its list. */
    method Unlink(id: nat)
      requires id < tbl.Length <= maxCap
      modifies tbl
      ensures tbl[..] == Unlinked(old(tbl[..]), id, maxCap)
    {
      var next, prev := tbl[id].next, tbl[id].prev;
      if next < tbl.Length && next != maxCap {
        tbl[next] := tbl[next].(prev := prev);
      }
      if prev < tbl.Length && prev != maxCap {
        tbl[prev] := tbl[prev].(next := next);
      }
    }

    /** Puts a cell at the front of a list. */
    method Link(id: nat, head: nat, inUse: bool, data: int)
      requires id < tbl.Length <= maxCap
      modifies tbl
      ensures tbl[..] == Pushed(old(tbl[..]), head, id, maxCap, inUse, data)
    {
      if head < tbl.Length && head != maxCap {
        tbl[head] := tbl[head].(prev := id);
      }
      tbl[id] := Cell(inUse, head, maxCap, data);
    }

    /** The capacity that has room for an ID beyond the current one. */
    function RoomFor(id: nat): (cap: nat)
      requires 0 < tbl.Length <= maxCap && tbl.Length <= id < maxCap
      reads this
      ensures id < cap <= maxCap && tbl.Length < cap
    {
      var twice := 2 * tbl.Length;
      var cap := if twice <= tbl.Length || twice > maxCap then maxCap else twice;
      if id >= cap then id + 1 else cap
    }

    /** idtb_request_id: that very ID, unless it is taken, too large, or there is no memory for the table. */
    method RequestId(id: nat, memory: bool) returns (code: Code)
      requires Valid()
      modifies this`tbl, this`flHead, this`alHead, this`free, this`used, tbl
      ensures Valid() && (tbl == old(tbl) || fresh(tbl))
      ensures code == if id >= maxCap then InvalidIndex
        else if id in old(used) then AlreadyAllocated
        else if id >= old(tbl.Length) && !memory then NoMem else Success
      ensures used == if code == Success then [id] + old(used) else old(used)
      ensures DataOf() == if code == Success then old(DataOf())[id := NO_DATA] else old(DataOf())
    {
      if id >= maxCap {
        return InvalidIndex;
      }
      Members(tbl[..], alHead, used, maxCap, true);
      if id >= tbl.Length {
        code := Resize(RoomFor(id), memory);
        if code != Success {
          return;
        }
      }
      Flags(tbl[..], flHead, free, alHead, used, maxCap, id);
      if tbl[id].inUse {
        return AlreadyAllocated;
      }
      MoveId(id);
      code := Success;
    }

    /** A free ID goes to the front of the allocated ones. */
    method MoveId(id: nat)
      requires Valid() && id < tbl.Length && id in free
      modifies this`flHead, this`alHead, this`free, this`used, tbl
      ensures Valid() && used == [id] + old(used) && DataOf() == old(DataOf())[id := NO_DATA]
    {
      ghost var t, f, a, p := tbl[..], free, used, Position(free, id);
      UnlinkKeeps(t, flHead, f, maxCap, false, p);
      OnlyMembers(t, flHead, f, maxCap, false, p);
      var data := tbl[id].data;
      Flags(t, flHead, f, alHead, a, maxCap, id);
      UnlinkedSame(t, id, maxCap);
      if tbl[id].prev == maxCap {
        flHead := tbl[id].next;
      }
      Unlink(id);
      ghost var t1 := tbl[..];
      ListFrame(t, t1, alHead, a, maxCap, true);
      PushKeeps(t1, alHead, a, maxCap, true, id, data);
      PushFrame(t1, alHead, a, true, flHead, Without(f, p), false, maxCap, id, data);
      PushedSame(t, t1, alHead, id, maxCap, true, data);
      Link(id, alHead, true, data);
      alHead := id;
      free, used := Without(f, p), [id] + a;
      PartitionMoves(tbl.Length, a, f, id, free);
    }

    /** idtb_pop_id: an unused ID; the null ID exactly when all are taken or the table cannot grow. */
    method PopId(memory: bool) returns (id: nat)
      requires Valid()
      modifies this`tbl, this`flHead, this`alHead, this`free, this`used, tbl
      ensures Valid() && (tbl == old(tbl) || fresh(tbl))
      ensures id != maxCap ==> id < maxCap && id !in old(used) && used == [id] + old(used)
      ensures id == maxCap ==> used == old(used)
      ensures DataOf() == if id == maxCap then old(DataOf()) else old(DataOf())[id := NO_DATA]
      ensures id == maxCap <==> old(free) == [] && (old(tbl.Length) == maxCap || !memory)
      ensures old(free) == [] && old(tbl.Length) == maxCap ==> forall i :: 0 <= i < maxCap ==> i in old(used)
    {
      Members(tbl[..], flHead, free, maxCap, false);
      Members(tbl[..], alHead, used, maxCap, true);
      if free != [] { assert free[0] in free; }
      if flHead != maxCap {
        id := flHead;
      } else {
        id := tbl.Length;
      }
      var code := RequestId(id, memory);
      if code != Success {
        id := maxCap;
      }
    }

    /** idtb_push_id: an allocated ID is free again; others are ignored. */
    method PushId(id: nat)
      requires Valid()
      modifies this`flHead, this`alHead, this`free, this`used, tbl
      ensures Valid()
      ensures id in old(used) ==> (forall x :: x in used <==> x in old(used) && x != id) && free == [id] + old(free)
      ensures id !in old(used) ==> used == old(used) && free == old(free) && tbl[..] == old(tbl[..])
      ensures DataOf() == old(DataOf()) - {id}
    {
      Members(tbl[..], alHead, used, maxCap, true);
      if id >= tbl.Length {
        return;
      }
      Flags(tbl[..], flHead, free, alHead, used, maxCap, id);
      if !tbl[id].inUse {
        return;
      }
      hide Unlinked, Pushed, IsList, Distinct, DataIn, FreeBlank;
      UnlinkedSame(tbl[..], id, maxCap);
      ghost var t, f, a, p := tbl[..], free, used, Position(used, id);
      UnlinkKeeps(t, alHead, a, maxCap, true, p);
      OnlyMembers(t, alHead, a, maxCap, true, p);
      if tbl[id].prev == maxCap {
        alHead := tbl[id].next;
      }
      Unlink(id);
      ghost var t1 := tbl[..];
      ListFrame(t, t1, flHead, f, maxCap, false);
      PushKeeps(t1, flHead, f, maxCap, false, id, NO_DATA);
      PushFrame(t1, flHead, f, false, alHead, Without(a, p), true, maxCap, id, NO_DATA);
      PushedSame(t, t1, flHead, id, maxCap, false, NO_DATA);
      Link(id, flHead, false, NO_DATA);
      flHead := id;
      free, used := [id] + f, Without(a, p);
    }

    // -------------------------------------------------------------------------
    // Data and iteration
    // -------------------------------------------------------------------------

    method Get(id: nat) returns (data: int)
      requires Valid()
      ensures data == if id in DataOf() then DataOf()[id] else NO_DATA
    {
      Members(tbl[..], alHead, used, maxCap, true);
      if id < tbl.Length { Flags(tbl[..], flHead, free, alHead, used, maxCap, id); }
      if id >= tbl.Length || !tbl[id].inUse {
        return NO_DATA;
      }
      return tbl[id].data;
    }

    method Set(id: nat, data: int)
      requires Valid()
      modifies tbl
      ensures Valid()
      ensures DataOf() == if id in used then old(DataOf())[id := data] else old(DataOf())
      ensures forall k :: 0 <= k < tbl.Length ==> tbl[k] == old(tbl[k]).(data := tbl[k].data)
    {
      Members(tbl[..], alHead, used, maxCap, true);
      if id < tbl.Length { Flags(tbl[..], flHead, free, alHead, used, maxCap, id); }
      if id >= tbl.Length || !tbl[id].inUse {
        return;
      }
      DataFrame(tbl[..], flHead, free, maxCap, false, id, data);
      DataFrame(tbl[..], alHead, used, maxCap, true, id, data);
      ghost var t := tbl[..];
      tbl[id] := tbl[id].(data := data);
      assert tbl[..] == t[id := t[id].(data := data)];
    }

    /** The iterator is at the `k`-th allocated ID, or at the end. */
    ghost predicate IterAt(k: nat)
      reads this
    {
      k <= |used| && iter == if k < |used| then used[k] else maxCap
    }

    method ResetIterator()
      requires Valid()
      modifies this`iter
      ensures Valid() && IterAt(0)
    {
      iter := alHead;
    }

    /** Without changes in between, the steps of an iteration visit each allocated ID once, in list order. */
    method NextId(ghost k: nat) returns (id: nat)
      requires Valid() && IterAt(k)
      modifies this`iter
      ensures Valid() && IterAt(if k < |used| then k + 1 else k) && id == iter
    {
      if k < |used| { assert LinkOk(tbl[..], used, maxCap, true, k); }
      if iter != maxCap {
        iter := tbl[iter].next;
      }
      return iter;
    }
  }

  lemma DataFrame(t: seq<Cell>, head: nat, l: seq<nat>, none: nat, used: bool, id: nat, data: int)
    requires IsList(t, head, l, none, used) && id < |t|
    ensures IsList(t[id := t[id].(data := data)], head, l, none, used)
  {
    var r := t[id := t[id].(data := data)];
    forall k | 0 <= k < |l|
      ensures LinkOk(r, l, none, used, k)
    {
      assert LinkOk(t, l, none, used, k);
    }
  }

  lemma Members(t: seq<Cell>, head: nat, l: seq<nat>, none: nat, used: bool)
    requires IsList(t, head, l, none, used)
    ensures forall id :: id in l ==> id < |t| && id < none && t[id].inUse == used
    ensures head == none || head < |t|
  {
    forall id | id in l
      ensures id < |t| && id < none && t[id].inUse == used
    {
      var k :| 0 <= k < |l| && l[k] == id;
      assert LinkOk(t, l, none, used, k);
    }
    if l != [] { assert LinkOk(t, l, none, used, 0); }
  }

  lemma Flags(t: seq<Cell>, fh: nat, f: seq<nat>, ah: nat, a: seq<nat>, none: nat, id: nat)
    requires IsList(t, fh, f, none, false) && IsList(t, ah, a, none, true) && Partition(|t|, a, f) && id < |t|
    ensures t[id].inUse <==> id in a
    ensures !t[id].inUse <==> id in f
  {
    Members(t, fh, f, none, false);
    Members(t, ah, a, none, true);
  }

  ghost function Position(l: seq<nat>, id: nat): (p: nat)
    requires id in l
    ensures p < |l| && l[p] == id
  {
    var p :| 0 <= p < |l| && l[p] == id;
    p
  }

  /** Pushing to one list leaves the other as it is. */
  lemma PushFrame(
      t: seq<Cell>, head: nat, l: seq<nat>, used: bool, other: nat, m: seq<nat>, flag: bool, none: nat, id: nat,
      data: int)
    requires IsList(t, head, l, none, used) && IsList(t, other, m, none, flag) && id < |t| && id !in m
    requires forall x :: x in m ==> x !in l
    ensures IsList(Pushed(t, head, id, none, used, data), other, m, none, flag)
  {
    if l != [] { assert LinkOk(t, l, none, used, 0); }
    var r := Pushed(t, head, id, none, used, data);
    ListFrame(t, r, other, m, none, flag);
  }

  lemma PartitionMoves(n: nat, a: seq<nat>, f: seq<nat>, id: nat, g: seq<nat>)
    requires Partition(n, a, f) && id in f && forall x :: x in g <==> x in f && x != id
    ensures Partition(n, [id] + a, g)
  {
  }

  lemma GrowFrame(t: seq<Cell>, head: nat, f: seq<nat>, alHead: nat, a: seq<nat>, cap: nat, none: nat)
    requires IsList(t, head, f, none, false) && IsList(t, alHead, a, none, true) && |t| < cap <= none
    ensures IsList(Grown(t, head, cap, none), alHead, a, none, true)
  {
    var r := Grown(t, head, cap, none);
    forall k | 0 <= k < |a|
      ensures LinkOk(r, a, none, true, k)
    {
      assert LinkOk(t, a, none, true, k);
      if f != [] { assert LinkOk(t, f, none, false, 0); }
    }
  }

  lemma GrowPartition(a: seq<nat>, f: seq<nat>, n: nat, cap: nat)
    requires Partition(n, a, f) && n < cap && forall id :: id in a ==> id < n
    ensures Partition(cap, a, Range(n, cap) + f)
  {
    var m := Range(n, cap) + f;
    forall id | n <= id < cap
      ensures id in m
    {
      assert m[id - n] == id;
    }
  }
}
