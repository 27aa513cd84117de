/**
  The FAT32 device: allocation and release of cluster chains on a table changed in place.
 */
module FatDevices {
  import opened FatChains

  type U32 = x: int | 0 <= x < 0x1_0000_0000

  const SLOTS_PER_SECTOR := 128
  const SEARCH_TRIES := 5

  function Masked(v: U32): Slot {
    v % 0x1000_0000
  }

  /** Where the search for free slots stops in sector `s` of a table of `sectors` sectors. */
  function ScanStop(sectors: nat, slots: nat, s: nat): nat {
    if s + 1 == sectors && slots % SLOTS_PER_SECTOR > 0 then slots % SLOTS_PER_SECTOR else SLOTS_PER_SECTOR
  }

  function ScanStart(s: nat): nat {
    if s == 0 then 2 else 0
  }

  /** The table has no sector that holds no slot. */
  predicate Tight(sectors: nat, slots: nat) {
    (sectors - 1) * SLOTS_PER_SECTOR < slots
  }

  /** Slot `i` of sector `s` is looked at. */
  predicate Scanned(sectors: nat, slots: nat, s: nat, i: nat) {
    s < sectors && ScanStart(s) <= i < ScanStop(sectors, slots, s)
  }

  /**
    The search stays inside the table exactly when the table is tight; otherwise it may offer a slot
    that belongs to no cluster.
   */
  lemma ScanInTable(sectors: nat, slots: nat)
    requires 0 < sectors && 2 < slots <= sectors * SLOTS_PER_SECTOR
    ensures Tight(sectors, slots) <==>
      forall s: nat, i: nat {:trigger Scanned(sectors, slots, s, i)} :: Scanned(sectors, slots, s, i) ==>
        s * 128 + i < slots
  {
    if Tight(sectors, slots) {
      forall s: nat, i: nat {:trigger Scanned(sectors, slots, s, i)} | Scanned(sectors, slots, s, i)
        ensures s * 128 + i < slots
      {
        if s + 1 < sectors {
          assert (s + 1) * 128 <= (sectors - 1) * 128;
        } else {
          LastSector(sectors, slots);
        }
      }
    } else {
      var s := sectors - 1;
      assert Scanned(sectors, slots, s, ScanStart(s));
    }
  }

  /** In a table of two sectors for 100 slots, the search looks at what would be slot 128. */
  lemma ScanLeavesTable()
    ensures !Tight(2, 100) && Scanned(2, 100, 1, 0) && 1 * SLOTS_PER_SECTOR + 0 >= 100
  {
  }

  lemma LastSector(sectors: nat, slots: nat)
    requires 0 < sectors && (sectors - 1) * 128 < slots <= sectors * 128
    ensures slots == (sectors - 1) * 128 + ScanStop(sectors, slots, sectors - 1)
  {
    var r := slots - (sectors - 1) * 128;
    assert slots % 128 == r % 128 by {
      ModShift(sectors - 1, r);
    }
  }

  lemma ModShift(q: nat, r: nat)
    ensures (q * 128 + r) % 128 == r % 128
  {
  }

  // ---------------------------------------------------------------------------
  // Walking along a chain
  // ---------------------------------------------------------------------------

  /** `n` links from `i`. */
  function Walk(f: Fat, i: nat, n: nat): (r: (Code, nat))
    requires InRange(f, i)
    ensures r.0 == Success ==> InRange(f, r.1)
    decreases n
  {
    if n == 0 then (Success, i)
    else if IsEoc(f[i]) then (InvalidIndex, 0)
    else if !InRange(f, f[i]) then (Mismatch, 0)
    else Walk(f, f[i], n - 1)
  }

  /** On a chain this is indexing, and past its end an error. */
  lemma {:induction false} WalkIndexes(f: Fat, c: seq<nat>, n: nat)
    requires IsChain(f, c)
    ensures InRange(f, c[0])
    ensures Walk(f, c[0], n) == if n < |c| then (Success, c[n]) else (InvalidIndex, 0)
    decreases n
  {
    assert LinkAt(f, c, 0);
    if n > 0 && |c| > 1 {
      assert LinkAt(f, c, 1);
      ChainTail(f, c);
      WalkIndexes(f, c[1..], n - 1);
    }
  }

  // ---------------------------------------------------------------------------
  // The queue of free slots
  // ---------------------------------------------------------------------------

  /** Every queued slot is still free, queued once, and below `limit`. */
  ghost predicate QueueOk(q: seq<nat>, f: seq<Slot>, limit: nat) {
    && limit <= |f|
    && (forall a :: 0 <= a < |q| ==> 2 <= q[a] < limit && f[q[a]] == 0)
    && (forall a, b :: 0 <= a < b < |q| ==> q[a] != q[b])
  }

  lemma QueueKept(q: seq<nat>, f: seq<Slot>, g: seq<Slot>, limit: nat)
    requires QueueOk(q, f, limit) && |g| == |f| && forall i :: 0 <= i < |f| && f[i] == 0 ==> g[i] == 0
    ensures QueueOk(q, g, limit)
  {
  }

  /** The `n`-th slot from `i` on, where a chain of that length is to end, is a queued one. */
  ghost predicate EndsQueued(q: seq<nat>, f: Fat, i: nat, n: nat) {
    n > 0 && InRange(f, i) && Walk(f, i, n - 1).0 == Success && Walk(f, i, n - 1).1 in q
  }

  /** A queued slot that is resized to length 1. */
  lemma QueuedSlotEnds(q: seq<nat>, f: Fat, i: nat)
    requires InRange(f, i) && i in q
    ensures EndsQueued(q, f, i, 1)
  {
  }

  lemma QueuedIsFree(q: seq<nat>, f: seq<Slot>, i: nat, limit: nat)
    requires QueueOk(q, f, limit)
    ensures i in q ==> i < |f| && f[i] == 0
  {
  }

  lemma OtherStays(q: seq<nat>, f: seq<Slot>, i: nat, limit: nat)
    requires QueueOk(q, f, limit) && i !in q && i < |f|
    ensures QueueOk(q, f[i := EOC], limit)
  {
  }

  lemma QueueBroken(q: seq<nat>, f: seq<Slot>, i: nat, limit: nat)
    requires i in q && i < |f| && f[i] != 0
    ensures !QueueOk(q, f, limit)
  {
  }

  // ---------------------------------------------------------------------------
  // The search for free slots
  // ---------------------------------------------------------------------------

  /** The zero slots of [lo, hi), in order. */
  function FreeIn(f: seq<Slot>, lo: nat, hi: nat): (q: seq<nat>)
    requires lo <= hi <= |f|
    ensures |q| <= hi - lo
    ensures forall x :: x in q <==> lo <= x < hi && f[x] == 0
    ensures forall a, b :: 0 <= a < b < |q| ==> q[a] < q[b]
    decreases hi - lo
  {
    if lo == hi then []
    else
      var q := FreeIn(f, lo, hi - 1);
      assert forall a :: 0 <= a < |q| ==> q[a] in q;
      if f[hi - 1] == 0 then q + [hi - 1] else q
  }

  lemma NothingIn(f: seq<Slot>, lo: nat)
    requires lo <= |f|
    ensures FreeIn(f, lo, lo) == []
  {
  }

  lemma OneMoreIn(f: seq<Slot>, lo: nat, hi: nat)
    requires lo <= hi < |f|
    ensures FreeIn(f, lo, hi + 1) == FreeIn(f, lo, hi) + if f[hi] == 0 then [hi] else []
  {
  }

  /** What is queued when sector `s` of the table `f` is drawn. */
  function FreeOf(f: seq<Slot>, slots: nat, s: nat): (q: seq<nat>)
    requires |f| % SLOTS_PER_SECTOR == 0 && 2 < slots <= |f| && s < |f| / SLOTS_PER_SECTOR
  {
    var sectors := |f| / SLOTS_PER_SECTOR;
    StartsBefore(sectors, slots, s);
    FreeIn(f, s * SLOTS_PER_SECTOR + ScanStart(s), s * SLOTS_PER_SECTOR + ScanStop(sectors, slots, s))
  }

  lemma StartsBefore(sectors: nat, slots: nat, s: nat)
    requires 2 < slots <= sectors * SLOTS_PER_SECTOR && s < sectors
    ensures ScanStart(s) <= ScanStop(sectors, slots, s) <= SLOTS_PER_SECTOR
    ensures s * SLOTS_PER_SECTOR + SLOTS_PER_SECTOR <= sectors * SLOTS_PER_SECTOR
  {
  }

  /** Every zero slot that is looked at in sector `s` is among `taken`. */
  ghost predicate UsedUp(f: seq<Slot>, slots: nat, s: nat, taken: seq<nat>)
    requires |f| % SLOTS_PER_SECTOR == 0 && 2 < slots <= |f| && s < |f| / SLOTS_PER_SECTOR
  {
    forall x :: x in FreeOf(f, slots, s) ==> x in taken
  }

  lemma ChainLinkAt(f: Fat, c: seq<nat>, i: nat)
    requires IsChain(f, c) && i < |c|
    ensures LinkAt(f, c, i)
  {
  }

  class FatDevice {
    const sectorsPerFat: nat
    const numSlots: nat
    const fat: array<Slot>
    const freeQ: array<nat>
    /** The random numbers, in the order in which they are drawn. */
    const draw: nat -> nat
    var fill: nat
    var drawn: nat

    ghost predicate Shape() {
      && 0 < sectorsPerFat && fat.Length == sectorsPerFat * SLOTS_PER_SECTOR
      && 2 < numSlots <= fat.Length && numSlots <= 0x0FFF_FFF7
      && freeQ.Length == SLOTS_PER_SECTOR
    }

    ghost function Limit(): nat {
      if Tight(sectorsPerFat, numSlots) then numSlots else fat.Length
    }

    ghost predicate Valid()
      reads this, fat, freeQ
    {
      Shape() && fill <= freeQ.Length && QueueOk(freeQ[..fill], fat[..], Limit())
    }

    ghost function Table(): Fat
      requires Shape()
      reads fat
    {
      fat[..numSlots]
    }

    /** The sector of the `k`-th draw. */
    function SectorAt(k: nat): (s: nat)
      requires Shape()
      ensures s < sectorsPerFat
    {
      draw(k) % sectorsPerFat
    }

    /** All that is queued belongs to a cluster. */
    ghost predicate Inside()
      requires fill <= freeQ.Length
      reads this`fill, freeQ
    {
      forall a :: 0 <= a < fill ==> freeQ[a] < numSlots
    }

    /** Which is so on a tight table. */
    lemma TightInside()
      requires Valid() && Tight(sectorsPerFat, numSlots)
      ensures Inside()
    {
      forall a | 0 <= a < fill
        ensures freeQ[a] < numSlots
      {
        assert freeQ[..fill][a] == freeQ[a];
      }
    }

    /** The last five sectors drawn have no free slots but those of `taken`. */
    ghost predicate Barren(f: seq<Slot>, taken: seq<nat>)
      requires Shape() && |f| == fat.Length
      reads this`drawn
    {
      && drawn >= SEARCH_TRIES
      && forall k {:trigger SectorAt(k)} :: drawn - SEARCH_TRIES <= k < drawn ==>
        UsedUp(f, numSlots, SectorAt(k), taken)
    }

    /** Nothing is queued, and less than `n` slots use up the last five sectors drawn. */
    ghost predicate Exhausted(f: seq<Slot>, n: nat)
      requires Shape() && |f| == fat.Length
      reads this`fill, this`drawn
    {
      fill == 0 && exists taken: seq<nat> :: |taken| < n && Barren(f, taken)
    }

    constructor (sectorsPerFat: nat, numSlots: nat, slots: seq<Slot>, draw: nat -> nat)
      requires 0 < sectorsPerFat && |slots| == sectorsPerFat * SLOTS_PER_SECTOR
      requires 2 < numSlots <= |slots| && numSlots <= 0x0FFF_FFF7
      ensures Valid() && Table() == slots[..numSlots] && fill == 0 && fresh(fat) && fresh(freeQ)
    {
      this.sectorsPerFat, this.numSlots, this.draw, fill, drawn := sectorsPerFat, numSlots, draw, 0, 0;
      fat := new Slot[|slots|](i requires 0 <= i < |slots| => slots[i]);
      freeQ := new nat[SLOTS_PER_SECTOR](i => 0);
    }

    method GetSlot(slot: U32) returns (code: Code, v: Slot)
      requires Shape()
      ensures code == if Masked(slot) < numSlots then Success else InvalidIndex
      ensures code == Success ==> v == Table()[Masked(slot)]
    {
      var i := Masked(slot);
      if i >= numSlots {
        return InvalidIndex, 0;
      }
      return Success, fat[i];
    }

    method SetSlot(slot: U32, v: U32) returns (code: Code)
      requires Shape()
      modifies fat
      ensures code == if Masked(slot) < numSlots then Success else InvalidIndex
      ensures fat[..] == if code == Success then old(fat[..])[Masked(slot) := Masked(v)] else old(fat[..])
    {
      var i := Masked(slot);
      if i >= numSlots {
        return InvalidIndex;
      }
      fat[i] := Masked(v);
      return Success;
    }

    /** What lies behind the slots of the table. */
    ghost function Rest(): seq<Slot>
      requires Shape()
      reads fat
    {
      fat[numSlots..]
    }

    method FreeChain(slot: U32) returns (code: Code)
      requires Shape()
      modifies fat
      ensures old(Valid()) ==> Valid()
      ensures var r := FreeChainF(old(Table()), Masked(slot)); Table() == r.fat && code == r.code
      ensures Rest() == old(Rest())
    {
      hide QueueOk, FreeWalk, Limit, Tight;
      var curr: Slot := Masked(slot);
      if curr < 2 || curr >= numSlots {
        return InvalidIndex;
      }
      ghost var f0, f1 := Table(), Rest();
      ghost var goal := FreeWalk(f0, curr);
      assert fat[..] == f0 + f1;
      while !IsEoc(curr)
        invariant Rest() == f1 && (IsEoc(curr) || InRange(Table(), curr))
        invariant forall i :: 0 <= i < numSlots && f0[i] == 0 ==> Table()[i] == 0
        invariant goal == if IsEoc(curr) then Freed(Table(), Success) else FreeWalk(Table(), curr)
        decreases !IsEoc(curr), |Used(Table())|
      {
        var got, next := GetSlot(curr);
        FreeStep(Table(), curr);
        if !IsEoc(next) && (next < 2 || next >= numSlots) {
          if fill <= freeQ.Length { TableOnlyCleared(freeQ[..fill], f0, f1, Limit()); }
          return Mismatch;
        }
        UsedDrops(Table(), curr);
        var done := SetSlot(curr, 0);
        curr := next;
      }
      if fill <= freeQ.Length { TableOnlyCleared(freeQ[..fill], f0, f1, Limit()); }
      return Success;
    }

    /** The queue survives when free slots stay free. */
    lemma TableOnlyCleared(q: seq<nat>, f0: seq<Slot>, f1: seq<Slot>, limit: nat)
      requires Shape() && |f0| == numSlots && Rest() == f1
      requires forall i :: 0 <= i < numSlots && f0[i] == 0 ==> Table()[i] == 0
      ensures QueueOk(q, f0 + f1, limit) ==> QueueOk(q, fat[..], limit)
    {
      assert fat[..] == Table() + Rest();
      if QueueOk(q, f0 + f1, limit) { QueueKept(q, f0 + f1, fat[..], limit); }
    }

    /** The free slots of the first of up to five sectors drawn at random that has any. */
    method PopulateFreeQueue() returns (code: Code)
      requires Valid()
      modifies this`fill, this`drawn, freeQ
      ensures Valid()
      ensures code == if fill > 0 then Success else NoSpace
      ensures old(fill) > 0 ==> fill == old(fill) && freeQ[..] == old(freeQ[..]) && drawn == old(drawn)
      ensures old(fill) == 0 ==>
        && old(drawn) < drawn <= old(drawn) + SEARCH_TRIES && (fill == 0 ==> drawn == old(drawn) + SEARCH_TRIES)
        && (forall k {:trigger SectorAt(k)} :: old(drawn) <= k < drawn - 1 ==>
             FreeOf(fat[..], numSlots, SectorAt(k)) == [])
        && freeQ[..fill] == FreeOf(fat[..], numSlots, SectorAt(drawn - 1))
    {
      hide QueueOk, FreeOf, FreeIn, SectorAt, ScanStart, ScanStop, Tight;
      if fill > 0 {
        return Success;
      }
      ghost var first := drawn;
      var tries := 0;
      while fill == 0 && tries < SEARCH_TRIES
        invariant Valid() && 0 <= tries <= SEARCH_TRIES && drawn == first + tries && (tries == 0 ==> fill == 0)
        invariant forall k {:trigger SectorAt(k)} :: first <= k < drawn - 1 ==>
          FreeOf(fat[..], numSlots, SectorAt(k)) == []
        invariant tries > 0 ==> freeQ[..fill] == FreeOf(fat[..], numSlots, SectorAt(drawn - 1))
      {
        var sector := SectorAt(drawn);
        drawn := drawn + 1;
        ScanSector(sector);
        tries := tries + 1;
      }
      return if fill == 0 then NoSpace else Success;
    }

    method ScanSector(s: nat)
      requires Valid() && fill == 0 && s < sectorsPerFat
      modifies this`fill, freeQ
      ensures Valid() && freeQ[..fill] == FreeOf(fat[..], numSlots, s)
    {
      hide FreeIn;
      var start, stop := ScanStart(s), ScanStop(sectorsPerFat, numSlots, s);
      StartsBefore(sectorsPerFat, numSlots, s);
      ScanSlots(s * SLOTS_PER_SECTOR, start, stop);
      FoundOk(freeQ[..fill], fat[..], sectorsPerFat, numSlots, s);
      hide QueueOk, Scanned, ScanStart, ScanStop, Tight;
    }

    method ScanSlots(base: nat, start: nat, stop: nat)
      requires fill == 0 && start <= stop <= freeQ.Length && base + stop <= fat.Length
      modifies this`fill, freeQ
      ensures fill <= freeQ.Length && freeQ[..fill] == FreeIn(fat[..], base + start, base + stop)
    {
      hide FreeIn;
      NothingIn(fat[..], base + start);
      var i := start;
      while i < stop
        invariant start <= i <= stop && fill <= i
        invariant freeQ[..fill] == FreeIn(fat[..], base + start, base + i)
      {
        OneMoreIn(fat[..], base + start, base + i);
        if fat[base + i] == 0 {
          QueueSlot(base + i);
        }
        i := i + 1;
      }
    }

    method QueueSlot(slot: nat)
      requires fill < freeQ.Length
      modifies this`fill, freeQ
      ensures fill == old(fill) + 1 && freeQ[..fill] == old(freeQ[..fill]) + [slot]
    {
      freeQ[fill] := slot;
      fill := fill + 1;
    }

    /** A queued slot becomes a chain of one cluster. */
    method PopFreeSlot() returns (code: Code, slot: nat)
      requires Valid()
      modifies this`fill, this`drawn, fat, freeQ
      ensures Valid() && Rest() == old(Rest())
      ensures code == Success ==>
        InRange(Table(), slot) && old(Table())[slot] == 0 && Table() == old(Table())[slot := EOC]
      ensures code != Success ==> Table() == old(Table())
      ensures code == Unknown ==> !Tight(sectorsPerFat, numSlots)
      ensures code in {Success, NoSpace, Unknown}
      ensures old(fill) > 0 ==> code != NoSpace && drawn == old(drawn) && fill + 1 == old(fill)
      ensures old(fill) > 0 && old(Inside()) ==> code == Success && Inside()
      ensures code == NoSpace ==> fill == 0 && drawn == old(drawn) + SEARCH_TRIES && Barren(fat[..], [])
      ensures code != Success ==> fat[..] == old(fat[..])
      ensures code != NoSpace ==> old(drawn) + (if old(fill) > 0 then 0 else 1) <= drawn
      ensures code != NoSpace ==>
        var q := if old(fill) > 0 then old(freeQ[..fill]) else FreeOf(old(fat[..]), numSlots, SectorAt(drawn - 1));
        LastTaken(q, freeQ[..fill], code, slot)
    {
      hide FreeOf, FreeIn, UsedUp, Barren, Scanned, SectorAt;
      code := PopulateFreeQueue();
      if code != Success {
        NothingFound();
        return code, 0;
      }
      code, slot := TakeSlot();
    }

    method TakeSlot() returns (code: Code, slot: nat)
      requires Valid() && fill > 0
      modifies this`fill, fat
      ensures Valid() && Rest() == old(Rest()) && LastTaken(old(freeQ[..fill]), freeQ[..fill], code, slot)
      ensures code == Success ==>
        InRange(Table(), slot) && old(Table())[slot] == 0 && Table() == old(Table())[slot := EOC]
      ensures code != Success ==> fat[..] == old(fat[..]) && code == Unknown && !Tight(sectorsPerFat, numSlots)
      ensures old(Inside()) ==> code == Success && Inside()
    {
      ghost var q, f := freeQ[..fill], fat[..];
      fill := fill - 1;
      slot := freeQ[fill];
      assert freeQ[..fill] == q[..|q| - 1] && q[|q| - 1] == slot;
      if slot >= numSlots {
        return Unknown, slot;
      }
      code := SetSlot(slot, EOC);
      assert fat[..] == f[slot := EOC];
    }

    /** The queue `q` has lost its last slot, `slot`, which may lie behind the table. */
    ghost predicate LastTaken(q: seq<nat>, q': seq<nat>, code: Code, slot: nat) {
      q != [] && q' == q[..|q| - 1] && slot == q[|q| - 1] && code == if slot < numSlots then Success else Unknown
    }

    lemma NothingFound()
      requires Shape() && drawn >= SEARCH_TRIES
      requires forall k {:trigger SectorAt(k)} :: drawn - SEARCH_TRIES <= k < drawn ==>
        FreeOf(fat[..], numSlots, SectorAt(k)) == []
      ensures Barren(fat[..], [])
    {
      hide FreeOf;
    }

    /** A chain of `len` fresh clusters, or none at all. */
    method NewChain(len: nat) returns (code: Code, head: nat, ghost c: seq<nat>)
      requires Valid()
      modifies this`fill, this`drawn, fat, freeQ
      ensures Valid() && Rest() == old(Rest()) && code in {Success, NoSpace, Unknown}
      ensures code == Success ==> |c| == len && Replaced(old(Table()), Table(), [], c)
      ensures code == Success ==> head == if len == 0 then EOC else c[0]
      ensures code == NoSpace ==> Table() == old(Table())
      ensures code == NoSpace ==> old(drawn) + SEARCH_TRIES <= drawn && Exhausted(old(fat[..]), len)
      ensures code == Unknown ==> !Tight(sectorsPerFat, numSlots)
      ensures old(fill) >= len && old(Inside()) ==> code == Success && fill == old(fill) - len
    {
      hide QueueOk, Barren, LastTaken, FreeOf, SectorAt, FreeWalk, IsChain, Inside, Limit, Tight;
      c := [];
      if len == 0 {
        return Success, EOC, [];
      }
      ghost var f, slots, n, inside := Table(), fat[..], fill, Inside();
      code, head := PopFreeSlot();
      if code != Success {
        return code, 0, [];
      }
      OneCluster(f, head);
      c := [head];
      var tail, i := head, 1;
      while i < len && code == Success
        invariant 1 <= i <= len && c != [] && head == c[0] && tail == c[|c| - 1] && Valid() && Rest() == old(Rest())
        invariant Replaced(f, Table(), [], c) && code in {Success, NoSpace, Unknown} && |c| == i
        invariant old(drawn) <= drawn && (code == Success && n >= i ==> fill + i == n)
        invariant code == Unknown ==> !Tight(sectorsPerFat, numSlots)
        invariant code == NoSpace ==> fill == 0 && old(drawn) + SEARCH_TRIES <= drawn && Barren(fat[..], [])
        invariant code == NoSpace ==> n < len && i < len
        invariant inside && n >= len ==> code == Success && Inside()
        decreases len - i, code == Success
      {
        var next;
        code, next := GrowChain(tail, f, c);
        if code == Success {
          c := c + [next];
          tail := next;
          i := i + 1;
        }
      }
      if code == NoSpace {
        UndoNew(f, Table(), c);
        StillBarren(slots, c);
        var undone := FreeChain(head);
      }
    }

    /** What was barren after `c` was taken is barren but for `c`. */
    lemma StillBarren(was: seq<Slot>, c: seq<nat>)
      requires Shape() && |was| == fat.Length && was[numSlots..] == Rest() && Barren(fat[..], [])
      requires Replaced(was[..numSlots], Table(), [], c)
      ensures Barren(was, c)
    {
      SameElsewhere(was, c);
      hide Replaced, Scanned;
      forall k {:trigger SectorAt(k)} | drawn - SEARCH_TRIES <= k < drawn
        ensures UsedUp(was, numSlots, SectorAt(k), c)
      {
        assert UsedUp(fat[..], numSlots, SectorAt(k), []);
        FewerFree(was, fat[..], numSlots, SectorAt(k), c);
      }
    }

    lemma SameElsewhere(was: seq<Slot>, c: seq<nat>)
      requires Shape() && |was| == fat.Length && was[numSlots..] == Rest()
      requires Replaced(was[..numSlots], Table(), [], c)
      ensures forall x :: 0 <= x < |was| && x !in c ==> fat[x] == was[x]
    {
      forall x | 0 <= x < |was| && x !in c
        ensures fat[x] == was[x]
      {
        if x < numSlots { assert Table()[x] == was[..numSlots][x]; } else { assert Rest()[x - numSlots] == was[x]; }
      }
    }

    /** One more cluster behind `tail`, the last of the fresh chain `c`. */
    method GrowChain(tail: nat, ghost f: Fat, ghost c: seq<nat>) returns (code: Code, next: nat)
      requires Valid() && Replaced(f, Table(), [], c) && c != [] && tail == c[|c| - 1]
      modifies this`fill, this`drawn, fat, freeQ
      ensures Valid() && Rest() == old(Rest()) && code in {Success, NoSpace, Unknown}
      ensures Replaced(f, Table(), [], if code == Success then c + [next] else c)
      ensures code == NoSpace ==> fill == 0 && old(drawn) + SEARCH_TRIES <= drawn && Barren(fat[..], [])
      ensures code == Unknown ==> !Tight(sectorsPerFat, numSlots)
      ensures old(drawn) <= drawn && (old(fill) > 0 ==> code != NoSpace && fill + 1 == old(fill))
      ensures old(fill) > 0 && old(Inside()) ==> code == Success && Inside()
    {
      hide Replaced, Barren, FreeOf, Inside, Limit, Tight, QueueOk;
      ghost var g := Table();
      code, next := PopFreeSlot();
      if code == Success {
        GrowNew(f, g, c, next);
        ghost var t := fat[..];
        var linked := SetSlot(tail, next);
        assert Table() == g[next := EOC][tail := next];
        QueueKept(freeQ[..fill], t, fat[..], Limit());
      }
    }

    method Traverse(slot: U32, offset: nat) returns (code: Code, stop: nat)
      requires Shape()
      ensures var i := Masked(slot);
        (code, stop) == if InRange(Table(), i) then Walk(Table(), i, offset) else (InvalidIndex, 0)
    {
      var iter: nat := Masked(slot);
      if iter < 2 || iter >= numSlots {
        return InvalidIndex, 0;
      }
      var i := 0;
      while i < offset
        invariant 0 <= i <= offset && InRange(Table(), iter)
        invariant Walk(Table(), Masked(slot), offset) == Walk(Table(), iter, offset - i)
      {
        var got, next := GetSlot(iter);
        if IsEoc(next) {
          return InvalidIndex, 0;
        }
        if next < 2 || next >= numSlots {
          return Mismatch, 0;
        }
        iter := next;
        i := i + 1;
      }
      return Success, iter;
    }

    /**
      The chain at `slot` gets length `newLen`: cut to its first clusters, or followed by fresh ones.
      When there is no space for these, the table is as before. `c` is the chain, if `slot` heads one.
     */
    method ResizeChain(slot: U32, newLen: nat, ghost c: seq<nat>) returns (code: Code, ghost d: seq<nat>)
      requires Valid() && (c == [] || (IsChain(Table(), c) && c[0] == Masked(slot)))
      modifies this`fill, this`drawn, fat, freeQ
      ensures Shape() && (Valid() <==> !EndsQueued(old(freeQ[..fill]), old(Table()), Masked(slot), newLen))
      ensures c != [] ==> Valid() && Rest() == old(Rest())
      ensures c != [] && newLen <= |c| ==> code == Success && d == c[..newLen]
      ensures c != [] && newLen > |c| && code == Success ==> |d| == newLen && d[..|c|] == c
      ensures c != [] && code == Success ==> Replaced(old(Table()), Table(), c, d)
      ensures c != [] && code != Success ==> newLen > |c| && code in {NoSpace, Unknown}
      ensures c != [] && code == NoSpace ==> Table() == old(Table()) && Exhausted(old(fat[..]), newLen - |c|)
      ensures c != [] && code == Unknown ==> !Tight(sectorsPerFat, numSlots)
      ensures c != [] && |c| + old(fill) >= newLen && old(Inside()) ==> code == Success
    {
      hide Exhausted, Inside, Limit, Tight;
      d := c;
      ghost var f := Table();
      ghost var queue := freeQ[..fill];
      var head: nat := Masked(slot);
      if c != [] { ChainSlots(f, c, c[0]); }
      if head < 2 || head >= numSlots {
        return InvalidIndex, d;
      }
      if newLen == 0 {
        if c != [] {
          FreeWhole(f, c);
          FreedIsReplaced(f, c);
          d := c[..0];
        }
        code := FreeChain(slot);
        return;
      }
      var iter, links := head, 1;
      while true
        invariant 1 <= links <= newLen && InRange(f, iter) && Table() == f && Valid() && Rest() == old(Rest())
        invariant Walk(f, head, newLen - 1) == Walk(f, iter, newLen - links) && freeQ[..fill] == queue
        invariant Inside() == old(Inside()) && fill == old(fill)
        invariant c != [] ==> links <= |c| && iter == c[links - 1]
        decreases newLen - links
      {
        assert c != [] ==> LinkAt(f, c, links - 1);
        var got, next := GetSlot(iter);
        if c != [] && links < |c| { assert LinkAt(f, c, links); }
        if next == BAD_CLUSTER {
          return Mismatch, d;
        }
        if links == newLen {
          if IsEoc(next) {
            if c != [] { SameChain(f, c); }
            return Success, d;
          }
          code, d := CutBehind(iter, next, links, c);
          return;
        }
        if IsEoc(next) {
          break;
        }
        if next < 2 || next >= numSlots {
          return Mismatch, d;
        }
        iter := next;
        links := links + 1;
      }
      assert fat[..] == f + Rest() && old(fat[..]) == f + old(Rest());
      code, d := ExtendChain(iter, newLen - links, c);
    }

    method CutBehind(iter: nat, next: Slot, n: nat, ghost c: seq<nat>) returns (code: Code, ghost d: seq<nat>)
      requires Valid() && InRange(Table(), iter) && Table()[iter] == next
      requires c != [] ==> IsChain(Table(), c) && 0 < n < |c| && iter == c[n - 1]
      modifies fat
      ensures Shape() && (Valid() <==> iter !in freeQ[..fill])
      ensures c != [] ==> Valid() && Rest() == old(Rest())
      ensures c != [] ==> code == Success && d == c[..n] && Replaced(old(Table()), Table(), c, d)
    {
      hide QueueOk, IsChain, Replaced, FreeWalk, FreeChainF, Zeroed, Limit, Tight, IsEoc;
      ghost var f, g, q := Table(), fat[..], freeQ[..fill];
      d := [];
      QueuedIsFree(q, g, iter, Limit());
      var cut := SetSlot(iter, EOC);
      assert Table() == f[iter := EOC];
      if iter !in q { OtherStays(q, g, iter, Limit()); }
      if c != [] {
        d := c[..n];
        RestFreed(f, c, n);
      }
      code := FreeChain(next);
      if iter in q {
        NothingFreed(f[iter := EOC]);
        QueueBroken(q, fat[..], iter, Limit());
      }
    }

    method ExtendChain(iter: nat, extra: nat, ghost c: seq<nat>) returns (code: Code, ghost d: seq<nat>)
      requires Valid() && InRange(Table(), iter) && IsEoc(Table()[iter]) && extra > 0
      requires c != [] ==> IsChain(Table(), c) && iter == c[|c| - 1]
      modifies this`fill, this`drawn, fat, freeQ
      ensures Valid() && Rest() == old(Rest()) && code in {Success, NoSpace, Unknown}
      ensures c != [] && code == Success ==>
        |d| == |c| + extra && d[..|c|] == c && Replaced(old(Table()), Table(), c, d)
      ensures code == NoSpace ==> Table() == old(Table()) && Exhausted(old(fat[..]), extra)
      ensures code == Unknown ==> !Tight(sectorsPerFat, numSlots)
      ensures old(fill) >= extra && old(Inside()) ==> code == Success
    {
      hide Exhausted, Inside, Limit, Tight, QueueOk;
      ghost var f := Table();
      var made, segment, e := NewChain(extra);
      d := c + e;
      if made != Success {
        return made, d;
      }
      ghost var g, h := Table(), fat[..];
      ExtendedIsReplaced(f, g, c, e, iter);
      var linked := SetSlot(iter, segment);
      assert Table() == g[iter := segment];
      QueueKept(freeQ[..fill], h, fat[..], Limit());
      code := Success;
    }
  }

  lemma ExtendedIsReplaced(f: Fat, g: Fat, c: seq<nat>, e: seq<nat>, last: nat)
    requires Replaced(f, g, [], e) && e != [] && InRange(f, last) && IsEoc(f[last])
    requires c != [] ==> IsChain(f, c) && last == c[|c| - 1]
    ensures g[last] != 0 && InRange(g, e[0]) && g[e[0]] != 0
    ensures c != [] ==> Replaced(f, g[last := e[0]], c, c + e)
  {
    ChainSlots(g, e, e[0]);
    assert last !in e;
    if c != [] {
      forall i | i in c
        ensures InRange(f, i) && i !in e
      {
        ChainSlots(f, c, i);
      }
      ChainFrame(f, g, c);
      Append(g, c, e);
      assert last in c;
    }
  }

  lemma FewerFree(f: seq<Slot>, g: seq<Slot>, slots: nat, s: nat, c: seq<nat>)
    requires |f| % SLOTS_PER_SECTOR == 0 && 2 < slots <= |f| && s < |f| / SLOTS_PER_SECTOR && |g| == |f|
    requires UsedUp(g, slots, s, []) && forall x :: 0 <= x < |f| && x !in c ==> g[x] == f[x]
    ensures UsedUp(f, slots, s, c)
  {
    forall x | x in FreeOf(f, slots, s)
      ensures x in c
    {
      assert x !in FreeOf(g, slots, s);
    }
  }

  lemma FoundOk(q: seq<nat>, f: seq<Slot>, sectors: nat, slots: nat, s: nat)
    requires |f| == sectors * SLOTS_PER_SECTOR && 2 < slots <= |f| && s < sectors && q == FreeOf(f, slots, s)
    ensures QueueOk(q, f, if Tight(sectors, slots) then slots else |f|)
  {
    ScanInTable(sectors, slots);
    StartsBefore(sectors, slots, s);
    forall a | 0 <= a < |q|
      ensures 2 <= q[a] < (if Tight(sectors, slots) then slots else |f|) && f[q[a]] == 0
    {
      assert q[a] in q && Scanned(sectors, slots, s, q[a] - s * 128);
    }
  }

  /** Freeing what comes behind the new end of a chain. */
  lemma RestFreed(f: Fat, c: seq<nat>, n: nat)
    requires IsChain(f, c) && 0 < n < |c|
    ensures InRange(f, c[n - 1]) && f[c[n - 1]] != 0
    ensures var r := FreeChainF(f[c[n - 1] := EOC], f[c[n - 1]]); r.code == Success && Replaced(f, r.fat, c, c[..n])
  {
    hide FreeWalk, Replaced, Zeroed;
    Cut(f, c, n);
    ChainLinkAt(f, c, n - 1);
    ChainSlots(f, c, c[n - 1]);
    FreeWhole(f[c[n - 1] := EOC], c[n..]);
  }

  lemma NothingFreed(f: Fat)
    ensures FreeChainF(f, 0) == Freed(f, InvalidIndex)
  {
  }

  lemma SameChain(f: Fat, c: seq<nat>)
    requires IsChain(f, c)
    ensures Replaced(f, f, c, c) && c[..|c|] == c
  {
    forall i | i in c
      ensures InRange(f, i)
    {
      ChainSlots(f, c, i);
    }
  }

  /** Freeing a fresh chain again gives back the table as it was. */
  lemma UndoNew(f: Fat, g: Fat, c: seq<nat>)
    requires Replaced(f, g, [], c) && c != []
    ensures InRange(g, c[0]) && FreeWalk(g, c[0]) == Freed(f, Success)
  {
    FreeWhole(g, c);
    assert Zeroed(g, c) == f;
  }

  lemma GrowNew(f: Fat, g: Fat, c: seq<nat>, next: nat)
    requires Replaced(f, g, [], c) && c != [] && InRange(g, next) && g[next] == 0
    ensures var t := c[|c| - 1]; InRange(g, t) && Replaced(f, g[next := EOC][t := next], [], c + [next])
    ensures g[c[|c| - 1]] != 0
  {
    var h := g[next := EOC];
    assert c[|c| - 1] in c;
    forall i | i in c
      ensures i != next && g[i] != 0
    {
      ChainSlots(g, c, i);
    }
    ChainFrame(g, h, c);
    assert LinkAt(h, [next], 0);
    Append(h, c, [next]);
  }

  lemma FreeStep(f: Fat, i: nat)
    requires InRange(f, i)
    ensures FreeWalk(f, i) ==
      if !IsEoc(f[i]) && !InRange(f, f[i]) then Freed(f, Mismatch)
      else if IsEoc(f[i]) then Freed(f[i := 0], Success) else FreeWalk(f[i := 0], f[i])
  {
  }
}
