/**
  Cluster chains in a file allocation table (Microsoft FAT Specification, section 4).

  A table is the sequence of its slots; the top four bits of a slot are ignored when it is read, so a
  slot is its low 28 bits. Slots 0 and 1 belong to no cluster.
 */
module FatChains {

  const EOC: Slot := 0x0FFF_FFF8
  const BAD_CLUSTER: Slot := 0x0FFF_FFF7

  type Slot = v: int | 0 <= v < 0x1000_0000

  /** Fewer slots than the smallest special value. */
  type Fat = f: seq<Slot> | 2 < |f| <= 0x0FFF_FFF7 witness [0, 0, 0]

  /** The mask test of the source, for the low 28 bits. */
  predicate IsEoc(v: Slot) {
    v >= EOC
  }

  predicate InRange(f: Fat, i: int) {
    2 <= i < |f|
  }

  // ---------------------------------------------------------------------------
  // Chains
  // ---------------------------------------------------------------------------

  ghost predicate LinkAt(f: Fat, c: seq<nat>, k: nat)
    requires k < |c|
  {
    InRange(f, c[k]) && if k + 1 < |c| then f[c[k]] == c[k + 1] else IsEoc(f[c[k]])
  }

  /** `c` lists the clusters of a chain in order. */
  ghost predicate IsChain(f: Fat, c: seq<nat>) {
    c != [] && forall k {:trigger LinkAt(f, c, k)} :: 0 <= k < |c| ==> LinkAt(f, c, k)
  }

  /** A chain that ends cannot come back to itself. */
  lemma {:induction false} ChainAcyclic(f: Fat, c: seq<nat>, i: nat, j: nat)
    requires IsChain(f, c) && i < j < |c|
    ensures c[i] != c[j]
    decreases |c| - j
  {
    assert LinkAt(f, c, i) && LinkAt(f, c, i + 1) && LinkAt(f, c, j);
    if c[i] == c[j] && j + 1 < |c| {
      ChainAcyclic(f, c, i + 1, j + 1);
    }
  }

  lemma ChainDistinct(f: Fat, c: seq<nat>)
    requires IsChain(f, c)
    ensures forall i, j :: 0 <= i < j < |c| ==> c[i] != c[j]
  {
    forall i, j | 0 <= i < j < |c|
      ensures c[i] != c[j]
    {
      ChainAcyclic(f, c, i, j);
    }
  }

  /** There is only one chain from a given cluster. */
  lemma {:induction false} ChainUnique(f: Fat, c: seq<nat>, d: seq<nat>)
    requires IsChain(f, c) && IsChain(f, d) && c[0] == d[0]
    ensures c == d
    decreases |c|
  {
    assert LinkAt(f, c, 0) && LinkAt(f, d, 0);
    assert (|c| > 1 ==> LinkAt(f, c, 1)) && (|d| > 1 ==> LinkAt(f, d, 1));
    if |c| > 1 && |d| > 1 {
      ChainTail(f, c);
      ChainTail(f, d);
      ChainUnique(f, c[1..], d[1..]);
      assert c == [c[0]] + c[1..] && d == [d[0]] + d[1..];
    }
  }

  lemma ChainTail(f: Fat, c: seq<nat>)
    requires IsChain(f, c) && |c| > 1
    ensures IsChain(f, c[1..])
  {
    var d := c[1..];
    forall k | 0 <= k < |d|
      ensures LinkAt(f, d, k)
    {
      assert LinkAt(f, c, k + 1);
    }
  }

  /** Two chains that share a cluster share everything behind it. */
  lemma {:induction false} ChainFrom(f: Fat, c: seq<nat>, i: nat)
    requires IsChain(f, c) && i < |c|
    ensures IsChain(f, c[i..])
  {
    var d := c[i..];
    forall k | 0 <= k < |d|
      ensures LinkAt(f, d, k)
    {
      assert LinkAt(f, c, i + k);
    }
  }

  /** A chain only depends on its own slots. */
  lemma ChainFrame(f: Fat, g: Fat, c: seq<nat>)
    requires IsChain(f, c) && |g| == |f| && forall i :: i in c && InRange(f, i) ==> g[i] == f[i]
    ensures IsChain(g, c)
  {
    forall k | 0 <= k < |c|
      ensures LinkAt(g, c, k)
    {
      assert LinkAt(f, c, k) && c[k] in c;
    }
  }

  lemma ChainSlots(f: Fat, c: seq<nat>, i: nat)
    requires IsChain(f, c) && i in c
    ensures InRange(f, i) && f[i] != 0 && f[i] != BAD_CLUSTER
  {
    var k :| 0 <= k < |c| && c[k] == i;
    assert LinkAt(f, c, k);
    if k + 1 < |c| { assert LinkAt(f, c, k + 1); }
  }

  // ---------------------------------------------------------------------------
  // Freeing
  // ---------------------------------------------------------------------------

  datatype Code = Success | NoSpace | InvalidIndex | InvalidRange | Mismatch | Unknown | BadArgs

  datatype Freed = Freed(fat: Fat, code: Code)

  ghost function Used(f: Fat): set<nat> {
    set i | 0 <= i < |f| && f[i] != 0
  }

  lemma UsedDrops(f: Fat, i: nat)
    requires i < |f| && f[i] != 0
    ensures Used(f[i := 0]) == Used(f) - {i} && |Used(f[i := 0])| < |Used(f)|
  {
    assert i in Used(f);
  }

  /** fat32_free_chain from a slot in range: it ends on every table, because the used slots get fewer. */
  ghost function FreeWalk(f: Fat, i: nat): (r: Freed)
    requires InRange(f, i)
    ensures |r.fat| == |f|
    decreases |Used(f)|
  {
    var next := f[i];
    if !IsEoc(next) && !InRange(f, next) then Freed(f, Mismatch)
    else
      UsedDrops(f, i);
      if IsEoc(next) then Freed(f[i := 0], Success) else FreeWalk(f[i := 0], next)
  }

  ghost function FreeChainF(f: Fat, i: nat): (r: Freed) {
    if InRange(f, i) then FreeWalk(f, i) else Freed(f, InvalidIndex)
  }

  function Zeroed(f: Fat, c: seq<nat>): (g: Fat)
    ensures |g| == |f|
  {
    seq(|f|, i requires 0 <= i < |f| => if i in c then 0 else f[i])
  }

  /** Freeing a chain clears exactly its slots. */
  lemma {:induction false} FreeWhole(f: Fat, c: seq<nat>)
    requires IsChain(f, c)
    ensures InRange(f, c[0]) && FreeWalk(f, c[0]) == Freed(Zeroed(f, c), Success)
    decreases |c|
  {
    assert LinkAt(f, c, 0);
    var g := f[c[0] := 0];
    if |c| == 1 {
      assert g == Zeroed(f, c);
    } else {
      ChainDistinct(f, c);
      ChainTail(f, c);
      ChainFrame(f, g, c[1..]);
      FreeWhole(g, c[1..]);
      assert c == [c[0]] + c[1..];
      assert Zeroed(g, c[1..]) == Zeroed(f, c);
    }
  }

  /** On any table, even a cyclic or broken one, freeing does nothing but clear slots. */
  lemma {:induction false} FreeOnlyClears(f: Fat, i: nat)
    requires InRange(f, i)
    ensures forall j :: 0 <= j < |f| ==> FreeWalk(f, i).fat[j] == f[j] || FreeWalk(f, i).fat[j] == 0
    decreases |Used(f)|
  {
    var next := f[i];
    if IsEoc(next) || InRange(f, next) {
      UsedDrops(f, i);
      if !IsEoc(next) { FreeOnlyClears(f[i := 0], next); }
    }
  }

  /** Freeing succeeds exactly on a well-formed chain. */
  lemma {:induction false} FreeSucceedsOnChains(f: Fat, i: nat) returns (c: seq<nat>)
    requires InRange(f, i) && FreeWalk(f, i).code == Success
    ensures IsChain(f, c) && c[0] == i
    decreases |Used(f)|
  {
    var next := f[i];
    if IsEoc(next) {
      c := [i];
      assert LinkAt(f, c, 0);
    } else {
      UsedDrops(f, i);
      var g := f[i := 0];
      var d := FreeSucceedsOnChains(g, next);
      c := [i] + d;
      forall k | 0 <= k < |c|
        ensures LinkAt(f, c, k)
      {
        if k > 0 {
          assert LinkAt(g, d, k - 1);
          ChainSlots(g, d, d[k - 1]);
        }
      }
    }
  }

  // ---------------------------------------------------------------------------
  // All chains of a table
  // ---------------------------------------------------------------------------

  ghost predicate Disjoint(c: seq<nat>, d: seq<nat>) {
    forall i :: i in c ==> i !in d
  }

  ghost predicate Covered(f: Fat, chains: set<seq<nat>>, i: nat) {
    exists c :: c in chains && i in c
  }

  /** The slots in use, other than bad clusters, are the members of disjoint chains. */
  ghost predicate FatInv(f: Fat, chains: set<seq<nat>>) {
    && (forall c :: c in chains ==> IsChain(f, c))
    && (forall c, d :: c in chains && d in chains && c != d ==> Disjoint(c, d))
    && (forall i {:trigger Covered(f, chains, i)} :: InRange(f, i) && f[i] != 0 && f[i] != BAD_CLUSTER ==>
        Covered(f, chains, i))
  }

  /**
    From `f` to `g` the chain `c` becomes `d`, either of which may be missing ([]): the clusters of `d`
    come from `c` or were free, those `c` loses are free now, and no other slot changes.
   */
  ghost predicate Replaced(f: Fat, g: Fat, c: seq<nat>, d: seq<nat>) {
    && |g| == |f|
    && (d != [] ==> IsChain(g, d))
    && (forall i :: i in d ==> InRange(f, i) && (i in c || f[i] == 0))
    && (forall i :: i in c && i !in d && InRange(f, i) ==> g[i] == 0)
    && (forall i :: 0 <= i < |f| && i !in c && i !in d ==> g[i] == f[i])
  }

  /** Whatever happens to one chain, no other is touched, and nothing is lost. */
  lemma ReplacedKeeps(f: Fat, g: Fat, chains: set<seq<nat>>, c: seq<nat>, d: seq<nat>)
    requires FatInv(f, chains) && Replaced(f, g, c, d) && (c == [] || c in chains)
    ensures FatInv(g, chains - {c} + if d == [] then {} else {d})
  {
    hide IsChain;
    var after := chains - {c} + if d == [] then {} else {d};
    forall e | e in chains && e != c
      ensures IsChain(g, e) && Disjoint(e, d) && Disjoint(d, e)
    {
      OtherChainStays(f, g, c, d, e);
    }
    forall i | InRange(g, i) && g[i] != 0 && g[i] != BAD_CLUSTER
      ensures Covered(g, after, i)
    {
      if i in d {
        assert d in after;
      } else {
        assert i !in c && g[i] == f[i];
        assert Covered(f, chains, i);
        var e :| e in chains && i in e;
        assert e in after;
      }
    }
  }

  lemma OtherChainStays(f: Fat, g: Fat, c: seq<nat>, d: seq<nat>, e: seq<nat>)
    requires Replaced(f, g, c, d) && IsChain(f, e) && Disjoint(e, c)
    ensures IsChain(g, e) && Disjoint(e, d) && Disjoint(d, e)
  {
    forall i | i in e
      ensures i !in d && InRange(f, i) && g[i] == f[i]
    {
      ChainSlots(f, e, i);
    }
    ChainFrame(f, g, e);
  }

  lemma FreedIsReplaced(f: Fat, c: seq<nat>)
    requires IsChain(f, c)
    ensures Replaced(f, Zeroed(f, c), c, [])
  {
  }

  // ---------------------------------------------------------------------------
  // Growing and cutting
  // ---------------------------------------------------------------------------

  /** A free slot becomes a chain of its own. */
  lemma OneCluster(f: Fat, i: nat)
    requires InRange(f, i) && f[i] == 0
    ensures Replaced(f, f[i := EOC], [], [i])
  {
    assert LinkAt(f[i := EOC], [i], 0);
  }

  /** A second chain is hung behind a chain. */
  lemma Append(f: Fat, c: seq<nat>, d: seq<nat>)
    requires IsChain(f, c) && IsChain(f, d) && Disjoint(c, d)
    ensures InRange(f, c[|c| - 1]) && InRange(f, d[0]) && IsChain(f[c[|c| - 1] := d[0]], c + d)
  {
    ChainDistinct(f, c);
    assert LinkAt(f, c, |c| - 1) && LinkAt(f, d, 0);
    var g := f[c[|c| - 1] := d[0]];
    forall k | 0 <= k < |c + d|
      ensures LinkAt(g, c + d, k)
    {
      if k < |c| {
        assert LinkAt(f, c, k);
      } else {
        assert LinkAt(f, d, k - |c|) && (c + d)[k] == d[k - |c|];
        assert c[|c| - 1] in c && d[k - |c|] in d;
      }
    }
  }

  /** Cutting behind cluster `n - 1` and freeing the rest leaves the first `n` clusters. */
  lemma Cut(f: Fat, c: seq<nat>, n: nat)
    requires IsChain(f, c) && 0 < n < |c|
    ensures InRange(f, c[n - 1])
    ensures var g := f[c[n - 1] := EOC]; IsChain(g, c[n..]) && Replaced(f, Zeroed(g, c[n..]), c, c[..n])
  {
    ChainDistinct(f, c);
    assert LinkAt(f, c, n - 1);
    var g := f[c[n - 1] := EOC];
    var rest := c[n..];
    ChainFrom(f, c, n);
    ChainFrame(f, g, rest);
    var h := Zeroed(g, rest);
    forall k | 0 <= k < n
      ensures LinkAt(h, c[..n], k)
    {
      assert LinkAt(f, c, k);
    }
    assert c == c[..n] + rest;
    forall i | i in c[..n]
      ensures InRange(f, i)
    {
      ChainSlots(f, c, i);
    }
  }
}
