/**
  The process tree of the kernel: parents, living children and zombie children.
 */
module ProcessTree {
  import opened Sequences

  type Pid = nat

  datatype Family = Family(parent: Pid, exited: bool, status: int, children: seq<Pid>, zombies: seq<Pid>)
  type Tree = map<Pid, Family>

  /** The lists of `p`: each member names `p` as its parent and is in the list that fits its state. */
  ghost predicate ListsSound(t: Tree, root: Pid, p: Pid)
    requires p in t
  {
    && Distinct(t[p].children) && Distinct(t[p].zombies)
    && (forall c :: c in t[p].children ==> c in t && c != root && t[c].parent == p && !t[c].exited)
    && (forall c :: c in t[p].zombies ==> c in t && c != root && t[c].parent == p && t[c].exited)
  }

  /** `c` is listed by its parent, and the parent is alive. */
  ghost predicate Placed(t: Tree, c: Pid)
    requires c in t
  {
    && t[c].parent in t && !t[t[c].parent].exited && t[c].parent != c
    && (if t[c].exited then c in t[t[c].parent].zombies else c in t[t[c].parent].children)
  }

  ghost predicate Descends(t: Tree, rank: map<Pid, nat>, c: Pid)
    requires c in t
  {
    c in rank && t[c].parent in rank && rank[t[c].parent] < rank[c]
  }

  /** `rank` grows from parent to child, so following parents always ends at the root. */
  ghost predicate Ranked(t: Tree, root: Pid, rank: map<Pid, nat>) {
    && root in rank && rank[root] == 0
    && forall c {:trigger Descends(t, rank, c)} :: c in t && c != root ==> Descends(t, rank, c)
  }

  ghost predicate TreeInv(t: Tree, root: Pid) {
    && root in t && !t[root].exited
    && (forall p {:trigger ListsSound(t, root, p)} :: p in t ==> ListsSound(t, root, p))
    && (forall c {:trigger Placed(t, c)} :: c in t && c != root ==> Placed(t, c))
    && exists rank :: Ranked(t, root, rank)
  }

  /** Exited processes have no children of either kind: their whole family went to the root. */
  lemma ExitedHaveNoChildren(t: Tree, root: Pid, p: Pid)
    requires TreeInv(t, root) && p in t && t[p].exited
    ensures t[p].children == [] && t[p].zombies == []
  {
    if t[p].children != [] {
      HoldersLive(t, root, p, t[p].children[0]);
    }
    if t[p].zombies != [] {
      HoldersLive(t, root, p, t[p].zombies[0]);
    }
  }

  lemma HoldersLive(t: Tree, root: Pid, p: Pid, c: Pid)
    requires TreeInv(t, root) && p in t && (c in t[p].children || c in t[p].zombies)
    ensures !t[p].exited && c in t && t[c].parent == p && c != root && c != p
  {
    assert ListsSound(t, root, p);
    assert Placed(t, c);
  }

  /** The ancestor `n` steps up. */
  ghost function Ancestor(t: Tree, root: Pid, p: Pid, n: nat): Pid
    requires TreeInv(t, root) && p in t
    ensures Ancestor(t, root, p, n) in t
    decreases n
  {
    if n == 0 || p == root then p else assert Placed(t, p); Ancestor(t, root, t[p].parent, n - 1)
  }

  /** There are no orphans and no cycles: every process descends from the root. */
  lemma {:induction false} EveryoneDescendsFromRoot(t: Tree, root: Pid, rank: map<Pid, nat>, p: Pid)
    requires TreeInv(t, root) && Ranked(t, root, rank) && p in t
    ensures p in rank && Ancestor(t, root, p, rank[p]) == root
    decreases if p in rank then rank[p] else 0
  {
    if p != root {
      assert Placed(t, p) && Descends(t, rank, p);
      EveryoneDescendsFromRoot(t, root, rank, t[p].parent);
      AncestorStays(t, root, t[p].parent, rank[t[p].parent], rank[p] - 1);
    }
  }

  lemma {:induction false} AncestorStays(t: Tree, root: Pid, p: Pid, n: nat, m: nat)
    requires TreeInv(t, root) && p in t && n <= m && Ancestor(t, root, p, n) == root
    ensures Ancestor(t, root, p, m) == root
    decreases n
  {
    if n > 0 && p != root {
      assert Placed(t, p);
      AncestorStays(t, root, t[p].parent, n - 1, m - 1);
    }
  }

  function Drop(l: seq<Pid>, p: Pid): (l': seq<Pid>)
  {
    if l == [] then [] else if l[0] == p then l[1..] else [l[0]] + Drop(l[1..], p)
  }

  lemma DropMembers(l: seq<Pid>, p: Pid)
    requires Distinct(l)
    ensures Distinct(Drop(l, p))
    ensures forall x :: x in Drop(l, p) <==> x in l && x != p
  {
    if l != [] {
      assert forall x :: x in l <==> x == l[0] || x in l[1..];
      if l[0] != p {
        DropMembers(l[1..], p);
        var l' := Drop(l, p);
        assert forall x :: x in l' <==> x == l[0] || x in Drop(l[1..], p);
        assert Distinct(l') by {
          forall i, j | 0 <= i < j < |l'| ensures l'[i] != l'[j] {
            assert l'[j] == Drop(l[1..], p)[j - 1];
            if i == 0 { assert l'[j] in Drop(l[1..], p); }
            else { assert l'[i] == Drop(l[1..], p)[i - 1]; }
          }
        }
      }
    }
  }

  lemma DistinctConcat<T(!new)>(a: seq<T>, b: seq<T>)
    requires Distinct(a) && Distinct(b) && forall x :: x in a ==> x !in b
    ensures Distinct(a + b)
  {
    var c := a + b;
    forall i, j | 0 <= i < j < |c|
      ensures c[i] != c[j]
    {
      if i < |a| <= j {
        assert c[i] in a && c[j] in b;
      }
    }
  }

  // ---------------------------------------------------------------------------
  // Fork
  // ---------------------------------------------------------------------------

  function Forked(t: Tree, p: Pid, c: Pid): Tree
    requires p in t
  {
    t[p := t[p].(children := t[p].children + [c])][c := Family(p, false, 0, [], [])]
  }

  lemma ForkKeepsTree(t: Tree, root: Pid, p: Pid, c: Pid)
    requires TreeInv(t, root) && p in t && !t[p].exited && c !in t
    ensures TreeInv(Forked(t, p, c), root)
  {
    var rank :| Ranked(t, root, rank);
    var t' := Forked(t, p, c);
    if p != root { assert Placed(t, p) && Descends(t, rank, p); }
    var rank' := rank[c := rank[p] + 1];
    forall d | d in t'
      ensures ListsSound(t', root, d)
      ensures d != root ==> Placed(t', d) && Descends(t', rank', d)
    {
      if d != c {
        assert ListsSound(t, root, d);
        assert d != root ==> Placed(t, d) && Descends(t, rank, d);
      }
    }
    assert Ranked(t', root, rank');
  }

  // ---------------------------------------------------------------------------
  // Adoption: ks_abandon_children
  // ---------------------------------------------------------------------------

  function Adopted(t: Tree, root: Pid, p: Pid): Tree
    requires root in t && p in t
  {
    map c | c in t ::
      if c == root then t[root].(children := t[root].children + t[p].children,
        zombies := t[root].zombies + t[p].zombies)
      else if c == p then t[p].(children := [], zombies := [])
      else if c in t[p].children || c in t[p].zombies then t[c].(parent := root)
      else t[c]
  }

  lemma AdoptKeepsTree(t: Tree, root: Pid, p: Pid)
    requires TreeInv(t, root) && p in t && p != root
    ensures TreeInv(Adopted(t, root, p), root)
  {
    var rank :| Ranked(t, root, rank);
    var t' := Adopted(t, root, p);
    assert ListsSound(t, root, root) && ListsSound(t, root, p) && Placed(t, p);
    DistinctConcat(t[root].children, t[p].children);
    DistinctConcat(t[root].zombies, t[p].zombies);
    forall d | d in t'
      ensures ListsSound(t', root, d)
      ensures d != root ==> Placed(t', d) && Descends(t', rank, d)
    {
      assert ListsSound(t, root, d);
      if d != root {
        assert Placed(t, d) && Descends(t, rank, d);
        assert ListsSound(t, root, t[d].parent);
      }
    }
    assert Ranked(t', root, rank);
  }

  lemma ParentStays(t: Tree, root: Pid, p: Pid)
    requires TreeInv(t, root) && p in t && p != root
    ensures Adopted(t, root, p)[p].parent == t[p].parent
  {
    assert Placed(t, p);
  }

  // ---------------------------------------------------------------------------
  // Becoming a zombie
  // ---------------------------------------------------------------------------

  function Buried(t: Tree, p: Pid, status: int): Tree
    requires p in t && t[p].parent in t && t[p].parent != p
  {
    var q := t[p].parent;
    t[q := t[q].(children := Drop(t[q].children, p), zombies := t[q].zombies + [p])]
     [p := t[p].(exited := true, status := status)]
  }

  lemma BuryKeepsTree(t: Tree, root: Pid, p: Pid, status: int)
    requires TreeInv(t, root) && p in t && p != root && !t[p].exited && t[p].children == [] && t[p].zombies == []
    ensures Placed(t, p) && TreeInv(Buried(t, p, status), root)
  {
    var rank :| Ranked(t, root, rank);
    var q := t[p].parent;
    assert Placed(t, p) && ListsSound(t, root, q);
    var t' := Buried(t, p, status);
    DropMembers(t[q].children, p);
    forall d | d in t'
      ensures ListsSound(t', root, d)
      ensures d != root ==> Placed(t', d) && Descends(t', rank, d)
    {
      assert ListsSound(t, root, d);
      if d != root {
        assert Placed(t, d) && Descends(t, rank, d);
      }
    }
    assert Ranked(t', root, rank);
  }

  // ---------------------------------------------------------------------------
  // Reaping
  // ---------------------------------------------------------------------------

  function Reaped(t: Tree, p: Pid, z: Pid): Tree
    requires p in t
  {
    t[p := t[p].(zombies := Drop(t[p].zombies, z))] - {z}
  }

  lemma ReapKeepsTree(t: Tree, root: Pid, p: Pid, z: Pid)
    requires TreeInv(t, root) && p in t && z in t[p].zombies
    ensures TreeInv(Reaped(t, p, z), root)
    ensures z in t && t[z].exited && t[z].parent == p && z != p && z != root
  {
    var rank :| Ranked(t, root, rank);
    var t' := Reaped(t, p, z);
    assert ListsSound(t, root, p) && Placed(t, z);
    DropMembers(t[p].zombies, z);
    ExitedHaveNoChildren(t, root, z);
    forall d | d in t'
      ensures ListsSound(t', root, d)
      ensures d != root ==> Placed(t', d) && Descends(t', rank, d)
    {
      assert ListsSound(t, root, d);
      if d != root {
        assert Placed(t, d) && Descends(t, rank, d);
      }
    }
    assert Ranked(t', root, rank);
  }

  // ---------------------------------------------------------------------------
  // How many processes are alive
  // ---------------------------------------------------------------------------

  ghost function Live(t: Tree): set<Pid> {
    set p | p in t && !t[p].exited
  }

  lemma BuryDropsLive(t: Tree, root: Pid, p: Pid, status: int)
    requires TreeInv(t, root) && p in t && p != root && !t[p].exited
    ensures Placed(t, p) && Live(Buried(t, p, status)) == Live(t) - {p}
    ensures |Live(Buried(t, p, status))| < |Live(t)|
  {
    assert Placed(t, p);
    assert p in Live(t);
  }

  lemma AdoptKeepsLive(t: Tree, root: Pid, p: Pid)
    requires TreeInv(t, root) && p in t
    ensures Live(Adopted(t, root, p)) == Live(t)
  {
  }
}
