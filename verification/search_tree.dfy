/**
  The binary search tree: nodes with parent, left and right references, changed in place. Its elements
  are what it is for, in order from left to right.
 */
module SearchTrees {
  import opened Sequences

  type Ref = nat

  const NULL: Ref := 0

  datatype Node<K> = Node(parent: Ref, left: Ref, right: Ref, key: K)

  type Nodes<K> = map<Ref, Node<K>>

  datatype Code = Success | AlreadyAllocated | Unknown

  /** The shape of a tree, with the reference of every node. */
  datatype Tree = Leaf | Fork(left: Tree, ref: Ref, right: Tree)

  function RootOf(t: Tree): Ref {
    if t.Leaf? then NULL else t.ref
  }

  function InOrder(t: Tree): seq<Ref> {
    if t.Leaf? then [] else InOrder(t.left) + [t.ref] + InOrder(t.right)
  }

  /** The nodes are linked in this shape, below `parent`. */
  ghost predicate Linked<K>(n: Nodes<K>, parent: Ref, t: Tree)
    decreases t
  {
    t.Fork? ==>
      && t.ref in n && t.ref != NULL && n[t.ref].parent == parent
      && n[t.ref].left == RootOf(t.left) && n[t.ref].right == RootOf(t.right)
      && Linked(n, t.ref, t.left) && Linked(n, t.ref, t.right)
  }

  lemma {:induction false} LinkedFrame<K>(n: Nodes<K>, m: Nodes<K>, parent: Ref, t: Tree)
    requires Linked(n, parent, t) && forall r :: r in InOrder(t) && r in n ==> r in m && m[r] == n[r]
    ensures Linked(m, parent, t)
    decreases t
  {
    if t.Fork? {
      assert t.ref in InOrder(t);
      LinkedFrame(n, m, t.ref, t.left);
      LinkedFrame(n, m, t.ref, t.right);
    }
  }

  lemma {:induction false} SameLinks<K>(n: Nodes<K>, m: Nodes<K>, parent: Ref, t: Tree)
    requires Linked(n, parent, t)
    requires forall r :: r in n ==>
      r in m && m[r].parent == n[r].parent && m[r].left == n[r].left && m[r].right == n[r].right
    ensures Linked(m, parent, t)
    decreases t
  {
    if t.Fork? {
      SameLinks(n, m, t.ref, t.left);
      SameLinks(n, m, t.ref, t.right);
    }
  }

  lemma {:induction false} LinkedRefs<K>(n: Nodes<K>, parent: Ref, t: Tree)
    requires Linked(n, parent, t)
    ensures forall r :: r in InOrder(t) ==> r in n && r != NULL
    decreases t
  {
    if t.Fork? {
      LinkedRefs(n, t.ref, t.left);
      LinkedRefs(n, t.ref, t.right);
    }
  }

  /** The root of a tree gets another parent. */
  lemma Reparent<K>(n: Nodes<K>, parent: Ref, t: Tree, p: Ref)
    requires Linked(n, parent, t) && t.Fork? && Distinct(InOrder(t))
    ensures t.ref in n && Linked(n[t.ref := n[t.ref].(parent := p)], p, t)
  {
    var m := n[t.ref := n[t.ref].(parent := p)];
    RootApart(t);
    LinkedFrame(n, m, t.ref, t.left);
    LinkedFrame(n, m, t.ref, t.right);
  }

  lemma RootApart(t: Tree)
    requires t.Fork? && Distinct(InOrder(t))
    ensures t.ref !in InOrder(t.left) && t.ref !in InOrder(t.right)
    ensures forall r :: r in InOrder(t.left) ==> r !in InOrder(t.right)
    ensures Distinct(InOrder(t.left)) && Distinct(InOrder(t.right))
  {
    var a, b := InOrder(t.left), InOrder(t.right);
    var l := a + [t.ref] + b;
    assert l == InOrder(t);
    assert forall i :: 0 <= i < |a| ==> l[i] == a[i];
    assert forall i :: 0 <= i < |b| ==> l[|a| + 1 + i] == b[i];
    assert l[|a|] == t.ref;
  }

  // ---------------------------------------------------------------------------
  // Subtrees
  // ---------------------------------------------------------------------------

  /** The subtree at `r`. */
  function Sub(t: Tree, r: Ref): (s: Tree) {
    if t.Leaf? then Leaf
    else if t.ref == r then t
    else if r in InOrder(t.left) then Sub(t.left, r) else Sub(t.right, r)
  }

  function Replace(t: Tree, r: Ref, s: Tree): Tree {
    if t.Leaf? then t
    else if t.ref == r then s
    else if r in InOrder(t.left) then t.(left := Replace(t.left, r, s)) else t.(right := Replace(t.right, r, s))
  }

  /** What comes before and after the subtree at `r`. */
  function Before(t: Tree, r: Ref): seq<Ref> {
    if t.Leaf? || t.ref == r then []
    else if r in InOrder(t.left) then Before(t.left, r) else InOrder(t.left) + [t.ref] + Before(t.right, r)
  }

  function After(t: Tree, r: Ref): seq<Ref> {
    if t.Leaf? || t.ref == r then []
    else if r in InOrder(t.left) then After(t.left, r) + [t.ref] + InOrder(t.right) else After(t.right, r)
  }

  lemma Regroup(a: seq<Ref>, b: seq<Ref>, c: seq<Ref>, d: seq<Ref>, e: seq<Ref>)
    ensures (a + b + c) + d + e == a + b + (c + d + e)
    ensures a + b + (c + d + e) == (a + b + c) + d + e
  {
  }

  lemma {:induction false} SubIs(t: Tree, r: Ref)
    requires r in InOrder(t)
    ensures Sub(t, r).Fork? && Sub(t, r).ref == r
    ensures InOrder(t) == Before(t, r) + InOrder(Sub(t, r)) + After(t, r)
  {
    if t.ref != r {
      if r in InOrder(t.left) {
        SubIs(t.left, r);
        Regroup(Before(t.left, r), InOrder(Sub(t.left, r)), After(t.left, r), [t.ref], InOrder(t.right));
      } else {
        SubIs(t.right, r);
        Regroup(InOrder(t.left), [t.ref], Before(t.right, r), InOrder(Sub(t.right, r)), After(t.right, r));
      }
    }
  }

  lemma {:induction false} ReplaceOrder(t: Tree, r: Ref, s: Tree)
    requires r in InOrder(t)
    ensures InOrder(Replace(t, r, s)) == Before(t, r) + InOrder(s) + After(t, r)
  {
    if t.ref != r {
      if r in InOrder(t.left) {
        ReplaceOrder(t.left, r, s);
        Regroup(Before(t.left, r), InOrder(s), After(t.left, r), [t.ref], InOrder(t.right));
      } else {
        ReplaceOrder(t.right, r, s);
        Regroup(InOrder(t.left), [t.ref], Before(t.right, r), InOrder(s), After(t.right, r));
      }
    }
  }

  lemma {:induction false} SubLinked<K>(n: Nodes<K>, parent: Ref, t: Tree, r: Ref)
    requires Linked(n, parent, t) && r in InOrder(t)
    ensures r in n && Sub(t, r).Fork? && Sub(t, r).ref == r && Linked(n, n[r].parent, Sub(t, r))
    ensures r == t.ref ==> n[r].parent == parent
    decreases t
  {
    if t.ref != r {
      if r in InOrder(t.left) { SubLinked(n, t.ref, t.left, r); } else { SubLinked(n, t.ref, t.right, r); }
    }
  }

  lemma Members(t: Tree)
    requires t.Fork?
    ensures forall x :: x in InOrder(t) <==> x in InOrder(t.left) || x == t.ref || x in InOrder(t.right)
  {
  }

  /** `p` is the parent of `r`, and the subtree at `r` its left or its right one. */
  ghost predicate IsParent(t: Tree, p: Ref, r: Ref) {
    && p in InOrder(t) && p != NULL && p != r && Sub(t, p).Fork? && Sub(t, p).ref == p
    && RootOf(Sub(t, p).left) != RootOf(Sub(t, p).right)
    && if RootOf(Sub(t, p).left) == r then
         Sub(t, r) == Sub(t, p).left && After(t, r) == [p] + InOrder(Sub(t, p).right) + After(t, p)
           && Before(t, r) == Before(t, p)
       else
         RootOf(Sub(t, p).right) == r && Sub(t, r) == Sub(t, p).right && After(t, r) == After(t, p)
         && Before(t, r) == Before(t, p) + InOrder(Sub(t, p).left) + [p]
  }

  lemma ParentLeft(t: Tree, p: Ref, r: Ref)
    requires t.Fork? && IsParent(t.left, p, r) && r in InOrder(t.left) && t.ref !in InOrder(t.left)
    ensures IsParent(t, p, r)
  {
    Members(t);
    hide InOrder;
    if RootOf(Sub(t.left, p).left) == r {
      assert ([p] + InOrder(Sub(t.left, p).right) + After(t.left, p)) + [t.ref] + InOrder(t.right)
        == [p] + InOrder(Sub(t.left, p).right) + (After(t.left, p) + [t.ref] + InOrder(t.right));
    }
  }

  lemma ParentRight(t: Tree, p: Ref, r: Ref)
    requires t.Fork? && IsParent(t.right, p, r) && r in InOrder(t.right) && t.ref !in InOrder(t.right)
    requires forall x :: x in InOrder(t.left) ==> x !in InOrder(t.right)
    ensures IsParent(t, p, r)
  {
    Members(t);
    hide InOrder;
    if RootOf(Sub(t.right, p).left) != r {
      var a, c := InOrder(t.left) + [t.ref], Before(t.right, p);
      assert a + (c + InOrder(Sub(t.right, p).left) + [p]) == (a + c) + InOrder(Sub(t.right, p).left) + [p];
    }
  }

  lemma {:induction false} ParentIs<K>(n: Nodes<K>, parent: Ref, t: Tree, r: Ref)
    requires Linked(n, parent, t) && r in InOrder(t) && r != t.ref && Distinct(InOrder(t))
    ensures r in n && IsParent(t, n[r].parent, r)
    decreases t
  {
    RootApart(t);
    Members(t);
    hide InOrder, Distinct, IsParent, Sub;
    LinkedRefs(n, t.ref, t.left);
    LinkedRefs(n, t.ref, t.right);
    var s := if r in InOrder(t.left) then t.left else t.right;
    if r == s.ref {
      RootMember(s);
      ChildOfRoot(n, parent, t, r);
    } else {
      ParentIs(n, t.ref, s, r);
      if r in InOrder(t.left) { ParentLeft(t, n[r].parent, r); } else { ParentRight(t, n[r].parent, r); }
    }
  }

  lemma RootMember(t: Tree)
    requires t.Fork?
    ensures t.ref in InOrder(t)
  {
  }

  lemma ChildOfRoot<K>(n: Nodes<K>, parent: Ref, t: Tree, r: Ref)
    requires Linked(n, parent, t) && t.Fork? && r != t.ref && Distinct(InOrder(t))
    requires (r == RootOf(t.left) || r == RootOf(t.right)) && r != NULL
    ensures r in n && n[r].parent == t.ref && IsParent(t, t.ref, r)
  {
    RootApart(t);
    LinkedRefs(n, t.ref, t.left);
    LinkedRefs(n, t.ref, t.right);
    if t.left.Fork? { assert t.left.ref in InOrder(t.left); }
    if t.right.Fork? { assert t.right.ref in InOrder(t.right); }
  }

  /** A subtree is replaced: its parent's link and whatever the new subtree needs are set, all else is as before. */
  lemma {:induction false} ReplaceLinked<K>(n: Nodes<K>, m: Nodes<K>, parent: Ref, t: Tree, r: Ref, s: Tree)
    requires Linked(n, parent, t) && Distinct(InOrder(t)) && r in InOrder(t) && r != t.ref
    requires r in n && n[r].parent in n && n[r].parent in m
    requires var p := n[r].parent;
      m[p] == (if n[p].left == r then n[p].(left := RootOf(s)) else n[p].(right := RootOf(s))) && Linked(m, p, s)
    requires forall x :: x in InOrder(t) && x !in InOrder(Sub(t, r)) && x != n[r].parent && x in n ==>
      x in m && m[x] == n[x]
    ensures Linked(m, parent, Replace(t, r, s))
    decreases t
  {
    RootApart(t);
    Members(t);
    hide InOrder, Before, After, Distinct, IsParent, Sub;
    var a := if r in InOrder(t.left) then t.left else t.right;
    var b := if r in InOrder(t.left) then t.right else t.left;
    SubMembers(t, r);
    LinkedRefs(n, t.ref, b);
    LinkedRefs(n, t.ref, a);
    SubLinked(n, t.ref, a, r);
    if r == a.ref {
      RootMember(a);
      ChildOfRoot(n, parent, t, r);
    } else {
      ParentIs(n, t.ref, a, r);
      ParentMember(a, n[r].parent, r);
      ReplaceLinked(n, m, t.ref, a, r, s);
    }
    LinkedFrame(n, m, t.ref, b);
  }

  lemma ParentMember(t: Tree, p: Ref, r: Ref)
    requires IsParent(t, p, r)
    ensures p in InOrder(t)
  {
  }

  /** The subtree lies in one side. */
  lemma SubMembers(t: Tree, r: Ref)
    requires t.Fork? && r in InOrder(t) && r != t.ref && Distinct(InOrder(t))
    ensures r in InOrder(t.left) ==>
      Sub(t, r) == Sub(t.left, r) && forall x :: x in InOrder(Sub(t, r)) ==> x in InOrder(t.left)
    ensures r !in InOrder(t.left) ==>
      Sub(t, r) == Sub(t.right, r) && forall x :: x in InOrder(Sub(t, r)) ==> x in InOrder(t.right)
  {
    RootApart(t);
    if r in InOrder(t.left) { SubIs(t.left, r); } else { SubIs(t.right, r); }
  }

  /** The child of a node is the root of its subtree's half. */
  lemma ChildIs<K>(n: Nodes<K>, parent: Ref, t: Tree, c: Ref, leftSide: bool)
    requires Linked(n, parent, t) && Distinct(InOrder(t)) && c in InOrder(t) && Sub(t, c).Fork?
    requires (if leftSide then Sub(t, c).left else Sub(t, c).right).Fork?
    ensures var h := if leftSide then Sub(t, c).left else Sub(t, c).right;
      h.ref in InOrder(t) && Sub(t, h.ref) == h && |InOrder(h)| < |InOrder(Sub(t, c))|
  {
    var s := Sub(t, c);
    var h := if leftSide then s.left else s.right;
    SubIs(t, c);
    SubLinked(n, parent, t, c);
    RootMember(h);
    assert h.ref in InOrder(s);
    assert h.ref in InOrder(t);
    SegmentDistinct(Before(t, c), InOrder(s), After(t, c));
    RootApart(s);
    if h.ref == t.ref {
      SubLinked(n, parent, t, h.ref);
      TopIsNoChild(t, c, h.ref);
    } else {
      ParentIs(n, parent, t, h.ref);
    }
  }

  lemma SegmentDistinct(a: seq<Ref>, b: seq<Ref>, c: seq<Ref>)
    requires Distinct(a + b + c)
    ensures Distinct(b) && (forall x :: x in b ==> x !in a && x !in c) && forall x :: x in a ==> x !in c
  {
    var l := a + b + c;
    assert forall i :: 0 <= i < |a| ==> l[i] == a[i];
    assert forall i :: 0 <= i < |b| ==> l[|a| + i] == b[i];
    assert forall i :: 0 <= i < |c| ==> l[|a| + |b| + i] == c[i];
  }

  /** The root of the whole tree lies below nobody. */
  lemma TopIsNoChild(t: Tree, c: Ref, r: Ref)
    requires t.Fork? && Distinct(InOrder(t)) && c in InOrder(t) && Sub(t, c).Fork? && Sub(t, c).ref == c
    requires r in InOrder(Sub(t, c)) && r != c
    ensures r != t.ref
  {
    RootApart(t);
    if c != t.ref { SubMembers(t, c); }
  }

  // ---------------------------------------------------------------------------
  // Removing the minimum
  // ---------------------------------------------------------------------------

  function DropMin(t: Tree): Tree
    requires t.Fork?
  {
    if t.left.Leaf? then t.right else t.(left := DropMin(t.left))
  }

  function MinOf(t: Tree): Ref
    requires t.Fork?
  {
    if t.left.Leaf? then t.ref else MinOf(t.left)
  }

  lemma {:induction false} DropMinOrder(t: Tree)
    requires t.Fork?
    ensures InOrder(t) == [MinOf(t)] + InOrder(DropMin(t)) && MinOf(t) in InOrder(t)
  {
    if t.left.Fork? {
      DropMinOrder(t.left);
      assert ([MinOf(t.left)] + InOrder(DropMin(t.left))) + [t.ref] + InOrder(t.right)
        == [MinOf(t.left)] + (InOrder(DropMin(t.left)) + [t.ref] + InOrder(t.right));
    }
  }

  /** The minimum is unhooked: its parent takes its right subtree. */
  ghost predicate Unhooked<K>(n: Nodes<K>, m: Nodes<K>, q: Ref, t: Tree) {
    && q in n && n[q].parent in n && n[q].parent in m
    && m[n[q].parent] == n[n[q].parent].(left := n[q].right)
    && (n[q].right != NULL ==>
        n[q].right in n && n[q].right in m && m[n[q].right] == n[n[q].right].(parent := n[q].parent))
    && forall x :: x in InOrder(t) && x != q && x != n[q].parent && x != n[q].right && x in n ==> x in m && m[x] == n[x]
  }

  lemma {:induction false} DropLinked<K>(n: Nodes<K>, m: Nodes<K>, parent: Ref, t: Tree)
    requires Linked(n, parent, t) && t.Fork? && t.left.Fork? && Distinct(InOrder(t)) && Unhooked(n, m, MinOf(t), t)
    ensures Linked(m, parent, DropMin(t)) && n[MinOf(t)].parent != MinOf(t) && n[MinOf(t)].right != n[MinOf(t)].parent
    ensures n[MinOf(t)].parent in InOrder(t) && (n[MinOf(t)].right != NULL ==> n[MinOf(t)].right in InOrder(t))
    ensures MinOf(t) !in InOrder(DropMin(t)) && MinOf(t) != t.ref && n[MinOf(t)].left == NULL
    decreases t
  {
    var q := MinOf(t);
    RootApart(t);
    Members(t);
    Members(t.left);
    RootApart(t.left);
    DropMinOrder(t.left);
    MembersOfDrop(t);
    LinkedRefs(n, t.ref, t.left);
    LinkedRefs(n, t.ref, t.right);
    hide InOrder, Distinct;
    if t.left.left.Fork? {
      DropLinked(n, m, t.ref, t.left);
      LinkedFrame(n, m, t.ref, t.right);
    } else {
      if t.left.right.Fork? { RootMember(t.left.right); }
      DropLast(n, m, parent, t);
    }
  }

  lemma MembersOfDrop(t: Tree)
    requires t.Fork? && t.left.Fork?
    ensures forall x :: x in InOrder(DropMin(t)) <==>
      x in InOrder(DropMin(t.left)) || x == t.ref || x in InOrder(t.right)
  {
  }

  /** The minimum is the root's left child. */
  lemma DropLast<K>(n: Nodes<K>, m: Nodes<K>, parent: Ref, t: Tree)
    requires Linked(n, parent, t) && t.Fork? && t.left.Fork? && t.left.left.Leaf? && Distinct(InOrder(t))
    requires Unhooked(n, m, t.left.ref, t)
    ensures Linked(m, parent, DropMin(t))
    decreases t
  {
    RootApart(t);
    Members(t);
    Members(t.left);
    RootApart(t.left);
    var q, u := t.left.ref, t.left.right;
    LinkedRefs(n, t.ref, t.right);
    if u.Fork? {
      Members(u);
      RootApart(u);
      LinkedRefs(n, q, u);
    }
    hide InOrder;
    LinkedFrame(n, m, t.ref, t.right);
    if u.Fork? {
      LinkedFrame(n, m, u.ref, u.left);
      LinkedFrame(n, m, u.ref, u.right);
    }
  }

  class SearchTree<K(!new)> {
    /** The comparison, and the values that may be stored. */
    const cmp: (K, K) -> int
    ghost const stored: K -> bool
    var nodes: Nodes<K>
    var root: Ref
    ghost var shape: Tree

    ghost predicate Shaped()
      reads this
    {
      && Linked(nodes, NULL, shape) && root == RootOf(shape) && Distinct(InOrder(shape)) && NULL !in nodes
      && forall r :: r in nodes <==> r in InOrder(shape)
    }

    /** The nodes are linked as a tree, and their values go up from left to right. */
    ghost predicate Valid()
      reads this
    {
      Shaped() && Lawful(cmp, stored) && SortedOn(cmp, nodes, Order()) && AllStored(stored, nodes)
    }

    /** The nodes from left to right. */
    ghost function Order(): seq<Ref>
      reads this
    {
      InOrder(shape)
    }

    constructor (cmp: (K, K) -> int, ghost stored: K -> bool)
      requires Lawful(cmp, stored)
      ensures Valid() && Order() == [] && this.cmp == cmp && this.stored == stored && nodes == map[]
    {
      this.cmp, this.stored, nodes, root, shape := cmp, stored, map[], NULL, Leaf;
    }

    /** The leftmost node of the subtree at `r` of some tree of the nodes. */
    method Leftmost(r: Ref, ghost parent: Ref, ghost t: Tree) returns (m: Ref)
      requires Linked(nodes, parent, t) && Distinct(InOrder(t)) && r in InOrder(t)
      ensures Sub(t, r).Fork? && m == MinOf(Sub(t, r)) && m in nodes && m in InOrder(t)
    {
      SubLinked(nodes, parent, t, r);
      LinkedRefs(nodes, parent, t);
      m := r;
      while nodes[m].left != NULL
        invariant m in InOrder(t) && m in nodes && Sub(t, m).Fork? && Sub(t, m).ref == m
        invariant MinOf(Sub(t, m)) == MinOf(Sub(t, r))
        invariant Linked(nodes, nodes[m].parent, Sub(t, m))
        decreases |InOrder(Sub(t, m))|
      {
        ChildIs(nodes, parent, t, m, true);
        m := nodes[m].left;
        SubLinked(nodes, parent, t, m);
      }
    }

    /** bst_min */
    method Min() returns (m: Ref)
      requires Shaped()
      ensures m == if Order() == [] then NULL else Order()[0]
      ensures m != NULL ==> m in nodes
    {
      if root == NULL {
        if shape.Fork? { RootMember(shape); }
        return NULL;
      }
      RootMember(shape);
      DropMinOrder(shape);
      m := Leftmost(root, NULL, shape);
    }

    /** bst_next: the node that follows in order, or null behind the last. */
    method Next(r: Ref, ghost i: nat) returns (next: Ref)
      requires Shaped() && i < |Order()| && r == Order()[i]
      ensures next == if i + 1 < |Order()| then Order()[i + 1] else NULL
      ensures next != NULL ==> next in nodes
    {
      SubLinked(nodes, NULL, shape, r);
      SubIs(shape, r);
      ghost var s := Sub(shape, r);
      PositionOf(Before(shape, r) + InOrder(s.left), r, InOrder(s.right) + After(shape, r), Order(), i);
      hide Before, After, Distinct;
      if nodes[r].right != NULL {
        ChildIs(nodes, NULL, shape, r, false);
        DropMinOrder(s.right);
        next := Leftmost(nodes[r].right, NULL, shape);
        return;
      }
      assert InOrder(s.right) == [] && [] + After(shape, r) == After(shape, r);
      next := Climb(r, Order()[i + 1..]);
    }

    /** Up until we come from the left. */
    method Climb(r: Ref, ghost rest: seq<Ref>) returns (next: Ref)
      requires Shaped() && r in Order() && After(shape, r) == rest
      ensures next == if rest == [] then NULL else rest[0]
      ensures next != NULL ==> next in nodes
    {
      var iter := r;
      while true
        invariant iter in Order() && After(shape, iter) == rest
        decreases |Order()| - |InOrder(Sub(shape, iter))|
      {
        SubLinked(nodes, NULL, shape, iter);
        if iter != shape.ref { ParentIs(nodes, NULL, shape, iter); }
        var parent := nodes[iter].parent;
        if parent == NULL {
          return NULL;
        }
        SubLinked(nodes, NULL, shape, parent);
        if nodes[parent].left == iter {
          return parent;
        }
        SubIs(shape, parent);
        iter := parent;
      }
    }

    /** The value in a node is changed where it stands, to one that compares as it did. */
    method SetKey(r: Ref, k: K)
      requires Valid() && r in nodes && stored(k) && Alike(cmp, nodes[r].key, k)
      modifies this`nodes
      ensures Valid() && nodes == old(nodes)[r := old(nodes)[r].(key := k)]
    {
      ghost var n := nodes;
      nodes := nodes[r := nodes[r].(key := k)];
      SameLinks(n, nodes, NULL, shape);
      AlikeSorted(cmp, n, nodes, Order(), r);
    }

    // -------------------------------------------------------------------------
    // Finding and adding
    // -------------------------------------------------------------------------

    /** Down from the root, as long as there is a node on the way that `x` could be. */
    method Descend(x: K) returns (found: Ref, last: Ref, ghost a: seq<Ref>, ghost b: seq<Ref>)
      requires Shaped() && AlignedOn(cmp, nodes, Order(), x)
      ensures found != NULL ==> found in nodes && found in Order() && cmp(x, nodes[found].key) == 0
      ensures found == NULL ==> Order() == a + b && Sides(cmp, nodes, x, a, b)
      ensures found == NULL && Order() != [] ==>
        && last in nodes
        && last in Order()
        && cmp(x, nodes[last].key) != 0
        && Sub(shape, last).Fork?
        && Sub(shape, last).ref == last
      ensures found == NULL && Order() != [] && cmp(x, nodes[last].key) < 0 ==>
        nodes[last].left == NULL && Sub(shape, last).Fork? && a == Before(shape, last)
          && b == InOrder(Sub(shape, last)) + After(shape, last)
      ensures found == NULL && Order() != [] && cmp(x, nodes[last].key) > 0 ==>
        nodes[last].right == NULL && Sub(shape, last).Fork? && a == Before(shape, last) + InOrder(Sub(shape, last))
          && b == After(shape, last)
      ensures found == NULL && Order() == [] ==> root == NULL
    {
      found, last, a, b := NULL, NULL, [], [];
      if root == NULL {
        if shape.Fork? { RootMember(shape); }
        return;
      }
      RootMember(shape);
      var node := root;
      AtRoot(cmp, nodes, x, shape);
      while true
        invariant node in nodes && node in Order()
        invariant Sides(cmp, nodes, x, Before(shape, node), After(shape, node))
        decreases |InOrder(Sub(shape, node))|
      {
        hide InOrder, Before, After, Distinct, AlignedOn, Sides, Sub;
        var c := cmp(x, nodes[node].key);
        SubLinked(nodes, NULL, shape, node);
        if c == 0 {
          return node, NULL, a, b;
        }
        ghost var s := Sub(shape, node);
        SubIs(shape, node);
        TurnSides(cmp, nodes, shape, x, node);
        var next := if c < 0 then nodes[node].left else nodes[node].right;
        if next == NULL {
          PathEnds(s, Before(shape, node), After(shape, node));
          a := if c < 0 then Before(shape, node) else Before(shape, node) + InOrder(s);
          b := if c < 0 then InOrder(s) + After(shape, node) else After(shape, node);
          return NULL, node, a, b;
        }
        StepDown(cmp, nodes, shape, x, node, next);
        node := next;
      }
    }

    /** bst_find: an element equal to `x`, if there is one. */
    method Find(x: K) returns (r: Ref)
      requires Valid()
      ensures r != NULL ==> r in Order() && r in nodes && cmp(x, nodes[r].key) == 0
      ensures r == NULL ==> forall e :: e in Order() && e in nodes ==> cmp(x, nodes[e].key) != 0
    {
      var last;
      ghost var a, b;
      LawfulAligned(cmp, stored, nodes, Order(), x);
      r, last, a, b := Descend(x);
    }

    /** A leaf is hooked below a node, or becomes the root. */
    method NewLeaf(fresh': Ref, x: K, last: Ref, leftSide: bool, ghost a: seq<Ref>, ghost b: seq<Ref>)
      requires Shaped() && Order() == a + b && fresh' != NULL && fresh' !in nodes
      requires if last == NULL then shape.Leaf? else
        last in nodes && last in Order() && Sub(shape, last).Fork? && Sub(shape, last).ref == last
      requires last != NULL ==> (if leftSide then nodes[last].left else nodes[last].right) == NULL
      requires last != NULL && leftSide ==>
        a == Before(shape, last) && b == InOrder(Sub(shape, last)) + After(shape, last)
      requires last != NULL && !leftSide ==>
        a == Before(shape, last) + InOrder(Sub(shape, last)) && b == After(shape, last)
      modifies this
      ensures Shaped() && Order() == a + [fresh'] + b
      ensures nodes.Keys == old(nodes).Keys + {fresh'} && nodes[fresh'].key == x
      ensures SameKeys(old(nodes), nodes, old(Order()))
    {
      ghost var n := nodes;
      LinkedRefs(n, NULL, shape);
      nodes := nodes[fresh' := Node(last, NULL, NULL, x)];
      if last == NULL {
        root := fresh';
        shape := Fork(Leaf, fresh', Leaf);
        AttachFirst(a, b, fresh');
        return;
      }
      nodes := nodes[last := if leftSide then nodes[last].(left := fresh') else nodes[last].(right := fresh')];
      ghost var s := Hung(Sub(shape, last), fresh', leftSide);
      HungLinked(n, nodes, shape, last, fresh', leftSide);
      HungOrder(shape, last, fresh', leftSide, a, b);
      NewDistinct(a, fresh', b);
      shape := Replace(shape, last, s);
    }

    /** sbst_add: only where no element is equal; the memory for the node may be missing. */
    method Add(fresh': Ref, x: K) returns (code: Code, ghost a: seq<Ref>, ghost b: seq<Ref>)
      requires Valid() && stored(x) && fresh' !in nodes
      modifies this
      ensures Valid()
      ensures code.AlreadyAllocated? <==> exists e ::
        e in old(Order()) && e in old(nodes) && cmp(x, old(nodes)[e].key) == 0
      ensures !code.AlreadyAllocated? ==> (code.Success? <==> fresh' != NULL)
      ensures !code.Success? ==> nodes == old(nodes) && Order() == old(Order())
      ensures code.Success? ==> old(Order()) == a + b && Sides(cmp, old(nodes), x, a, b) && Order() == a + [fresh'] + b
      ensures code.Success? ==>
        nodes.Keys == old(nodes).Keys + {fresh'} && nodes[fresh'].key == x && SameKeys(old(nodes), nodes, old(Order()))
    {
      hide Lawful, SortedOn, AllStored, AlignedOn, Distinct, InOrder, Linked, Sides;
      var found, last;
      ghost var n := nodes;
      LawfulAligned(cmp, stored, nodes, Order(), x);
      found, last, a, b := Descend(x);
      if found != NULL {
        return AlreadyAllocated, a, b;
      }
      Nowhere(cmp, nodes, x, a, b);
      if fresh' == NULL {
        return Unknown, a, b;
      }
      var leftSide := root != NULL && cmp(x, nodes[last].key) < 0;
      if root == NULL {
        if shape.Fork? { RootMember(shape); }
        NewLeaf(fresh', x, NULL, false, a, b);
      } else {
        RootMember(shape);
        NewLeaf(fresh', x, last, leftSide, a, b);
      }
      AddedSorted(cmp, stored, n, nodes, a, fresh', b);
      return Success, a, b;
    }

    // -------------------------------------------------------------------------
    // Removing
    // -------------------------------------------------------------------------

    /** A detached subtree is turned so that its minimum is its root, without a left child. */
    method PickMinimum(r: Ref, ghost t: Tree) returns (q: Ref)
      requires Linked(nodes, NULL, t) && t.Fork? && r == t.ref && Distinct(InOrder(t))
      modifies this`nodes
      ensures q == MinOf(t) && Linked(nodes, NULL, Fork(Leaf, q, DropMin(t)))
      ensures nodes.Keys == old(nodes).Keys && SameOutside(old(nodes), nodes, InOrder(t))
      ensures SameKeys(old(nodes), nodes, InOrder(t))
    {
      LinkedRefs(nodes, NULL, t);
      if nodes[r].left == NULL {
        return r;
      }
      RootMember(t);
      q := Leftmost(r, NULL, t);
      ghost var n := nodes;
      MinAt(n, NULL, t);
      hide *;
      var parent, right := nodes[q].parent, nodes[q].right;
      nodes := nodes[q := nodes[q].(parent := NULL, right := r)];
      nodes := nodes[r := nodes[r].(parent := q)];
      nodes := nodes[parent := nodes[parent].(left := right)];
      if right != NULL {
        nodes := nodes[right := nodes[right].(parent := parent)];
      }
      PickedLinked(n, t);
      PickedOutside(n, t);
    }

    /** What is to stand in the place of a node with a right side: the minimum of that side, over both. */
    method SubstituteRight(r: Ref, ghost s: Tree) returns (sub: Ref)
      requires Apart(nodes, s, r) && s.right.Fork?
      modifies this`nodes
      ensures sub == MinOf(s.right) && Linked(nodes, NULL, Fork(s.left, sub, DropMin(s.right)))
      ensures SameOutside(old(nodes), nodes, InOrder(s.left) + InOrder(s.right))
      ensures r !in InOrder(s.left) + InOrder(s.right)
      ensures SameKeys(old(nodes), nodes, InOrder(s.left) + InOrder(s.right)) && nodes.Keys == old(nodes).Keys
    {
      ghost var n := nodes;
      RightBegins(n, s, r);
      hide *;
      nodes := nodes[nodes[r].right := nodes[nodes[r].right].(parent := NULL)];
      ghost var n0 := nodes;
      sub := PickMinimum(nodes[r].right, s.right);
      ghost var n1 := nodes;
      RightPicked(n, n0, n1, s, r);
      nodes := nodes[sub := nodes[sub].(left := nodes[r].left)];
      if nodes[sub].left != NULL {
        nodes := nodes[nodes[sub].left := nodes[nodes[sub].left].(parent := sub)];
      }
      StitchedNow(n1, nodes, sub, RootOf(s.left));
      Stitch(n, n1, nodes, s, r);
      StitchOutside(n, n1, nodes, s, r);
    }

    /** What is to stand in the place of a node: the minimum of its right side over the rest, or its left side. */
    method Substitute(r: Ref) returns (sub: Ref, ghost u: Tree)
      requires Shaped() && r in Order() && r in nodes
      modifies this`nodes
      ensures Sub(shape, r).Fork? && InOrder(u) == InOrder(Sub(shape, r).left) + InOrder(Sub(shape, r).right)
      ensures Linked(nodes, NULL, u) && sub == RootOf(u)
      ensures nodes.Keys == old(nodes).Keys && SameKeys(old(nodes), nodes, Order())
      ensures SameOutside(old(nodes), nodes, InOrder(u)) && r !in InOrder(u)
    {
      ghost var n, s := nodes, Sub(shape, r);
      SubApart(n, shape, r);
      Sides2(n, s, r);
      hide *;
      if nodes[r].right != NULL {
        sub := SubstituteRight(r, s);
        u := Fork(s.left, sub, DropMin(s.right));
      } else if nodes[r].left != NULL {
        nodes := nodes[nodes[r].left := nodes[nodes[r].left].(parent := NULL)];
        sub, u := nodes[r].left, s.left;
      } else {
        sub, u := NULL, Leaf;
        EmptyTree(n);
      }
      KeysEverywhere(n, nodes, InOrder(u), Order());
    }

    /** sbst_remove_node: exactly this element leaves the order. */
    method RemoveNode(r: Ref, ghost i: nat)
      requires Valid() && i < |Order()| && Order()[i] == r
      modifies this
      ensures Valid() && Order() == old(Order())[..i] + old(Order())[i + 1..]
      ensures nodes.Keys == old(nodes).Keys - {r} && SameKeys(old(nodes), nodes, Order())
    {
      hide Lawful, SortedOn, AllStored, Distinct, InOrder, Linked;
      ghost var n, o := nodes, Order();
      UnhookNode(r, i);
      RemovedSorted(cmp, stored, n, nodes, o, i);
    }

    /** The links of a removal. */
    method UnhookNode(r: Ref, ghost i: nat)
      requires Shaped() && i < |Order()| && Order()[i] == r
      modifies this
      ensures Shaped() && Order() == old(Order())[..i] + old(Order())[i + 1..]
      ensures nodes.Keys == old(nodes).Keys - {r} && SameKeys(old(nodes), nodes, Order())
    {
      hide InOrder, Linked, Distinct, Sub, Replace, Removed, Ready, SameOutside, SameKeys;
      ghost var n, t := nodes, shape;
      var sub;
      ghost var u;
      sub, u := Substitute(r);
      ghost var n1 := nodes;
      MakeReady(n, n1, t, r, u);
      Hanging(n, n1, t, r, u);
      Unlinked(n, n1, t, r, u, i);
      var parent := nodes[r].parent;
      if parent != NULL {
        if sub != NULL {
          nodes := nodes[sub := nodes[sub].(parent := parent)];
        }
        if nodes[parent].left == r {
          nodes := nodes[parent := nodes[parent].(left := sub)];
        } else {
          nodes := nodes[parent := nodes[parent].(right := sub)];
        }
      } else {
        root := sub;
      }
      nodes := nodes - {r};
      shape := Replace(t, r, u);
      RemovedIs(n1, nodes, r, RootOf(u), parent);
    }
  }

  /** The two sides below a node are trees of their own. */
  ghost predicate Apart<K>(n: Nodes<K>, s: Tree, r: Ref) {
    && s.Fork? && s.ref == r && r in n && r != NULL
    && Linked(n, r, s.left) && Linked(n, r, s.right) && Distinct(InOrder(s.left)) && Distinct(InOrder(s.right))
    && n[r].left == RootOf(s.left) && n[r].right == RootOf(s.right) && r !in InOrder(s.left) && r !in InOrder(s.right)
    && (forall x :: x in InOrder(s.left) ==> x !in InOrder(s.right))
  }

  lemma SubApart<K>(n: Nodes<K>, t: Tree, r: Ref)
    requires Linked(n, NULL, t) && Distinct(InOrder(t)) && r in InOrder(t) && r in n
    ensures Apart(n, Sub(t, r), r)
    ensures forall e :: e in InOrder(t) ==> e in n && e != NULL
  {
    LinkedRefs(n, NULL, t);
    SubLinked(n, NULL, t, r);
    SubIs(t, r);
    SegmentDistinct(Before(t, r), InOrder(Sub(t, r)), After(t, r));
    RootApart(Sub(t, r));
  }

  /** A side is detached. */
  lemma Detached<K>(n: Nodes<K>, r: Ref, h: Tree)
    requires Linked(n, r, h) && Distinct(InOrder(h)) && h.Fork?
    ensures h.ref in n && h.ref in InOrder(h) && h.ref != NULL
    ensures var m := n[h.ref := n[h.ref].(parent := NULL)];
      Linked(m, NULL, h) && SameOutside(n, m, InOrder(h)) && SameKeys(n, m, InOrder(h))
  {
    RootMember(h);
    LinkedRefs(n, r, h);
    Reparent(n, r, h, NULL);
  }

  lemma StitchOrder(s: Tree)
    requires s.Fork? && s.right.Fork?
    ensures InOrder(Fork(s.left, MinOf(s.right), DropMin(s.right))) == InOrder(s.left) + InOrder(s.right)
    ensures InOrder(s.right) == [MinOf(s.right)] + InOrder(DropMin(s.right))
    ensures MinOf(s.right) in InOrder(s.right)
  {
    DropMinOrder(s.right);
    assert InOrder(s.left) + ([MinOf(s.right)] + InOrder(DropMin(s.right)))
      == InOrder(s.left) + [MinOf(s.right)] + InOrder(DropMin(s.right));
  }

  lemma HeadApart(q: Ref, l: seq<Ref>)
    requires Distinct([q] + l)
    ensures q !in l
  {
    var k := [q] + l;
    assert forall i :: 0 <= i < |l| ==> l[i] == k[i + 1] && k[0] == q;
  }

  /** The left side is hung under the minimum of the right. */
  ghost predicate Stitched<K>(n: Nodes<K>, m: Nodes<K>, q: Ref, left: Ref) {
    && q in n && q != left
    && m == if left == NULL then n[q := n[q].(left := NULL)]
            else if left in n then n[q := n[q].(left := left)][left := n[left].(parent := q)] else n
  }

  lemma StitchedNow<K>(n: Nodes<K>, m: Nodes<K>, q: Ref, left: Ref)
    requires q in n && q != left && (left != NULL ==> left in n)
    requires m == if left == NULL then n[q := n[q].(left := NULL)]
      else n[q := n[q].(left := left)][left := n[left].(parent := q)]
    ensures Stitched(n, m, q, left)
  {
  }

  /** What a removed node's two sides give. */
  lemma Sides2<K>(n: Nodes<K>, s: Tree, r: Ref)
    requires Apart(n, s, r)
    ensures s.Fork? && n[r].right == RootOf(s.right) && n[r].left == RootOf(s.left) && r in n
    ensures s.right.Fork? <==> n[r].right != NULL
    ensures s.left.Fork? <==> n[r].left != NULL
    ensures s.right.Fork? ==>
      InOrder(Fork(s.left, MinOf(s.right), DropMin(s.right))) == InOrder(s.left) + InOrder(s.right)
    ensures s.left.Fork? ==> s.left.ref in n && s.left.ref != r
    ensures s.left.Fork? ==> var m := n[s.left.ref := n[s.left.ref].(parent := NULL)];
      m.Keys == n.Keys && m[r] == n[r] && Linked(m, NULL, s.left) && SameOutside(n, m, InOrder(s.left))
        && SameKeys(n, m, InOrder(s.left))
    ensures s.right.Leaf? ==> InOrder(s.left) == InOrder(s.left) + InOrder(s.right)
    ensures r !in InOrder(s.left)
  {
    LinkedRefs(n, r, s.left);
    LinkedRefs(n, r, s.right);
    if s.right.Fork? { StitchOrder(s); }
    if s.left.Fork? { Detached(n, r, s.left); }
    if s.right.Leaf? { NoRight(n, s, r); }
  }

  lemma EmptyTree<K>(n: Nodes<K>)
    ensures Linked(n, NULL, Leaf) && RootOf(Leaf) == NULL && InOrder(Leaf) == [] && SameOutside(n, n, [])
    ensures SameKeys(n, n, [])
  {
  }

  lemma RightBegins<K>(n: Nodes<K>, s: Tree, r: Ref)
    requires Apart(n, s, r) && s.right.Fork?
    ensures r in n && n[r].right == s.right.ref && n[r].left == RootOf(s.left) && s.right.ref in n && s.right.ref != r
    ensures s.right.ref != NULL
    ensures Distinct(InOrder(s.right))
    ensures var m := n[s.right.ref := n[s.right.ref].(parent := NULL)];
      Linked(m, NULL, s.right) && SameOutside(n, m, InOrder(s.right)) && SameKeys(n, m, InOrder(s.right))
  {
    Detached(n, r, s.right);
  }

  lemma RightPicked<K>(n: Nodes<K>, n0: Nodes<K>, n1: Nodes<K>, s: Tree, r: Ref)
    requires Apart(n, s, r) && s.right.Fork? && n0.Keys == n.Keys && n1.Keys == n0.Keys
    requires SameOutside(n, n0, InOrder(s.right)) && SameKeys(n, n0, InOrder(s.right))
    requires SameOutside(n0, n1, InOrder(s.right)) && SameKeys(n0, n1, InOrder(s.right))
    ensures SameOutside(n, n1, InOrder(s.right)) && SameKeys(n, n1, InOrder(s.right)) && n1[r] == n[r]
    ensures var q, left := MinOf(s.right), RootOf(s.left);
      q in n1 && q != left && q != r && (left != NULL ==> left in n1)
  {
    StitchOrder(s);
    LinkedRefs(n, r, s.right);
    LinkedRefs(n, r, s.left);
    if s.left.Fork? { RootMember(s.left); }
    hide InOrder, MinOf, Linked, Distinct;
  }

  lemma Stitch<K>(n: Nodes<K>, n1: Nodes<K>, m: Nodes<K>, s: Tree, r: Ref)
    requires Apart(n, s, r) && s.right.Fork? && n1.Keys == n.Keys
    requires Linked(n1, NULL, Fork(Leaf, MinOf(s.right), DropMin(s.right)))
    requires SameOutside(n, n1, InOrder(s.right)) && SameKeys(n, n1, InOrder(s.right))
    requires Stitched(n1, m, MinOf(s.right), RootOf(s.left))
    ensures Linked(m, NULL, Fork(s.left, MinOf(s.right), DropMin(s.right)))
  {
    var q, d := MinOf(s.right), DropMin(s.right);
    StitchOrder(s);
    HeadApart(q, InOrder(d));
    LinkedRefs(n, r, s.left);
    if s.left.Fork? {
      RootMember(s.left);
      Reparent(n, r, s.left, q);
    }
    hide InOrder, Distinct, MinOf, DropMin;
    var x := RootOf(s.left);
    assert Linked(n1, q, d);
    LinkedFrame(n1, m, q, d);
    if s.left.Fork? {
      LinkedFrame(n[x := n[x].(parent := q)], m, q, s.left);
    }
  }

  lemma StitchOutside<K>(n: Nodes<K>, n1: Nodes<K>, m: Nodes<K>, s: Tree, r: Ref)
    requires Apart(n, s, r) && s.right.Fork? && n1.Keys == n.Keys
    requires SameOutside(n, n1, InOrder(s.right)) && SameKeys(n, n1, InOrder(s.right))
    requires Stitched(n1, m, MinOf(s.right), RootOf(s.left))
    ensures var l := InOrder(s.left) + InOrder(s.right);
      SameOutside(n, m, l) && SameKeys(n, m, l) && r !in l && m.Keys == n.Keys
  {
    StitchOrder(s);
    LinkedRefs(n, r, s.left);
    LinkedRefs(n, r, s.right);
    if s.left.Fork? { RootMember(s.left); }
    hide *;
    StitchChanges(n, n1, m, InOrder(s.left), InOrder(s.right), MinOf(s.right), RootOf(s.left));
  }

  lemma StitchChanges<K>(n: Nodes<K>, n1: Nodes<K>, m: Nodes<K>, a: seq<Ref>, b: seq<Ref>, q: Ref, left: Ref)
    requires n1.Keys == n.Keys && SameOutside(n, n1, b) && SameKeys(n, n1, b) && Stitched(n1, m, q, left)
    requires q in b && (forall x :: x in a ==> x in n) && (left == NULL || left in a)
    ensures SameOutside(n, m, a + b) && SameKeys(n, m, a + b) && m.Keys == n.Keys
  {
    assert forall x :: x in n1 ==> x in m && m[x].key == n1[x].key && (x != q && x != left ==> m[x] == n1[x]);
    assert m.Keys == n.Keys;
    assert forall x :: x in a ==> x in a + b;
    assert forall x :: x in b ==> x in a + b;
    hide Stitched;
    assert SameOutside(n, m, a + b);
    forall e | e in a + b
      ensures e in n && e in m && m[e].key == n[e].key
    {
      if e in b {} else {}
    }
  }

  lemma KeysEverywhere<K>(n: Nodes<K>, m: Nodes<K>, l: seq<Ref>, all: seq<Ref>)
    requires SameOutside(n, m, l) && SameKeys(n, m, l) && forall e :: e in all ==> e in n
    ensures SameKeys(n, m, all)
  {
  }

  /** A node without a right side, or with neither. */
  lemma NoRight<K>(n: Nodes<K>, s: Tree, r: Ref)
    requires Apart(n, s, r) && s.right.Leaf?
    ensures InOrder(s.left) == InOrder(s.left) + InOrder(s.right) && r !in InOrder(s.left)
    ensures s.left.Leaf? ==> InOrder(s.left) == []
  {
  }

  /** The nodes when `r` is gone and the root of `u` hangs under `parent` in its stead. */
  ghost function Removed<K>(n: Nodes<K>, r: Ref, sub: Ref, parent: Ref): Nodes<K>
    requires parent != NULL ==> parent in n && (sub != NULL ==> sub in n)
  {
    if parent == NULL then n - {r}
    else
      var n1 := if sub != NULL then n[sub := n[sub].(parent := parent)] else n;
      n1[parent := if n1[parent].left == r then n1[parent].(left := sub) else n1[parent].(right := sub)] - {r}
  }

  /** What is known once the substitute is there, and still `r` too. */
  ghost predicate Ready<K>(n: Nodes<K>, n1: Nodes<K>, t: Tree, r: Ref, u: Tree) {
    && Linked(n, NULL, t) && Distinct(InOrder(t)) && r in InOrder(t) && r in n && n1.Keys == n.Keys
    && Sub(t, r).Fork? && Sub(t, r).ref == r && InOrder(u) == InOrder(Sub(t, r).left) + InOrder(Sub(t, r).right)
    && Linked(n1, NULL, u) && SameOutside(n, n1, InOrder(u)) && r !in InOrder(u)
    && SameKeys(n, n1, InOrder(t)) && (forall x :: x in n <==> x in InOrder(t)) && NULL !in n
  }

  lemma MakeReady<K>(n: Nodes<K>, n1: Nodes<K>, t: Tree, r: Ref, u: Tree)
    requires Linked(n, NULL, t) && Distinct(InOrder(t)) && r in InOrder(t) && n1.Keys == n.Keys
    requires Sub(t, r).Fork? && InOrder(u) == InOrder(Sub(t, r).left) + InOrder(Sub(t, r).right)
    requires Linked(n1, NULL, u) && SameOutside(n, n1, InOrder(u)) && r !in InOrder(u)
    requires SameKeys(n, n1, InOrder(t)) && (forall x :: x in n <==> x in InOrder(t)) && NULL !in n
    ensures Ready(n, n1, t, r, u)
  {
    SubLinked(n, NULL, t, r);
  }

  lemma Hanging<K>(n: Nodes<K>, n1: Nodes<K>, t: Tree, r: Ref, u: Tree)
    requires Ready(n, n1, t, r, u)
    ensures r in n1 && n1[r] == n[r] && Distinct(InOrder(u)) && (u.Fork? ==> u.ref in n1 && u.ref != NULL)
    ensures n[r].parent == NULL <==> r == t.ref
    ensures n[r].parent != NULL ==>
      n[r].parent in n && n[r].parent !in InOrder(u) && n[r].parent != r && n[r].parent != RootOf(u)
    ensures n[r].parent != NULL ==> n1[n[r].parent] == n[n[r].parent]
  {
    SubIs(t, r);
    SegmentDistinct(Before(t, r), InOrder(Sub(t, r)), After(t, r));
    RootApart(Sub(t, r));
    Together(InOrder(Sub(t, r).left), InOrder(Sub(t, r).right));
    LinkedRefs(n1, NULL, u);
    if u.Fork? { RootMember(u); }
    if r != t.ref { ParentOutside(n, t, r); }
  }

  lemma Together(a: seq<Ref>, b: seq<Ref>)
    requires Distinct(a) && Distinct(b) && forall x :: x in a ==> x !in b
    ensures Distinct(a + b)
  {
    var l := a + b;
    forall i, j | 0 <= i < j < |l|
      ensures l[i] != l[j]
    {
      assert l[i] == (if i < |a| then a[i] else b[i - |a|]) && l[j] == (if j < |a| then a[j] else b[j - |a|]);
      if i < |a| <= j { assert l[i] in a && l[j] in b; }
    }
  }

  lemma RemovedLinked<K>(n: Nodes<K>, n1: Nodes<K>, t: Tree, r: Ref, u: Tree)
    requires Ready(n, n1, t, r, u)
    requires n[r].parent != NULL ==> n[r].parent in n1 && (RootOf(u) != NULL ==> RootOf(u) in n1)
    ensures Linked(Removed(n1, r, RootOf(u), n[r].parent), NULL, Replace(t, r, u))
    ensures n[r].parent != NULL ==> RootOf(Replace(t, r, u)) == RootOf(t)
    ensures n[r].parent == NULL ==> RootOf(Replace(t, r, u)) == RootOf(u)
  {
    Hanging(n, n1, t, r, u);
    var p, m := n[r].parent, Removed(n1, r, RootOf(u), n[r].parent);
    LinkedRefs(n1, NULL, u);
    if r == t.ref {
      LinkedFrame(n1, m, NULL, u);
    } else {
      RemovedBelow(n, n1, t, r, u);
      ParentOutside(n, t, r);
      SubIs(t, r);
      RemovedFrame(n, n1, t, r, u);
      ReplaceLinked(n, m, NULL, t, r, u);
    }
  }

  lemma RemovedFrame<K>(n: Nodes<K>, n1: Nodes<K>, t: Tree, r: Ref, u: Tree)
    requires Ready(n, n1, t, r, u) && n[r].parent != NULL && n[r].parent in n1
    requires (RootOf(u) != NULL ==> RootOf(u) in n1)
    ensures var m := Removed(n1, r, RootOf(u), n[r].parent);
      forall x :: x in InOrder(t) && x !in InOrder(Sub(t, r)) && x != n[r].parent && x in n ==> x in m && m[x] == n[x]
  {
    var s := Sub(t, r);
    if u.Fork? { RootMember(u); }
    assert r in InOrder(s) && forall x :: x in InOrder(u) ==> x in InOrder(s);
    hide InOrder;
  }

  lemma RemovedBelow<K>(n: Nodes<K>, n1: Nodes<K>, t: Tree, r: Ref, u: Tree)
    requires Ready(n, n1, t, r, u) && n[r].parent != NULL && n[r].parent in n1
    requires (RootOf(u) != NULL ==> RootOf(u) in n1)
    ensures Linked(Removed(n1, r, RootOf(u), n[r].parent), n[r].parent, u)
  {
    Hanging(n, n1, t, r, u);
    var p, m := n[r].parent, Removed(n1, r, RootOf(u), n[r].parent);
    if u.Fork? {
      Reparent(n1, NULL, u, p);
      LinkedRefs(n1, NULL, u);
      hide InOrder;
      LinkedFrame(n1[u.ref := n1[u.ref].(parent := p)], m, p, u);
    }
  }

  /** All there is to know of the nodes without `r`. */
  lemma Unlinked<K>(n: Nodes<K>, n1: Nodes<K>, t: Tree, r: Ref, u: Tree, i: nat)
    requires Ready(n, n1, t, r, u) && i < |InOrder(t)| && InOrder(t)[i] == r
    requires n[r].parent != NULL ==> n[r].parent in n1 && (RootOf(u) != NULL ==> RootOf(u) in n1)
    ensures Linked(Removed(n1, r, RootOf(u), n[r].parent), NULL, Replace(t, r, u))
    ensures RootOf(Replace(t, r, u)) == if n[r].parent != NULL then RootOf(t) else RootOf(u)
    ensures InOrder(Replace(t, r, u)) == InOrder(t)[..i] + InOrder(t)[i + 1..] && Distinct(InOrder(Replace(t, r, u)))
    ensures var m := Removed(n1, r, RootOf(u), n[r].parent);
      m.Keys == n.Keys - {r} && SameKeys(n, m, InOrder(Replace(t, r, u))) && NULL !in m
      && forall x :: x in m <==> x in InOrder(Replace(t, r, u))
  {
    RemovedLinked(n, n1, t, r, u);
    RemovedOrder(n, n1, t, r, u, i);
    RemovedKeys(n, n1, t, r, u, i);
  }

  lemma RemovedIs<K>(n: Nodes<K>, m: Nodes<K>, r: Ref, sub: Ref, parent: Ref)
    requires parent != NULL ==> parent in n && (sub != NULL ==> sub in n)
    requires m == if parent == NULL then n - {r}
      else var n1 := if sub != NULL then n[sub := n[sub].(parent := parent)] else n;
        n1[parent := if n1[parent].left == r then n1[parent].(left := sub) else n1[parent].(right := sub)] - {r}
    ensures m == Removed(n, r, sub, parent)
  {
  }

  lemma RemovedKeys<K>(n: Nodes<K>, n1: Nodes<K>, t: Tree, r: Ref, u: Tree, i: nat)
    requires Ready(n, n1, t, r, u) && i < |InOrder(t)| && InOrder(t)[i] == r
    requires n[r].parent != NULL ==> n[r].parent in n1 && (RootOf(u) != NULL ==> RootOf(u) in n1)
    ensures var m := Removed(n1, r, RootOf(u), n[r].parent);
      m.Keys == n.Keys - {r} && SameKeys(n, m, InOrder(Replace(t, r, u))) && NULL !in m
      && forall x :: x in m <==> x in InOrder(Replace(t, r, u))
  {
    RemovedOrder(n, n1, t, r, u, i);
    RemovedRaw(n1, r, RootOf(u), n[r].parent);
    hide InOrder, Linked, Distinct, Sub, Replace, Removed;
  }

  lemma RemovedRaw<K>(n: Nodes<K>, r: Ref, sub: Ref, parent: Ref)
    requires parent != NULL ==> parent in n && (sub != NULL ==> sub in n)
    ensures Removed(n, r, sub, parent).Keys == n.Keys - {r}
    ensures forall x :: x in Removed(n, r, sub, parent) ==> x in n && Removed(n, r, sub, parent)[x].key == n[x].key
  {
  }

  lemma RemovedOrder<K>(n: Nodes<K>, n1: Nodes<K>, t: Tree, r: Ref, u: Tree, i: nat)
    requires Ready(n, n1, t, r, u) && i < |InOrder(t)| && InOrder(t)[i] == r
    ensures InOrder(Replace(t, r, u)) == InOrder(t)[..i] + InOrder(t)[i + 1..]
    ensures Distinct(InOrder(Replace(t, r, u)))
    ensures forall x :: x in InOrder(Replace(t, r, u)) <==> x in InOrder(t) && x != r
  {
    SubIs(t, r);
    ReplaceOrder(t, r, u);
    OrderAt(Sub(t, r));
    hide *;
    CutOut(InOrder(t), Before(t, r), InOrder(Sub(t, r).left), r, InOrder(Sub(t, r).right), After(t, r), i);
  }

  lemma CutOut(l: seq<Ref>, a: seq<Ref>, x1: seq<Ref>, r: Ref, x2: seq<Ref>, b: seq<Ref>, i: nat)
    requires l == a + (x1 + [r] + x2) + b && Distinct(l) && i < |l| && l[i] == r
    ensures a + (x1 + x2) + b == l[..i] + l[i + 1..]
    ensures Distinct(l[..i] + l[i + 1..]) && forall x :: x in l[..i] + l[i + 1..] <==> x in l && x != r
  {
    assert l[|a| + |x1|] == r;
    assert i == |a| + |x1|;
    assert l == l[..i] + [r] + l[i + 1..];
    assert l[..i] == a + x1 && l[i + 1..] == x2 + b;
    assert a + (x1 + x2) + b == (a + x1) + (x2 + b);
    var k := l[..i] + l[i + 1..];
    forall j | 0 <= j < |k|
      ensures k[j] == l[if j < i then j else j + 1]
    {
    }
  }

  /** The nodes after the minimum of the tree at `r` was made its root. */
  ghost function Picked<K>(n: Nodes<K>, q: Ref, r: Ref): Nodes<K>
    requires q in n && r in n && n[q].parent in n && (n[q].right != NULL ==> n[q].right in n)
  {
    var parent, right := n[q].parent, n[q].right;
    var n1 := n[q := n[q].(parent := NULL, right := r)];
    var n2 := n1[r := n1[r].(parent := q)];
    var n3 := n2[parent := n2[parent].(left := right)];
    if right == NULL then n3 else n3[right := n3[right].(parent := parent)]
  }

  /** Where the minimum hangs, when it is not the root. */
  ghost predicate MinHangs<K>(n: Nodes<K>, t: Tree) {
    && t.Fork? && MinOf(t) in n && t.ref in n && t.ref in InOrder(t) && MinOf(t) != t.ref && MinOf(t) in InOrder(t)
    && n[MinOf(t)].parent in n && n[MinOf(t)].parent in InOrder(t) && n[MinOf(t)].parent != MinOf(t)
        && n[MinOf(t)].left == NULL
    && (n[MinOf(t)].right != NULL ==>
        n[MinOf(t)].right in n && n[MinOf(t)].right in InOrder(t) && n[MinOf(t)].right != n[MinOf(t)].parent
        && n[MinOf(t)].right != MinOf(t) && n[MinOf(t)].right != t.ref)
  }

  lemma {:induction false} MinAt<K>(n: Nodes<K>, parent: Ref, t: Tree)
    requires Linked(n, parent, t) && t.Fork? && t.left.Fork? && Distinct(InOrder(t))
    ensures MinHangs(n, t)
    decreases t
  {
    RootApart(t);
    Members(t);
    Members(t.left);
    RootApart(t.left);
    DropMinOrder(t.left);
    LinkedRefs(n, t.ref, t.left);
    hide InOrder, Distinct;
    if t.left.left.Fork? {
      MinAt(n, t.ref, t.left);
    } else if t.left.right.Fork? {
      RootMember(t.left.right);
    }
  }

  lemma PickedLinked<K>(n: Nodes<K>, t: Tree)
    requires Linked(n, NULL, t) && t.Fork? && t.left.Fork? && Distinct(InOrder(t)) && MinHangs(n, t)
    ensures Linked(Picked(n, MinOf(t), t.ref), NULL, Fork(Leaf, MinOf(t), DropMin(t)))
  {
    var q := MinOf(t);
    var m := Picked(n, q, t.ref);
    Reparent(n, NULL, t, q);
    LinkedRefs(n, NULL, t);
    hide InOrder, Distinct, MinOf;
    var n1 := n[t.ref := n[t.ref].(parent := q)];
    assert Unhooked(n1, m, q, t);
    DropLinked(n1, m, q, t);
  }

  lemma PickedOutside<K>(n: Nodes<K>, t: Tree)
    requires MinHangs(n, t) && forall r :: r in InOrder(t) ==> r in n && r != NULL
    ensures Picked(n, MinOf(t), t.ref).Keys == n.Keys
    ensures SameOutside(n, Picked(n, MinOf(t), t.ref), InOrder(t))
    ensures SameKeys(n, Picked(n, MinOf(t), t.ref), InOrder(t))
  {
    hide InOrder, MinOf;
  }

  ghost predicate SameKeys<K>(n: Nodes<K>, m: Nodes<K>, l: seq<Ref>) {
    forall e :: e in l ==> e in n && e in m && m[e].key == n[e].key
  }

  ghost predicate SameOutside<K>(n: Nodes<K>, m: Nodes<K>, l: seq<Ref>) {
    forall e :: e in n && e !in l ==> e in m && m[e] == n[e]
  }

  lemma Nowhere<K(!new)>(cmp: (K, K) -> int, n: Nodes<K>, x: K, a: seq<Ref>, b: seq<Ref>)
    requires Sides(cmp, n, x, a, b)
    ensures forall e :: e in a + b ==> e in n && cmp(x, n[e].key) != 0
  {
  }

  // ---------------------------------------------------------------------------
  // A new leaf
  // ---------------------------------------------------------------------------

  function Hung(s: Tree, r: Ref, leftSide: bool): Tree
    requires s.Fork?
  {
    if leftSide then s.(left := Fork(Leaf, r, Leaf)) else s.(right := Fork(Leaf, r, Leaf))
  }

  lemma AttachFirst(a: seq<Ref>, b: seq<Ref>, r: Ref)
    requires a + b == []
    ensures InOrder(Fork(Leaf, r, Leaf)) == a + [r] + b
  {
  }

  lemma NewDistinct(a: seq<Ref>, r: Ref, b: seq<Ref>)
    requires Distinct(a + b) && r !in a + b
    ensures Distinct(a + [r] + b) && forall e :: e in a + [r] + b <==> e == r || e in a + b
  {
    var l := a + [r] + b;
    forall i, j | 0 <= i < j < |l|
      ensures l[i] != l[j]
    {
      var i', j' := if i < |a| then i else i - 1, if j < |a| then j else j - 1;
      assert i != |a| ==> l[i] == (a + b)[i'];
      assert j != |a| ==> l[j] == (a + b)[j'];
    }
  }

  /** A subtree changes, but neither its root nor anything outside. */
  lemma InPlaceLinked<K>(n: Nodes<K>, m: Nodes<K>, t: Tree, r: Ref, s: Tree)
    requires Linked(n, NULL, t) && Distinct(InOrder(t)) && r in InOrder(t) && r in n
    requires s.Fork? && s.ref == r && Linked(m, n[r].parent, s) && SameOutside(n, m, InOrder(Sub(t, r)))
    ensures Linked(m, NULL, Replace(t, r, s)) && RootOf(Replace(t, r, s)) == RootOf(t)
  {
    if r != t.ref {
      ParentIs(n, NULL, t, r);
      ParentOutside(n, t, r);
      ReplaceLinked(n, m, NULL, t, r, s);
    } else {
      SubLinked(n, NULL, t, r);
    }
  }

  /** The parent of a node is not below it, and has it on one side. */
  lemma ParentOutside<K>(n: Nodes<K>, t: Tree, r: Ref)
    requires Linked(n, NULL, t) && Distinct(InOrder(t)) && r in InOrder(t) && r in n && r != t.ref
    ensures n[r].parent in n && n[r].parent in InOrder(t) && n[r].parent !in InOrder(Sub(t, r)) && n[r].parent != NULL
    ensures n[n[r].parent].left == r || n[n[r].parent].right == r
    ensures n[n[r].parent].left == r ==> n[n[r].parent].right != r
  {
    ParentIs(n, NULL, t, r);
    LinkedRefs(n, NULL, t);
    var p := n[r].parent;
    SubLinked(n, NULL, t, p);
    SubIs(t, p);
    SegmentDistinct(Before(t, p), InOrder(Sub(t, p)), After(t, p));
    RootApart(Sub(t, p));
  }

  lemma HungLinked<K>(n: Nodes<K>, m: Nodes<K>, t: Tree, last: Ref, r: Ref, leftSide: bool)
    requires Linked(n, NULL, t) && Distinct(InOrder(t)) && last in InOrder(t) && last in n && r !in n && r != NULL
    requires r in m
    requires if leftSide then n[last].left == NULL else n[last].right == NULL
    requires m == n[r := m[r]][last := if leftSide then n[last].(left := r) else n[last].(right := r)]
    requires m[r].parent == last && m[r].left == NULL && m[r].right == NULL
    ensures Sub(t, last).Fork? && Linked(m, NULL, Replace(t, last, Hung(Sub(t, last), r, leftSide)))
    ensures if leftSide then Sub(t, last).left.Leaf? else Sub(t, last).right.Leaf?
    ensures RootOf(Replace(t, last, Hung(Sub(t, last), r, leftSide))) == RootOf(t)
  {
    SubLinked(n, NULL, t, last);
    SubIs(t, last);
    var s := Sub(t, last);
    LinkedRefs(n, NULL, t);
    SegmentDistinct(Before(t, last), InOrder(s), After(t, last));
    RootApart(s);
    LinkedRefs(n, n[last].parent, s);
    LinkedRefs(n, last, s.left);
    LinkedRefs(n, last, s.right);
    LinkedFrame(n, m, last, s.left);
    LinkedFrame(n, m, last, s.right);
    InPlaceLinked(n, m, t, last, Hung(s, r, leftSide));
  }

  lemma HungInOrder(s: Tree, r: Ref, leftSide: bool)
    requires s.Fork? && if leftSide then s.left.Leaf? else s.right.Leaf?
    ensures InOrder(Hung(s, r, leftSide)) == if leftSide then [r] + InOrder(s) else InOrder(s) + [r]
  {
    var f := Fork(Leaf, r, Leaf);
    assert InOrder(f) == [r];
    if leftSide {
      assert InOrder(s) == [s.ref] + InOrder(s.right);
      assert [r] + ([s.ref] + InOrder(s.right)) == [r] + [s.ref] + InOrder(s.right);
    } else {
      assert InOrder(s) == InOrder(s.left) + [s.ref];
    }
  }

  lemma ShiftParts(x: seq<Ref>, r: Ref, m: seq<Ref>, y: seq<Ref>)
    ensures x + ([r] + m) + y == x + [r] + (m + y)
    ensures x + (m + [r]) + y == (x + m) + [r] + y
  {
  }

  lemma HungOrder(t: Tree, last: Ref, r: Ref, leftSide: bool, a: seq<Ref>, b: seq<Ref>)
    requires last in InOrder(t) && Sub(t, last).Fork? && Sub(t, last).ref == last
    requires if leftSide then Sub(t, last).left.Leaf? && a == Before(t, last)
      && b == InOrder(Sub(t, last)) + After(t, last)
             else Sub(t, last).right.Leaf? && a == Before(t, last) + InOrder(Sub(t, last)) && b == After(t, last)
    ensures InOrder(Replace(t, last, Hung(Sub(t, last), r, leftSide))) == a + [r] + b
  {
    ReplaceOrder(t, last, Hung(Sub(t, last), r, leftSide));
    HungInOrder(Sub(t, last), r, leftSide);
    ShiftParts(Before(t, last), r, InOrder(Sub(t, last)), After(t, last));
  }

  /** `<` is transitive among stored values, and carries any other value along. */
  ghost predicate Lawful<K(!new)>(cmp: (K, K) -> int, stored: K -> bool) {
    && (forall x, y :: stored(x) && stored(y) ==> (cmp(x, y) < 0 <==> cmp(y, x) > 0))
    && (forall x, y, z :: stored(y) && stored(z) && cmp(x, y) < 0 && cmp(y, z) < 0 ==> cmp(x, z) < 0)
    && (forall x, y, z :: stored(y) && stored(z) && cmp(x, z) > 0 && cmp(y, z) < 0 ==> cmp(x, y) > 0)
  }

  /** The two values stand in the same relation to every value. */
  ghost predicate Alike<K(!new)>(cmp: (K, K) -> int, k: K, k': K) {
    forall y :: cmp(k, y) == cmp(k', y) && cmp(y, k) == cmp(y, k')
  }

  ghost predicate AllStored<K(!new)>(stored: K -> bool, n: Nodes<K>) {
    forall r :: r in n ==> stored(n[r].key)
  }

  ghost predicate SortedPair<K>(cmp: (K, K) -> int, n: Nodes<K>, e: Ref, f: Ref) {
    e in n && f in n ==> cmp(n[e].key, n[f].key) < 0
  }

  ghost predicate SortedOn<K>(cmp: (K, K) -> int, n: Nodes<K>, l: seq<Ref>) {
    forall i, j {:trigger SortedPair(cmp, n, l[i], l[j])} :: 0 <= i < j < |l| ==> SortedPair(cmp, n, l[i], l[j])
  }

  /** In a sorted order every value has its place. */
  lemma LawfulAligned<K(!new)>(cmp: (K, K) -> int, stored: K -> bool, n: Nodes<K>, l: seq<Ref>, x: K)
    requires Lawful(cmp, stored) && SortedOn(cmp, n, l) && AllStored(stored, n)
    ensures AlignedOn(cmp, n, l, x)
  {
    forall i, j | 0 <= i < j < |l|
      ensures AlignedPair(cmp, n, x, l[i], l[j])
    {
      assert SortedPair(cmp, n, l[i], l[j]);
    }
  }

  lemma AlikeSorted<K(!new)>(cmp: (K, K) -> int, n: Nodes<K>, m: Nodes<K>, l: seq<Ref>, r: Ref)
    requires SortedOn(cmp, n, l) && r in n && m.Keys == n.Keys && Alike(cmp, n[r].key, m[r].key)
    requires forall e :: e in n && e != r ==> m[e] == n[e]
    ensures SortedOn(cmp, m, l)
  {
    forall i, j | 0 <= i < j < |l|
      ensures SortedPair(cmp, m, l[i], l[j])
    {
      assert SortedPair(cmp, n, l[i], l[j]);
    }
  }

  /** An element between those below and those above it. */
  lemma AddedSorted<K(!new)>(
      cmp: (K, K) -> int, stored: K -> bool, n: Nodes<K>, m: Nodes<K>, a: seq<Ref>, r: Ref, b: seq<Ref>)
    requires Lawful(cmp, stored) && SortedOn(cmp, n, a + b) && AllStored(stored, n) && r in m && r !in n
    requires stored(m[r].key)
    requires m.Keys == n.Keys + {r} && SameKeys(n, m, a + b) && Sides(cmp, n, m[r].key, a, b)
    requires forall e :: e in n ==> e in a + b
    ensures SortedOn(cmp, m, a + [r] + b) && AllStored(stored, m)
  {
    SortedStays(cmp, n, m, a + b);
    AroundNew(cmp, stored, n, m, a, r, b);
    assert AllStored(stored, m);
    hide Lawful, Sides, SameKeys, AllStored, SortedPair;
    PairsInserted(cmp, m, a, r, b);
  }

  lemma SortedStays<K>(cmp: (K, K) -> int, n: Nodes<K>, m: Nodes<K>, l: seq<Ref>)
    requires SortedOn(cmp, n, l) && SameKeys(n, m, l)
    ensures SortedOn(cmp, m, l)
  {
    forall i, j | 0 <= i < j < |l|
      ensures SortedPair(cmp, m, l[i], l[j])
    {
      assert SortedPair(cmp, n, l[i], l[j]) && l[i] in l && l[j] in l;
    }
  }

  lemma AroundNew<K(!new)>(
      cmp: (K, K) -> int, stored: K -> bool, n: Nodes<K>, m: Nodes<K>, a: seq<Ref>, r: Ref, b: seq<Ref>)
    requires Lawful(cmp, stored) && AllStored(stored, n) && r in m && stored(m[r].key)
    requires SameKeys(n, m, a + b) && Sides(cmp, n, m[r].key, a, b)
    ensures forall e {:trigger SortedPair(cmp, m, e, r)} :: e in a ==> SortedPair(cmp, m, e, r)
    ensures forall e {:trigger SortedPair(cmp, m, r, e)} :: e in b ==> SortedPair(cmp, m, r, e)
  {
    forall e | e in a
      ensures SortedPair(cmp, m, e, r)
    {
      assert e in a + b;
    }
    forall e | e in b
      ensures SortedPair(cmp, m, r, e)
    {
      assert e in a + b;
    }
  }

  lemma PairsInserted<K>(cmp: (K, K) -> int, m: Nodes<K>, a: seq<Ref>, r: Ref, b: seq<Ref>)
    requires SortedOn(cmp, m, a + b)
    requires forall e {:trigger SortedPair(cmp, m, e, r)} :: e in a ==> SortedPair(cmp, m, e, r)
    requires forall e {:trigger SortedPair(cmp, m, r, e)} :: e in b ==> SortedPair(cmp, m, r, e)
    ensures SortedOn(cmp, m, a + [r] + b)
  {
    hide SortedPair;
    var l, k := a + [r] + b, a + b;
    forall i, j | 0 <= i < j < |l|
      ensures SortedPair(cmp, m, l[i], l[j])
    {
      if i == |a| {
        assert l[j] == b[j - |a| - 1];
      } else if j == |a| {
        assert l[i] == a[i];
      } else {
        var i', j' := if i < |a| then i else i - 1, if j < |a| then j else j - 1;
        assert l[i] == k[i'] && l[j] == k[j'];
        assert SortedPair(cmp, m, k[i'], k[j']);
      }
    }
  }

  lemma RemovedSorted<K(!new)>(cmp: (K, K) -> int, stored: K -> bool, n: Nodes<K>, m: Nodes<K>, l: seq<Ref>, i: nat)
    requires SortedOn(cmp, n, l) && AllStored(stored, n) && i < |l| && SameKeys(n, m, l[..i] + l[i + 1..])
    requires forall e :: e in m ==> e in l[..i] + l[i + 1..]
    ensures SortedOn(cmp, m, l[..i] + l[i + 1..]) && AllStored(stored, m)
  {
    var k := l[..i] + l[i + 1..];
    forall p, q | 0 <= p < q < |k|
      ensures SortedPair(cmp, m, k[p], k[q])
    {
      assert k[p] == l[if p < i then p else p + 1] && k[q] == l[if q < i then q else q + 1];
      assert SortedPair(cmp, n, l[if p < i then p else p + 1], l[if q < i then q else q + 1]);
      assert k[p] in k && k[q] in k;
    }
  }

  ghost predicate AlignedPair<K(!new)>(cmp: (K, K) -> int, n: Nodes<K>, x: K, e: Ref, f: Ref) {
    e in n && f in n ==>
      && (cmp(x, n[e].key) < 0 ==> cmp(x, n[f].key) < 0)
      && (cmp(x, n[f].key) > 0 ==> cmp(x, n[e].key) > 0)
  }

  ghost predicate AlignedOn<K(!new)>(cmp: (K, K) -> int, n: Nodes<K>, l: seq<Ref>, x: K) {
    forall i, j {:trigger AlignedPair(cmp, n, x, l[i], l[j])} :: 0 <= i < j < |l| ==> AlignedPair(cmp, n, x, l[i], l[j])
  }

  /** `x` is above everything in `a` and below everything in `b`. */
  ghost predicate Sides<K(!new)>(cmp: (K, K) -> int, n: Nodes<K>, x: K, a: seq<Ref>, b: seq<Ref>) {
    && (forall e :: e in a ==> e in n && cmp(x, n[e].key) > 0)
    && (forall e :: e in b ==> e in n && cmp(x, n[e].key) < 0)
  }

  lemma AtRoot<K(!new)>(cmp: (K, K) -> int, n: Nodes<K>, x: K, t: Tree)
    requires t.Fork?
    ensures Before(t, t.ref) == [] && After(t, t.ref) == [] && Sides(cmp, n, x, Before(t, t.ref), After(t, t.ref))
  {
  }

  /** Where a node has no child on one side. */
  lemma PathEnds(s: Tree, a: seq<Ref>, b: seq<Ref>)
    requires s.Fork?
    ensures s.left.Leaf? ==> [s.ref] + InOrder(s.right) + b == InOrder(s) + b
    ensures s.right.Leaf? ==> a + InOrder(s.left) + [s.ref] == a + InOrder(s)
    ensures a + InOrder(s) + b == a + (InOrder(s) + b)
  {
    assert [] + [s.ref] == [s.ref];
  }

  /** A comparison with one node settles its subtree on one side. */
  lemma TurnSides<K(!new)>(cmp: (K, K) -> int, n: Nodes<K>, t: Tree, x: K, r: Ref)
    requires r in InOrder(t) && Linked(n, NULL, t) && Distinct(InOrder(t)) && AlignedOn(cmp, n, InOrder(t), x) && r in n
    requires Sides(cmp, n, x, Before(t, r), After(t, r))
    ensures Sub(t, r).Fork? && Sub(t, r).ref == r
    ensures cmp(x, n[r].key) < 0 ==> Sides(cmp, n, x, Before(t, r), [r] + InOrder(Sub(t, r).right) + After(t, r))
    ensures cmp(x, n[r].key) > 0 ==> Sides(cmp, n, x, Before(t, r) + InOrder(Sub(t, r).left) + [r], After(t, r))
  {
    SubIs(t, r);
    OrderAt(Sub(t, r));
    LinkedRefs(n, NULL, t);
    hide *;
    TurnAt(cmp, n, x, InOrder(t), Before(t, r), InOrder(Sub(t, r).left), r, InOrder(Sub(t, r).right), After(t, r));
  }

  lemma StepDown<K(!new)>(cmp: (K, K) -> int, n: Nodes<K>, t: Tree, x: K, r: Ref, c: Ref)
    requires r in InOrder(t) && Linked(n, NULL, t) && Distinct(InOrder(t)) && AlignedOn(cmp, n, InOrder(t), x) && r in n
    requires Sides(cmp, n, x, Before(t, r), After(t, r)) && cmp(x, n[r].key) != 0
    requires c == (if cmp(x, n[r].key) < 0 then n[r].left else n[r].right) && c != NULL
    ensures c in n && c in InOrder(t) && Sides(cmp, n, x, Before(t, c), After(t, c))
    ensures |InOrder(Sub(t, c))| < |InOrder(Sub(t, r))|
  {
    TurnSides(cmp, n, t, x, r);
    SubLinked(n, NULL, t, r);
    hide InOrder, Before, After, Distinct, AlignedOn, Sides, Sub;
    var leftSide := cmp(x, n[r].key) < 0;
    ChildIs(n, NULL, t, r, leftSide);
    var h := if leftSide then Sub(t, r).left else Sub(t, r).right;
    assert h.ref == c;
    LinkedRefs(n, NULL, t);
    RootsDiffer(n, t, r);
    ChildSegment(n, t, r, c);
  }

  /** The two children of a node are different. */
  lemma RootsDiffer<K>(n: Nodes<K>, t: Tree, r: Ref)
    requires r in InOrder(t) && Linked(n, NULL, t) && Distinct(InOrder(t))
    ensures Sub(t, r).Fork? && (RootOf(Sub(t, r).right) != NULL ==> RootOf(Sub(t, r).left) != RootOf(Sub(t, r).right))
  {
    SubIs(t, r);
    SubLinked(n, NULL, t, r);
    var s := Sub(t, r);
    SegmentDistinct(Before(t, r), InOrder(s), After(t, r));
    RootApart(s);
    if s.left.Fork? { RootMember(s.left); }
    if s.right.Fork? { RootMember(s.right); }
  }

  lemma TurnAt<K(!new)>(
      cmp: (K, K) -> int, n: Nodes<K>, x: K, l: seq<Ref>, a: seq<Ref>, x1: seq<Ref>, r: Ref, x2: seq<Ref>, b: seq<Ref>)
    requires l == a + (x1 + [r] + x2) + b && AlignedOn(cmp, n, l, x) && Sides(cmp, n, x, a, b)
    requires r in n && forall e :: e in l ==> e in n && e != NULL
    ensures cmp(x, n[r].key) < 0 ==> Sides(cmp, n, x, a, [r] + x2 + b)
    ensures cmp(x, n[r].key) > 0 ==> Sides(cmp, n, x, a + x1 + [r], b)
  {
    hide *;
    assert l == (a + x1) + [r] + x2 + b;
    assert l == a + x1 + [r] + (x2 + b);
    PairAfter(cmp, n, x, a + x1, r, x2, b);
    PairBefore(cmp, n, x, a, x1, r, x2 + b);
    AllIn(n, l, a, x1, r, x2, b);
    if cmp(x, n[r].key) < 0 { SidesLow(cmp, n, x, a, r, x2, b); }
    if cmp(x, n[r].key) > 0 { SidesHigh(cmp, n, x, a, x1, r, b); }
  }

  lemma AllIn<K>(n: Nodes<K>, l: seq<Ref>, a: seq<Ref>, x1: seq<Ref>, r: Ref, x2: seq<Ref>, b: seq<Ref>)
    requires l == a + (x1 + [r] + x2) + b && forall e :: e in l ==> e in n && e != NULL
    ensures (forall e :: e in x1 ==> e in n) && forall e :: e in x2 ==> e in n
  {
    forall e | e in x1 || e in x2
      ensures e in n
    {
      assert e in x1 + [r] + x2;
      assert e in l;
    }
  }

  lemma SidesLow<K(!new)>(cmp: (K, K) -> int, n: Nodes<K>, x: K, a: seq<Ref>, r: Ref, x2: seq<Ref>, b: seq<Ref>)
    requires Sides(cmp, n, x, a, b) && r in n && cmp(x, n[r].key) < 0 && (forall e :: e in x2 ==> e in n)
    requires forall e {:trigger AlignedPair(cmp, n, x, r, e)} :: e in x2 ==> AlignedPair(cmp, n, x, r, e)
    ensures Sides(cmp, n, x, a, [r] + x2 + b)
  {
    forall e | e in [r] + x2 + b
      ensures e in n && cmp(x, n[e].key) < 0
    {
      if e in x2 { assert AlignedPair(cmp, n, x, r, e); }
    }
  }

  lemma SidesHigh<K(!new)>(cmp: (K, K) -> int, n: Nodes<K>, x: K, a: seq<Ref>, x1: seq<Ref>, r: Ref, b: seq<Ref>)
    requires Sides(cmp, n, x, a, b) && r in n && cmp(x, n[r].key) > 0 && (forall e :: e in x1 ==> e in n)
    requires forall e {:trigger AlignedPair(cmp, n, x, e, r)} :: e in x1 ==> AlignedPair(cmp, n, x, e, r)
    ensures Sides(cmp, n, x, a + x1 + [r], b)
  {
    forall e | e in a + x1 + [r]
      ensures e in n && cmp(x, n[e].key) > 0
    {
      if e in x1 { assert AlignedPair(cmp, n, x, e, r); }
    }
  }

  lemma OrderAt(s: Tree)
    requires s.Fork?
    ensures InOrder(s) == InOrder(s.left) + [s.ref] + InOrder(s.right)
  {
  }

  lemma PairAfter<K(!new)>(cmp: (K, K) -> int, n: Nodes<K>, x: K, a: seq<Ref>, r: Ref, b: seq<Ref>, c: seq<Ref>)
    requires AlignedOn(cmp, n, a + [r] + b + c, x)
    ensures forall e {:trigger AlignedPair(cmp, n, x, r, e)} :: e in b ==> AlignedPair(cmp, n, x, r, e)
  {
    hide AlignedPair;
    var l := a + [r] + b + c;
    forall e | e in b
      ensures AlignedPair(cmp, n, x, r, e)
    {
      var k :| 0 <= k < |b| && b[k] == e;
      assert l[|a|] == r && l[|a| + 1 + k] == e;
      assert AlignedPair(cmp, n, x, l[|a|], l[|a| + 1 + k]);
    }
  }

  lemma PairBefore<K(!new)>(cmp: (K, K) -> int, n: Nodes<K>, x: K, a: seq<Ref>, b: seq<Ref>, r: Ref, c: seq<Ref>)
    requires AlignedOn(cmp, n, a + b + [r] + c, x)
    ensures forall e {:trigger AlignedPair(cmp, n, x, e, r)} :: e in b ==> AlignedPair(cmp, n, x, e, r)
  {
    hide AlignedPair;
    var l := a + b + [r] + c;
    forall e | e in b
      ensures AlignedPair(cmp, n, x, e, r)
    {
      var k :| 0 <= k < |b| && b[k] == e;
      assert l[|a| + k] == e && l[|a| + |b|] == r;
      assert AlignedPair(cmp, n, x, l[|a| + k], l[|a| + |b|]);
    }
  }

  /** What lies before and after a child. */
  lemma ChildSegment<K>(n: Nodes<K>, t: Tree, r: Ref, c: Ref)
    requires Linked(n, NULL, t) && Distinct(InOrder(t)) && r in InOrder(t) && c in InOrder(t) && Sub(t, r).Fork?
    requires Sub(t, r).ref == r && c != NULL
    requires (c == RootOf(Sub(t, r).left) && Sub(t, c) == Sub(t, r).left)
      || (c == RootOf(Sub(t, r).right) && Sub(t, c) == Sub(t, r).right)
    ensures c in n && n[c].parent == r
    ensures c == RootOf(Sub(t, r).left) ==>
      Before(t, c) == Before(t, r) && After(t, c) == [r] + InOrder(Sub(t, r).right) + After(t, r)
    ensures c != RootOf(Sub(t, r).left) ==>
      Before(t, c) == Before(t, r) + InOrder(Sub(t, r).left) + [r] && After(t, c) == After(t, r)
  {
    SubLinked(n, NULL, t, r);
    SubIs(t, r);
    SegmentDistinct(Before(t, r), InOrder(Sub(t, r)), After(t, r));
    RootApart(Sub(t, r));
    RootMember(Sub(t, c));
    TopIsNoChild(t, r, c);
    ParentIs(n, NULL, t, c);
  }

  lemma PositionOf(a: seq<Ref>, r: Ref, b: seq<Ref>, l: seq<Ref>, i: nat)
    requires l == a + [r] + b && Distinct(l) && i < |l| && l[i] == r
    ensures i == |a| && l[i + 1..] == b
  {
    assert l[|a|] == r;
  }
}
