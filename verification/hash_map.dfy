/**
  The chained hash map: nodes reached through references, a table of bucket heads, doubly linked buckets,
  rehashing into a table of twice the size, and iteration.
 */
module HashMaps {
  import opened Sequences

  type Ref = nat

  const NULL: Ref := 0

  datatype Node<K, V> = Node(hash: nat, key: K, value: V, next: Ref, prev: Ref)

  type Nodes<K, V> = map<Ref, Node<K, V>>

  datatype Code = Success | BadArgs | Empty | NoMem

  datatype Option<V> = None | Some(value: V)

  // ---------------------------------------------------------------------------
  // One bucket
  // ---------------------------------------------------------------------------

  ghost predicate NodeOk<K, V>(n: Nodes<K, V>, l: seq<Ref>, k: nat)
    requires k < |l|
  {
    && l[k] in n && l[k] != NULL
    && n[l[k]].next == (if k + 1 < |l| then l[k + 1] else NULL)
    && n[l[k]].prev == (if k > 0 then l[k - 1] else NULL)
  }

  ghost predicate IsChain<K, V>(n: Nodes<K, V>, head: Ref, l: seq<Ref>) {
    && head == (if l == [] then NULL else l[0]) && Distinct(l)
    && forall k {:trigger NodeOk(n, l, k)} :: 0 <= k < |l| ==> NodeOk(n, l, k)
  }

  /** Bucket `b` of `cap`: the nodes whose hash falls into it. */
  ghost predicate IsBucket<K, V>(n: Nodes<K, V>, head: Ref, l: seq<Ref>, cap: nat, b: nat)
    requires cap > 0
  {
    IsChain(n, head, l) && forall r :: r in l ==> r in n && n[r].hash % cap == b
  }

  /** The same up to the links. */
  ghost predicate SameEntry<K, V>(n: Nodes<K, V>, m: Nodes<K, V>, r: Ref) {
    r in n && r in m && m[r].hash == n[r].hash && m[r].key == n[r].key && m[r].value == n[r].value
  }

  lemma ChainFrame<K, V>(n: Nodes<K, V>, m: Nodes<K, V>, head: Ref, l: seq<Ref>)
    requires IsChain(n, head, l) && forall r :: r in l && r in n ==> r in m && m[r] == n[r]
    ensures IsChain(m, head, l)
  {
    forall k | 0 <= k < |l|
      ensures NodeOk(m, l, k)
    {
      assert NodeOk(n, l, k);
    }
  }

  lemma ChainMembers<K, V>(n: Nodes<K, V>, head: Ref, l: seq<Ref>)
    requires IsChain(n, head, l)
    ensures forall r :: r in l ==> r in n && r != NULL
  {
    forall r | r in l
      ensures r in n && r != NULL
    {
      var k :| 0 <= k < |l| && l[k] == r;
      assert NodeOk(n, l, k);
    }
  }

  /** Node `r`, which is in no bucket, is put before the head. */
  function PushFront<K, V>(n: Nodes<K, V>, head: Ref, r: Ref): (m: Nodes<K, V>)
    requires r in n
    ensures m.Keys == n.Keys
  {
    var n1 := if head in n then n[head := n[head].(prev := r)] else n;
    n1[r := n1[r].(prev := NULL, next := head)]
  }

  lemma PushKeeps<K, V>(n: Nodes<K, V>, head: Ref, l: seq<Ref>, r: Ref)
    requires IsChain(n, head, l) && r in n && r !in l && r != NULL && NULL !in n
    ensures IsChain(PushFront(n, head, r), r, [r] + l)
    ensures forall s :: s in n ==> SameEntry(n, PushFront(n, head, r), s)
    ensures forall s :: s in n && s !in l && s != r ==> PushFront(n, head, r)[s] == n[s]
  {
    var m, l' := PushFront(n, head, r), [r] + l;
    if l != [] { assert NodeOk(n, l, 0); }
    forall k | 0 <= k < |l'|
      ensures NodeOk(m, l', k)
    {
      if k > 0 {
        assert NodeOk(n, l, k - 1);
        assert l'[k] == l[k - 1];
      }
    }
  }

  /** Node `r` is taken out, and its neighbours are linked to each other. */
  function Unlinked<K, V>(n: Nodes<K, V>, r: Ref): (m: Nodes<K, V>)
    requires r in n
    ensures m.Keys == n.Keys
  {
    var next, prev := n[r].next, n[r].prev;
    var n1 := if next in n then n[next := n[next].(prev := prev)] else n;
    if prev in n then n1[prev := n1[prev].(next := next)] else n1
  }

  lemma UnlinkKeeps<K, V>(n: Nodes<K, V>, head: Ref, l: seq<Ref>, p: nat)
    requires IsChain(n, head, l) && p < |l| && NULL !in n
    ensures NodeOk(n, l, p)
    ensures IsChain(Unlinked(n, l[p]), if n[l[p]].prev == NULL then n[l[p]].next else head, Without(l, p))
    ensures forall s :: s in n ==> SameEntry(n, Unlinked(n, l[p]), s)
    ensures forall s :: s in n && s !in l ==> Unlinked(n, l[p])[s] == n[s]
    ensures l[p] !in Without(l, p) && forall s :: s in Without(l, p) <==> s in l && s != l[p]
  {
    assert NodeOk(n, l, p);
    var m, l' := Unlinked(n, l[p]), Without(l, p);
    if p > 0 { assert NodeOk(n, l, p - 1); }
    if p + 1 < |l| { assert NodeOk(n, l, p + 1); }
    WithoutMembers(l, p);
    forall k | 0 <= k < |l'|
      ensures NodeOk(m, l', k)
    {
      UnlinkedAt(n, head, l, p, k);
    }
  }

  lemma UnlinkedAt<K, V>(n: Nodes<K, V>, head: Ref, l: seq<Ref>, p: nat, k: nat)
    requires IsChain(n, head, l) && p < |l| && k < |l| - 1 && NULL !in n
    ensures l[p] in n && NodeOk(Unlinked(n, l[p]), Without(l, p), k)
  {
    assert NodeOk(n, l, p) && NodeOk(n, l, if k < p then k else k + 1);
    if p > 0 { assert NodeOk(n, l, p - 1); }
    if p + 1 < |l| { assert NodeOk(n, l, p + 1); }
  }

  // ---------------------------------------------------------------------------
  // The whole table
  // ---------------------------------------------------------------------------

  ghost predicate InPlace<K(!new), V>(n: Nodes<K, V>, buckets: seq<seq<Ref>>, hash: K -> nat, r: Ref)
    requires |buckets| > 0 && r in n
  {
    n[r].hash == hash(n[r].key) && r in buckets[n[r].hash % |buckets|]
  }

  ghost predicate OwnKey<K(!new), V>(n: Nodes<K, V>, r: Ref)
    requires r in n
  {
    forall s :: s in n && n[s].key == n[r].key ==> s == r
  }

  /** Every node lies in the bucket of its hash, and no two have the same key. */
  ghost predicate Holds<K(!new), V>(n: Nodes<K, V>, table: seq<Ref>, buckets: seq<seq<Ref>>, hash: K -> nat) {
    && NULL !in n && |table| > 0 && |buckets| == |table|
    && (forall b {:trigger IsBucket(n, table[b], buckets[b], |table|, b)} :: 0 <= b < |table| ==>
        IsBucket(n, table[b], buckets[b], |table|, b))
    && (forall r {:trigger InPlace(n, buckets, hash, r)} :: r in n ==> InPlace(n, buckets, hash, r))
    && (forall r {:trigger OwnKey(n, r)} :: r in n ==> OwnKey(n, r))
  }

  ghost predicate HasKey<K(!new), V>(n: Nodes<K, V>, k: K) {
    exists r :: r in n && n[r].key == k
  }

  /** The mathematical map that the nodes stand for. */
  ghost predicate Means<K(!new), V(!new)>(n: Nodes<K, V>, model: map<K, V>) {
    && (forall r :: r in n ==> n[r].key in model && model[n[r].key] == n[r].value)
    && (forall k {:trigger HasKey(n, k)} :: k in model ==> HasKey(n, k))
    && |model| == |n|
  }

  /** A change inside bucket `b` only. */
  lemma BucketChanged<K(!new), V>(
      n: Nodes<K, V>, table: seq<Ref>, buckets: seq<seq<Ref>>, hash: K -> nat, m: Nodes<K, V>, b: nat, head: Ref,
      l: seq<Ref>)
    requires Holds(n, table, buckets, hash) && b < |table| && NULL !in m
    requires IsBucket(m, head, l, |table|, b)
    requires forall r :: r in m && r !in l ==> r in n && r !in buckets[b] && m[r] == n[r]
    requires forall r :: r in n && r !in buckets[b] ==> r in m && m[r] == n[r]
    requires forall r :: r in l ==> r in m && m[r].hash == hash(m[r].key)
    requires forall r {:trigger OwnKey(m, r)} :: r in m ==> OwnKey(m, r)
    ensures Holds(m, table[b := head], buckets[b := l], hash)
  {
    hide OwnKey;
    var t', bs := table[b := head], buckets[b := l];
    forall c | 0 <= c < |t'|
      ensures IsBucket(m, t'[c], bs[c], |t'|, c)
    {
      if c != b {
        assert IsBucket(n, table[c], buckets[c], |table|, c) && IsBucket(n, table[b], buckets[b], |table|, b);
        ChainFrame(n, m, table[c], buckets[c]);
      }
    }
    forall r | r in m
      ensures InPlace(m, bs, hash, r)
    {
      if r !in l { assert InPlace(n, buckets, hash, r); }
    }
  }

  /** A key of the map is found in the bucket of its hash. */
  lemma KeyInBucket<K(!new), V(!new)>(
      n: Nodes<K, V>, table: seq<Ref>, buckets: seq<seq<Ref>>, hash: K -> nat, model: map<K, V>, key: K)
    requires Holds(n, table, buckets, hash) && Means(n, model)
    ensures var l := buckets[hash(key) % |table|];
      key in model ==> exists i :: 0 <= i < |l| && l[i] in n && n[l[i]].key == key
  {
    if key in model {
      assert HasKey(n, key);
      var r :| r in n && n[r].key == key;
      assert InPlace(n, buckets, hash, r);
    }
  }

  lemma SizeOfMap<A, B>(m: map<A, B>)
    ensures |m| == |m.Keys|
  {
  }

  lemma OneMore<A, B>(m: map<A, B>, k: A, v: B)
    ensures |m[k := v]| == |m| + if k in m then 0 else 1
  {
    SizeOfMap(m);
    SizeOfMap(m[k := v]);
    assert m[k := v].Keys == m.Keys + {k};
  }

  lemma OneLess<A, B>(m: map<A, B>, k: A)
    requires k in m
    ensures |m - {k}| == |m| - 1
  {
    SizeOfMap(m);
    SizeOfMap(m - {k});
    assert (m - {k}).Keys == m.Keys - {k};
  }

  /** A new node, or a new value of a node, in the model. */
  lemma MeansMore<K(!new), V(!new)>(n: Nodes<K, V>, model: map<K, V>, m: Nodes<K, V>, r: Ref, key: K, value: V)
    requires Means(n, model) && r !in n && key !in model
    requires m.Keys == n.Keys + {r} && m[r].key == key && m[r].value == value
    requires forall s :: s in n ==> SameEntry(n, m, s)
    ensures Means(m, model[key := value])
  {
    var model' := model[key := value];
    forall k | k in model'
      ensures HasKey(m, k)
    {
      assert k != key ==> HasKey(n, k);
      if k == key {
        assert m[r].key == k;
      } else {
        var s :| s in n && n[s].key == k;
        assert SameEntry(n, m, s) && m[s].key == k;
      }
    }
    forall s | s in m
      ensures m[s].key in model' && model'[m[s].key] == m[s].value
    {
      if s != r { assert SameEntry(n, m, s); }
    }
    SizeOfMap(n);
    SizeOfMap(m);
    OneMore(model, key, value);
  }

  lemma MeansLess<K(!new), V(!new)>(n: Nodes<K, V>, model: map<K, V>, m: Nodes<K, V>, r: Ref, hash: K -> nat)
    requires Means(n, model) && r in n && m.Keys == n.Keys - {r} && (forall s :: s in m ==> SameEntry(n, m, s))
    requires OwnKey(n, r)
    ensures Means(m, model - {n[r].key})
  {
    var key := n[r].key;
    var model' := model - {key};
    forall k | k in model'
      ensures HasKey(m, k)
    {
      assert HasKey(n, k);
      var s :| s in n && n[s].key == k;
      assert SameEntry(n, m, s) && m[s].key == k;
    }
    forall s | s in m
      ensures m[s].key in model' && model'[m[s].key] == m[s].value
    {
      assert SameEntry(n, m, s);
    }
    SizeOfMap(n);
    SizeOfMap(m);
    OneLess(model, key);
  }

  lemma MeansSame<K(!new), V(!new)>(n: Nodes<K, V>, model: map<K, V>, m: Nodes<K, V>)
    requires Means(n, model) && m.Keys == n.Keys && forall s :: s in n ==> SameEntry(n, m, s)
    ensures Means(m, model)
  {
    forall k | k in model
      ensures HasKey(m, k)
    {
      assert HasKey(n, k);
      var s :| s in n && n[s].key == k;
      assert SameEntry(n, m, s) && m[s].key == k;
    }
    forall s | s in m
      ensures m[s].key in model && model[m[s].key] == m[s].value
    {
      assert SameEntry(n, m, s);
    }
    SizeOfMap(n);
    SizeOfMap(m);
  }

  /** How many entries a table of that capacity may hold before it grows. */
  function Bound(cap: nat, ratio: nat): nat
    requires ratio >= 2
  {
    cap * (ratio - 1) % 0x1_0000_0000 / ratio
  }

  /** The capacity for `len` entries: twice the old one when there are too many, and there is room and memory. */
  function CapacityFor(cap: nat, ratio: nat, len: nat, memory: bool): nat
    requires ratio >= 2
  {
    if len > Bound(cap, ratio) && 2 * cap < 0x1_0000_0000 && memory then 2 * cap else cap
  }

  class ChainedHashMap<K(==, !new), V(!new)> {
    const hash: K -> nat
    const ratio: nat
    /** Whether there are values at all; without them the map is a set of keys. */
    const hasValues: bool
    var table: array<Ref>
    var nodes: Nodes<K, V>
    var len: nat
    var iter: Ref
    ghost var buckets: seq<seq<Ref>>
    ghost var model: map<K, V>

    ghost predicate Valid()
      reads this, table
    {
      Holds(nodes, table[..], buckets, hash) && Means(nodes, model) && len == |model| && ratio >= 2
    }

    constructor (hash: K -> nat, ratio: nat, hasValues: bool)
      requires ratio >= 2
      ensures Valid() && model == map[] && this.hash == hash && this.hasValues == hasValues && fresh(table)
    {
      this.hash, this.ratio, this.hasValues := hash, ratio, hasValues;
      table := new Ref[1](i => NULL);
      nodes, len, iter, buckets, model := map[], 0, NULL, [[]], map[];
    }

    /** chm_get_node: the node with that key, if there is one. */
    method GetNode(key: K) returns (r: Ref)
      requires Valid()
      ensures r != NULL ==> r in nodes && nodes[r].key == key
      ensures r == NULL ==> key !in model
      ensures r != NULL <==> key in model
    {
      var h := hash(key);
      var b := h % table.Length;
      ghost var l := buckets[b];
      assert IsBucket(nodes, table[..][b], l, table.Length, b);
      r := table[b];
      ghost var k := 0;
      while r != NULL
        invariant k <= |l| && r == if k < |l| then l[k] else NULL
        invariant forall i :: 0 <= i < k ==> l[i] in nodes && nodes[l[i]].key != key
        decreases |l| - k
      {
        assert k < |l| && NodeOk(nodes, l, k);
        assert InPlace(nodes, buckets, hash, r);
        if nodes[r].hash == h && nodes[r].key == key {
          return r;
        }
        r := nodes[r].next;
        k := k + 1;
        assert k < |l| ==> NodeOk(nodes, l, k);
      }
      KeyInBucket(nodes, table[..], buckets, hash, model, key);
    }

    /** chm_get_kvp; `wantValue` says whether the value is asked for too. */
    method Get(key: K, wantValue: bool) returns (code: Code, r: Ref)
      requires Valid()
      ensures code == if wantValue && !hasValues then BadArgs else if key in model then Success else Empty
      ensures code == Success ==> r in nodes && nodes[r].key == key && nodes[r].value == model[key]
    {
      if wantValue && !hasValues {
        return BadArgs, NULL;
      }
      r := GetNode(key);
      code := if r == NULL then Empty else Success;
    }

    /**
      chm_put: the key maps to the value, in place if it is there already; `spare` is the reference of a
      node from the allocator, or null, and `memory` says whether a larger table can be had. Without a value
      an old one stays, and a new node has the bytes it happens to have, `junk`.
     */
    method Put(key: K, value: Option<V>, junk: V, spare: Ref, memory: bool) returns (code: Code)
      requires Valid() && spare !in nodes
      modifies this`table, this`nodes, this`len, this`buckets, this`model, table
      ensures Valid()
      ensures code ==
        if !hasValues && value.Some? then BadArgs else if key !in old(model) && spare == NULL then NoMem else Success
      ensures code == Success && value.Some? ==> model == old(model)[key := value.value]
      ensures code == Success && value.None? ==>
        model == if key in old(model) then old(model) else old(model)[key := junk]
      ensures code != Success ==> model == old(model)
      ensures table.Length == if code == Success && key !in old(model)
        then CapacityFor(old(table.Length), ratio, old(len) + 1, memory) else old(table.Length)
    {
      if !hasValues && value.Some? {
        return BadArgs;
      }
      var r := GetNode(key);
      if r != NULL {
        if value.Some? {
          Overwrite(r, value.value);
        }
        return Success;
      }
      if spare == NULL {
        return NoMem;
      }
      Insert(key, if value.Some? then value.value else junk, spare);
      TryResize(memory);
      code := Success;
    }

    method Overwrite(r: Ref, value: V)
      requires Valid() && r in nodes
      modifies this`nodes, this`model
      ensures Valid() && model == old(model)[old(nodes)[r].key := value]
    {
      hide Holds, Means;
      OverwriteKeeps(nodes, table[..], buckets, hash, model, r, value);
      nodes := nodes[r := nodes[r].(value := value)];
      model := model[nodes[r].key := value];
    }

    /** A new node at the front of its bucket. */
    method Insert(key: K, value: V, r: Ref)
      requires Valid() && r !in nodes && r != NULL && key !in model
      modifies this`nodes, this`len, this`buckets, this`model, table
      ensures Valid() && model == old(model)[key := value] && len == old(len) + 1
    {
      hide Holds, Means;
      TableSize(nodes, table[..], buckets, hash);
      var h := hash(key);
      var b := h % table.Length;
      InsertKeeps(nodes, table[..], buckets, hash, model, r, key, value);
      ghost var t := table[..];
      nodes := PushFront(nodes[r := Node(h, key, value, NULL, NULL)], table[b], r);
      table[b] := r;
      assert table[..] == t[b := r];
      buckets := buckets[b := [r] + buckets[b]];
      len := len + 1;
      model := model[key := value];
    }

    /** chm_remove */
    method Remove(key: K) returns (found: bool)
      requires Valid()
      modifies this`nodes, this`len, this`buckets, this`model, table
      ensures Valid() && found == (key in old(model)) && model == old(model) - {key}
    {
      hide Holds, Means;
      var r := GetNode(key);
      if r == NULL {
        assert model - {key} == model;
        return false;
      }
      TableSize(nodes, table[..], buckets, hash);
      var b := nodes[r].hash % table.Length;
      ghost var t := table[..];
      ghost var p := RemoveKeeps(nodes, table[..], buckets, hash, model, r);
      var head := if nodes[r].prev == NULL then nodes[r].next else table[b];
      nodes := Unlinked(nodes, r) - {r};
      table[b] := head;
      assert table[..] == t[b := head];
      buckets := buckets[b := Without(buckets[b], p)];
      len := len - 1;
      model := model - {key};
      found := true;
    }

    /** chm_try_resize: with too many entries for its capacity the map is rehashed into a table of twice the size. */
    method TryResize(memory: bool)
      requires Valid()
      modifies this`table, this`nodes, this`buckets
      ensures Valid() && model == old(model) && len == old(len) && (table == old(table) || fresh(table))
      ensures table.Length == CapacityFor(old(table.Length), ratio, len, memory)
    {
      hide Holds, Means;
      TableSize(nodes, table[..], buckets, hash);
      var cap := table.Length;
      if len <= Bound(cap, ratio) {
        return;
      }
      var newCap := 2 * cap;
      if newCap >= 0x1_0000_0000 || !memory {
        return;
      }
      var newTable := new Ref[newCap](b => NULL);
      Heads(nodes, table[..], buckets, hash);
      ghost var n0, t, bs, newBuckets := nodes, table[..], buckets, seq(newCap, b => []);
      StartMoving(n0, t, bs, hash, newTable[..], newBuckets);
      var i := 0;
      while i < cap
        invariant 0 <= i <= cap && newTable.Length == newCap && table == old(table) && table[..] == t && fresh(newTable)
        invariant Moving(n0, nodes, t, bs, newTable[..], newBuckets, i, if i < cap then bs[i] else [])
      {
        newBuckets := MoveBucket(newTable, i, n0, t, bs, newBuckets);
        i := i + 1;
      }
      AllMoved(n0, nodes, t, bs, hash, newTable[..], newBuckets);
      MovedMeans(n0, nodes, t, bs, newTable[..], newBuckets, model);
      table := newTable;
      buckets := newBuckets;
    }

    /** The nodes of bucket `i` go to the fronts of their new buckets, one by one. */
    method MoveBucket(
        newTable: array<Ref>, i: nat, ghost n0: Nodes<K, V>, ghost t: seq<Ref>, ghost bs: seq<seq<Ref>>,
        ghost newBuckets0: seq<seq<Ref>>)
      returns (ghost newBuckets: seq<seq<Ref>>)
      requires newTable != table && i < table.Length && table[..] == t && |bs| == |t| && t[i] == HeadOf(bs[i])
      requires Moving(n0, nodes, t, bs, newTable[..], newBuckets0, i, bs[i])
      modifies this`nodes, newTable
      ensures Moving(n0, nodes, t, bs, newTable[..], newBuckets, i + 1, if i + 1 < |t| then bs[i + 1] else [])
    {
      hide Moving;
      newBuckets := newBuckets0;
      var r := table[i];
      ghost var rest := bs[i];
      while r != NULL
        invariant table == old(table) && table[..] == t && Moving(n0, nodes, t, bs, newTable[..], newBuckets, i, rest)
        invariant r == HeadOf(rest)
        decreases |rest|
      {
        MoveNode(n0, nodes, t, bs, newTable[..], newBuckets, i, rest);
        var next := nodes[r].next;
        var b := nodes[r].hash % newTable.Length;
        ghost var nt := newTable[..];
        nodes := PushFront(nodes, newTable[b], r);
        newTable[b] := r;
        assert newTable[..] == nt[b := r];
        newBuckets := newBuckets[b := [r] + newBuckets[b]];
        rest := rest[1..];
        r := next;
      }
      RestEnds(n0, nodes, t, bs, newTable[..], newBuckets, i, rest);
      NextBucket(n0, nodes, t, bs, newTable[..], newBuckets, i);
    }

    // -------------------------------------------------------------------------
    // Iteration
    // -------------------------------------------------------------------------

    /** chm_reset_iter and the loop of chm_next_iter: the first entry of the buckets from `b` on. */
    method FirstFrom(b: nat) returns (r: Ref)
      requires Valid() && b <= table.Length
      ensures b <= |buckets| && r == HeadOf(Flat(buckets, b))
    {
      hide Holds, Means;
      TableSize(nodes, table[..], buckets, hash);
      Heads(nodes, table[..], buckets, hash);
      NotNull(nodes, table[..], buckets, hash);
      var i := b;
      while i < table.Length
        invariant b <= i <= table.Length && Flat(buckets, b) == Flat(buckets, i)
      {
        assert table[i] == table[..][i];
        if table[i] != NULL {
          return table[i];
        }
        assert buckets[i] == [] && Flat(buckets, i) == [] + Flat(buckets, i + 1);
        i := i + 1;
      }
      return NULL;
    }

    method ResetIter()
      requires Valid()
      modifies this`iter
      ensures Valid() && iter == HeadOf(Flat(buckets, 0))
    {
      iter := FirstFrom(0);
    }

    /** chm_get_iter: the node of the iterator, unless the iteration has ended. */
    method GetIter(wantValue: bool) returns (code: Code, r: Ref)
      requires Valid()
      ensures code == if wantValue && !hasValues then BadArgs else if iter == NULL then Empty else Success
      ensures r == if code == Success then iter else NULL
    {
      if wantValue && !hasValues {
        return BadArgs, NULL;
      }
      r := iter;
      code := if iter == NULL then Empty else Success;
    }

    /**
      chm_next_iter: with `rest` still to come, its first being the current entry, the next one is the second of
      `rest`. When a value is asked for and there are none, the iterator stays.
     */
    method NextIter(wantValue: bool, ghost rest: seq<Ref>, ghost b: nat, ghost p: nat) returns (code: Code, r: Ref)
      requires Valid()
      requires hasValues || !wantValue ==>
        && b < |buckets| && p < |buckets[b]| && rest == buckets[b][p..] + Flat(buckets, b + 1) && iter == rest[0]
      modifies this`iter
      ensures Valid() && iter == if wantValue && !hasValues then old(iter) else HeadOf(rest[1..])
      ensures code == if wantValue && !hasValues then BadArgs else if iter == NULL then Empty else Success
      ensures r == if code == Success then iter else NULL
      ensures code != BadArgs ==>
        rest[1..] == (if p + 1 < |buckets[b]| then buckets[b][p + 1..] else []) + Flat(buckets, b + 1)
    {
      if wantValue && !hasValues {
        return BadArgs, NULL;
      }
      hide Holds, Means;
      TableSize(nodes, table[..], buckets, hash);
      EntryAt(nodes, table[..], buckets, hash, b, p);
      assert rest[1..] == buckets[b][p + 1..] + Flat(buckets, b + 1);
      if nodes[iter].next != NULL {
        iter := nodes[iter].next;
      } else {
        assert [] + Flat(buckets, b + 1) == Flat(buckets, b + 1);
        iter := FirstFrom(nodes[iter].hash % table.Length + 1);
      }
      code, r := GetIter(wantValue);
    }
  }

  /** The entries in the order of the iteration. */
  ghost function Flat(buckets: seq<seq<Ref>>, b: nat): seq<Ref>
    requires b <= |buckets|
    decreases |buckets| - b
  {
    if b == |buckets| then [] else buckets[b] + Flat(buckets, b + 1)
  }

  lemma NotNull<K(!new), V>(n: Nodes<K, V>, t: seq<Ref>, bs: seq<seq<Ref>>, hash: K -> nat)
    requires Holds(n, t, bs, hash)
    ensures |bs| == |t| && forall c :: 0 <= c < |bs| && bs[c] != [] ==> bs[c][0] != NULL
  {
    forall c | 0 <= c < |bs| && bs[c] != []
      ensures bs[c][0] != NULL
    {
      assert IsBucket(n, t[c], bs[c], |t|, c) && NodeOk(n, bs[c], 0);
    }
  }

  lemma EntryAt<K(!new), V>(n: Nodes<K, V>, t: seq<Ref>, bs: seq<seq<Ref>>, hash: K -> nat, b: nat, p: nat)
    requires Holds(n, t, bs, hash) && b < |bs| && p < |bs[b]|
    ensures |t| > 0 && bs[b][p] in n && n[bs[b][p]].hash % |t| == b
    ensures n[bs[b][p]].next == HeadOf(bs[b][p + 1..]) && (p + 1 < |bs[b]| ==> bs[b][p + 1] != NULL)
  {
    hide InPlace, OwnKey;
    assert IsBucket(n, t[b], bs[b], |t|, b) && NodeOk(n, bs[b], p);
    assert p + 1 < |bs[b]| ==> NodeOk(n, bs[b], p + 1);
    assert bs[b][p] in bs[b];
  }

  /** Each entry comes exactly once. */
  lemma {:induction false} FlatOnce<K(!new), V>(n: Nodes<K, V>, t: seq<Ref>, bs: seq<seq<Ref>>, hash: K -> nat, b: nat)
    requires Holds(n, t, bs, hash) && b <= |bs|
    ensures Distinct(Flat(bs, b))
    ensures forall r :: r in Flat(bs, b) <==> r in n && n[r].hash % |t| >= b
    decreases |bs| - b
  {
    if b < |bs| {
      FlatOnce(n, t, bs, hash, b + 1);
      BucketOnce(n, t, bs, hash, b);
      var x, y := bs[b], Flat(bs, b + 1);
      forall i, j | 0 <= i < j < |x + y|
        ensures (x + y)[i] != (x + y)[j]
      {
        if i < |x| <= j { assert (x + y)[i] in x && (x + y)[j] in y; }
      }
    }
  }

  lemma BucketOnce<K(!new), V>(n: Nodes<K, V>, t: seq<Ref>, bs: seq<seq<Ref>>, hash: K -> nat, b: nat)
    requires Holds(n, t, bs, hash) && b < |bs|
    ensures Distinct(bs[b]) && forall r :: r in bs[b] <==> r in n && n[r].hash % |t| == b
  {
    hide OwnKey;
    assert IsBucket(n, t[b], bs[b], |t|, b);
    forall r | r in n && n[r].hash % |t| == b
      ensures r in bs[b]
    {
      assert InPlace(n, bs, hash, r);
    }
  }

  // ---------------------------------------------------------------------------
  // Rehashing
  // ---------------------------------------------------------------------------

  ghost predicate NextOk<K, V>(n: Nodes<K, V>, l: seq<Ref>, k: nat)
    requires k < |l|
  {
    l[k] in n && l[k] != NULL && n[l[k]].next == if k + 1 < |l| then l[k + 1] else NULL
  }

  /** The node has been moved to the new table: its old bucket is done, or it is no longer in what is left of it. */
  ghost predicate IsMoved<K, V>(n: Nodes<K, V>, cap: nat, newBuckets: seq<seq<Ref>>, i: nat, rest: seq<Ref>, r: Ref)
    requires r in n && cap > 0 && |newBuckets| > 0
  {
    var c := n[r].hash % cap;
    (r in newBuckets[n[r].hash % |newBuckets|] <==> c < i || (c == i && r !in rest))
  }

  ghost predicate InOld<K, V>(n: Nodes<K, V>, bs: seq<seq<Ref>>, r: Ref)
    requires r in n && |bs| > 0
  {
    r in bs[n[r].hash % |bs|]
  }

  /** Of the old buckets, those from `i` on are still to do, of bucket `i` only `rest`. */
  ghost predicate Moving<K(!new), V>(n0: Nodes<K, V>, n: Nodes<K, V>, t: seq<Ref>, bs: seq<seq<Ref>>,
                                     newTable: seq<Ref>, newBuckets: seq<seq<Ref>>, i: nat, rest: seq<Ref>) {
    && |t| > 0 && |bs| == |t| && |newTable| == |newBuckets| > 0 && NULL !in n && n.Keys == n0.Keys && i <= |t|
    && (forall r {:trigger SameEntry(n0, n, r)} :: r in n0 ==> SameEntry(n0, n, r))
    && (forall b {:trigger IsBucket(n, newTable[b], newBuckets[b], |newTable|, b)} :: 0 <= b < |newTable| ==>
          IsBucket(n, newTable[b], newBuckets[b], |newTable|, b))
    && Distinct(rest) && (forall k {:trigger NextOk(n, rest, k)} :: 0 <= k < |rest| ==> NextOk(n, rest, k))
    && (forall r :: r in rest ==> r in n && n[r].hash % |t| == i)
    && (forall c {:trigger IsBucket(n, t[c], bs[c], |t|, c)} :: i < c < |t| ==> IsBucket(n, t[c], bs[c], |t|, c))
    && (forall r {:trigger InOld(n, bs, r)} :: r in n ==> InOld(n, bs, r))
    && (forall r {:trigger IsMoved(n, |t|, newBuckets, i, rest, r)} :: r in n ==>
        IsMoved(n, |t|, newBuckets, i, rest, r))
  }

  lemma StartMoving<K(!new), V>(
      n: Nodes<K, V>, t: seq<Ref>, bs: seq<seq<Ref>>, hash: K -> nat, newTable: seq<Ref>, newBuckets: seq<seq<Ref>>)
    requires Holds(n, t, bs, hash) && |newTable| == |newBuckets| > 0
    requires forall b :: 0 <= b < |newTable| ==> newTable[b] == NULL && newBuckets[b] == []
    ensures Moving(n, n, t, bs, newTable, newBuckets, 0, bs[0])
  {
    hide OwnKey;
    assert IsBucket(n, t[0], bs[0], |t|, 0);
    forall k | 0 <= k < |bs[0]|
      ensures NextOk(n, bs[0], k)
    {
      assert NodeOk(n, bs[0], k);
    }
    forall r | r in n
      ensures IsMoved(n, |t|, newBuckets, 0, bs[0], r) && InOld(n, bs, r)
    {
      assert InPlace(n, bs, hash, r);
    }
  }

  function HeadOf(l: seq<Ref>): Ref {
    if l == [] then NULL else l[0]
  }

  lemma Heads<K(!new), V>(n: Nodes<K, V>, t: seq<Ref>, bs: seq<seq<Ref>>, hash: K -> nat)
    requires Holds(n, t, bs, hash)
    ensures |t| == |bs| && forall c :: 0 <= c < |t| ==> t[c] == HeadOf(bs[c])
  {
    forall c | 0 <= c < |t|
      ensures t[c] == HeadOf(bs[c])
    {
      assert IsBucket(n, t[c], bs[c], |t|, c);
    }
  }

  /** A node that is still to move is in no new bucket. */
  lemma StillOut<K(!new), V>(
      n0: Nodes<K, V>, n: Nodes<K, V>, t: seq<Ref>, bs: seq<seq<Ref>>, newTable: seq<Ref>, newBuckets: seq<seq<Ref>>,
      i: nat, rest: seq<Ref>, b: nat, s: Ref)
    requires Moving(n0, n, t, bs, newTable, newBuckets, i, rest) && b < |newBuckets|
    requires s in rest || exists c :: i < c < |t| && s in bs[c]
    ensures s in n && s !in newBuckets[b]
  {
    if s !in rest {
      var c :| i < c < |t| && s in bs[c];
      assert IsBucket(n, t[c], bs[c], |t|, c);
    }
    assert IsMoved(n, |t|, newBuckets, i, rest, s);
    assert IsBucket(n, newTable[b], newBuckets[b], |newTable|, b);
  }

  lemma MoveNode<K(!new), V>(
      n0: Nodes<K, V>, n: Nodes<K, V>, t: seq<Ref>, bs: seq<seq<Ref>>, newTable: seq<Ref>, newBuckets: seq<seq<Ref>>,
      i: nat, rest: seq<Ref>)
    requires Moving(n0, n, t, bs, newTable, newBuckets, i, rest) && rest != []
    ensures rest[0] in n && n[rest[0]].next == HeadOf(rest[1..])
    ensures |newTable| == |newBuckets| > 0
    ensures var r := rest[0]; var b := n[r].hash % |newTable|;
      Moving(n0, PushFront(n, newTable[b], r), t, bs, newTable[b := r], newBuckets[b := [r] + newBuckets[b]], i,
        rest[1..])
  {
    hide IsChain, PushFront, NodeOk, IsBucket, IsMoved, NextOk;
    var r := rest[0];
    assert NextOk(n, rest, 0);
    MoveNext(n, rest);
    var b := n[r].hash % |newTable|;
    var l := newBuckets[b];
    var newTable', newBuckets', rest' := newTable[b := r], newBuckets[b := [r] + l], rest[1..];
    StillOut(n0, n, t, bs, newTable, newBuckets, i, rest, b, r);
    assert IsBucket(n, newTable[b], l, |newTable|, b);
    BucketChain(n, newTable[b], l, |newTable|, b);
    PushKeeps(n, newTable[b], l, r);
    var m := PushFront(n, newTable[b], r);
    forall s | s in n0
      ensures SameEntry(n0, m, s)
    {
      assert SameEntry(n0, n, s) && SameEntry(n, m, s);
    }
    MakeBucket(n, m, r, l, |newTable|, b);
    forall c | 0 <= c < |newTable|
      ensures IsBucket(m, newTable'[c], newBuckets'[c], |newTable|, c)
    {
      if c != b {
        assert IsBucket(n, newTable[c], newBuckets[c], |newTable|, c);
        OtherBucket(n, m, newTable[c], newBuckets[c], |newTable|, c, r, l, b);
      }
    }
    forall k | 0 <= k < |rest'|
      ensures NextOk(m, rest', k)
    {
      StillOut(n0, n, t, bs, newTable, newBuckets, i, rest, b, rest[k + 1]);
      assert NextOk(n, rest, k + 1);
      NextShift(n, m, rest, k);
    }
    forall c | i < c < |t|
      ensures IsBucket(m, t[c], bs[c], |t|, c)
    {
      assert IsBucket(n, t[c], bs[c], |t|, c);
      LaterBucket(n0, n, t, bs, newTable, newBuckets, i, rest, b, c, m);
    }
    forall s | s in m
      ensures IsMoved(m, |t|, newBuckets', i, rest', s) && InOld(m, bs, s)
    {
      assert IsMoved(n, |t|, newBuckets, i, rest, s) && SameEntry(n, m, s) && InOld(n, bs, s);
      MovedOn(n, m, |t|, newBuckets, i, rest, s, b);
    }
  }

  lemma RestEnds<K(!new), V>(
      n0: Nodes<K, V>, n: Nodes<K, V>, t: seq<Ref>, bs: seq<seq<Ref>>, newTable: seq<Ref>, newBuckets: seq<seq<Ref>>,
      i: nat, rest: seq<Ref>)
    requires Moving(n0, n, t, bs, newTable, newBuckets, i, rest)
    ensures HeadOf(rest) == NULL ==> rest == []
  {
    hide IsBucket, IsMoved, InOld;
    assert rest != [] ==> NextOk(n, rest, 0);
  }

  lemma MoveNext<K, V>(n: Nodes<K, V>, rest: seq<Ref>)
    requires rest != [] && NextOk(n, rest, 0)
    ensures rest[0] in n && rest[0] != NULL && n[rest[0]].next == HeadOf(rest[1..])
  {
  }

  lemma BucketChain<K, V>(n: Nodes<K, V>, head: Ref, l: seq<Ref>, cap: nat, b: nat)
    requires cap > 0 && IsBucket(n, head, l, cap, b)
    ensures IsChain(n, head, l) && forall r :: r in l ==> r in n && n[r].hash % cap == b
  {
  }

  lemma MakeBucket<K, V>(n: Nodes<K, V>, m: Nodes<K, V>, r: Ref, l: seq<Ref>, cap: nat, b: nat)
    requires cap > 0 && IsChain(m, r, [r] + l) && r in n && n[r].hash % cap == b
    requires (forall s :: s in l ==> s in n && n[s].hash % cap == b)
    requires forall s :: s in n ==> SameEntry(n, m, s)
    ensures IsBucket(m, r, [r] + l, cap, b)
  {
    forall s | s in [r] + l
      ensures s in m && m[s].hash % cap == b
    {
      assert SameEntry(n, m, s);
    }
  }

  lemma OtherBucket<K, V>(
      n: Nodes<K, V>, m: Nodes<K, V>, head: Ref, k: seq<Ref>, cap: nat, c: nat, r: Ref, l: seq<Ref>, b: nat)
    requires cap > 0 && IsBucket(n, head, k, cap, c) && c != b && r in n && n[r].hash % cap == b
    requires forall s :: s in l ==> s in n && n[s].hash % cap == b
    requires m.Keys == n.Keys && forall s :: s in n && s !in l && s != r ==> m[s] == n[s]
    ensures IsBucket(m, head, k, cap, c)
  {
    ChainFrame(n, m, head, k);
  }

  lemma NextShift<K, V>(n: Nodes<K, V>, m: Nodes<K, V>, rest: seq<Ref>, k: nat)
    requires k + 1 < |rest| && NextOk(n, rest, k + 1) && rest[k + 1] in m && m[rest[k + 1]] == n[rest[k + 1]]
    ensures NextOk(m, rest[1..], k)
  {
  }

  lemma LaterBucket<K(!new), V>(
      n0: Nodes<K, V>, n: Nodes<K, V>, t: seq<Ref>, bs: seq<seq<Ref>>, newTable: seq<Ref>, newBuckets: seq<seq<Ref>>,
      i: nat, rest: seq<Ref>, b: nat, c: nat, m: Nodes<K, V>)
    requires Moving(n0, n, t, bs, newTable, newBuckets, i, rest) && rest != [] && b < |newBuckets| && i < c < |t|
    requires IsBucket(n, t[c], bs[c], |t|, c) && m.Keys == n.Keys
    requires forall s :: s in n && s !in newBuckets[b] && s != rest[0] ==> m[s] == n[s]
    ensures IsBucket(m, t[c], bs[c], |t|, c)
  {
    hide IsMoved, NextOk;
    forall s | s in bs[c]
      ensures s in m && m[s] == n[s]
    {
      StillOut(n0, n, t, bs, newTable, newBuckets, i, rest, b, s);
    }
    ChainFrame(n, m, t[c], bs[c]);
  }

  lemma MovedOn<K, V>(
      n: Nodes<K, V>, m: Nodes<K, V>, cap: nat, newBuckets: seq<seq<Ref>>, i: nat, rest: seq<Ref>, s: Ref, b: nat)
    requires cap > 0 && |newBuckets| > 0 && s in n && s in m && SameEntry(n, m, s)
    requires IsMoved(n, cap, newBuckets, i, rest, s)
    requires rest != [] && Distinct(rest) && rest[0] in n && n[rest[0]].hash % |newBuckets| == b
    requires n[rest[0]].hash % cap == i
    ensures IsMoved(m, cap, newBuckets[b := [rest[0]] + newBuckets[b]], i, rest[1..], s)
  {
    assert rest == [rest[0]] + rest[1..];
    assert s in rest <==> s == rest[0] || s in rest[1..];
    assert rest[0] !in rest[1..];
  }

  lemma NextBucket<K(!new), V>(
      n0: Nodes<K, V>, n: Nodes<K, V>, t: seq<Ref>, bs: seq<seq<Ref>>, newTable: seq<Ref>, newBuckets: seq<seq<Ref>>,
      i: nat)
    requires Moving(n0, n, t, bs, newTable, newBuckets, i, []) && i < |t|
    ensures Moving(n0, n, t, bs, newTable, newBuckets, i + 1, if i + 1 < |t| then bs[i + 1] else [])
  {
    var rest := if i + 1 < |t| then bs[i + 1] else [];
    if i + 1 < |t| {
      assert IsBucket(n, t[i + 1], bs[i + 1], |t|, i + 1);
      forall k | 0 <= k < |rest|
        ensures NextOk(n, rest, k)
      {
        assert NodeOk(n, rest, k);
      }
    }
    forall r | r in n
      ensures IsMoved(n, |t|, newBuckets, i + 1, rest, r)
    {
      assert IsMoved(n, |t|, newBuckets, i, [], r) && InOld(n, bs, r);
    }
  }

  lemma AllMoved<K(!new), V>(
      n0: Nodes<K, V>, n: Nodes<K, V>, t: seq<Ref>, bs: seq<seq<Ref>>,
      hash: K -> nat, newTable: seq<Ref>, newBuckets: seq<seq<Ref>>)
    requires Holds(n0, t, bs, hash) && Moving(n0, n, t, bs, newTable, newBuckets, |t|, [])
    ensures Holds(n, newTable, newBuckets, hash)
  {
    hide IsBucket;
    RemoveHashes(n0, t, bs, hash, n);
    forall r | r in n
      ensures InPlace(n, newBuckets, hash, r)
    {
      assert IsMoved(n, |t|, newBuckets, |t|, [], r);
    }
  }

  lemma MovedMeans<K(!new), V(!new)>(
      n0: Nodes<K, V>, n: Nodes<K, V>, t: seq<Ref>, bs: seq<seq<Ref>>, newTable: seq<Ref>, newBuckets: seq<seq<Ref>>,
      model: map<K, V>)
    requires Means(n0, model) && Moving(n0, n, t, bs, newTable, newBuckets, |t|, [])
    ensures Means(n, model)
  {
    MeansSame(n0, model, n);
  }

  lemma TableSize<K(!new), V>(n: Nodes<K, V>, table: seq<Ref>, buckets: seq<seq<Ref>>, hash: K -> nat)
    requires Holds(n, table, buckets, hash)
    ensures |table| > 0 && |buckets| == |table| && NULL !in n
    ensures forall b :: 0 <= b < |table| ==> IsBucket(n, table[b], buckets[b], |table|, b)
  {
  }

  lemma ValueFrame<K, V>(n: Nodes<K, V>, m: Nodes<K, V>, head: Ref, l: seq<Ref>)
    requires IsChain(n, head, l) && m.Keys == n.Keys
    requires forall s :: s in n ==> m[s].next == n[s].next && m[s].prev == n[s].prev
    ensures IsChain(m, head, l)
  {
    forall k | 0 <= k < |l|
      ensures NodeOk(m, l, k)
    {
      assert NodeOk(n, l, k);
    }
  }

  lemma NoSuchKey<K(!new), V(!new)>(n: Nodes<K, V>, model: map<K, V>, key: K)
    requires Means(n, model) && key !in model
    ensures forall r :: r in n ==> n[r].key != key
  {
  }

  lemma OverwriteKeeps<K(!new), V(!new)>(
      n: Nodes<K, V>, t: seq<Ref>, buckets: seq<seq<Ref>>, hash: K -> nat, model: map<K, V>, r: Ref, value: V)
    requires Holds(n, t, buckets, hash) && Means(n, model) && r in n
    ensures var m, model' := n[r := n[r].(value := value)], model[n[r].key := value];
      Holds(m, t, buckets, hash) && Means(m, model') && |model'| == |model|
  {
    hide Means;
    var m := n[r := n[r].(value := value)];
    OverwriteMeans(n, buckets, model, r, value, hash, t);
    forall b | 0 <= b < |t|
      ensures IsBucket(m, t[b], buckets[b], |t|, b)
    {
      assert IsBucket(n, t[b], buckets[b], |t|, b);
      ValueFrame(n, m, t[b], buckets[b]);
    }
    forall s | s in m
      ensures InPlace(m, buckets, hash, s) && OwnKey(m, s)
    {
      assert InPlace(n, buckets, hash, s) && OwnKey(n, s);
    }
  }

  lemma OverwriteMeans<K(!new), V(!new)>(
      n: Nodes<K, V>, buckets: seq<seq<Ref>>, model: map<K, V>, r: Ref, value: V, hash: K -> nat, t: seq<Ref>)
    requires Means(n, model) && r in n && Holds(n, t, buckets, hash)
    ensures var model' := model[n[r].key := value];
      Means(n[r := n[r].(value := value)], model') && |model'| == |model|
  {
    hide IsBucket, InPlace;
    var m, model' := n[r := n[r].(value := value)], model[n[r].key := value];
    forall k | k in model'
      ensures HasKey(m, k)
    {
      assert HasKey(n, k);
      var s :| s in n && n[s].key == k;
      assert m[s].key == k;
    }
    assert OwnKey(n, r);
    SizeOfMap(n);
    SizeOfMap(m);
    OneMore(model, n[r].key, value);
  }

  /** A new node with the key, before the head of its bucket. */
  function WithNode<K, V>(n: Nodes<K, V>, head: Ref, r: Ref, hash: nat, key: K, value: V): Nodes<K, V> {
    PushFront(n[r := Node(hash, key, value, NULL, NULL)], head, r)
  }

  /** Its bucket is linked, and no other entry changes. */
  lemma InsertChain<K(!new), V(!new)>(
      n: Nodes<K, V>, t: seq<Ref>, buckets: seq<seq<Ref>>, hash: K -> nat, r: Ref, key: K, value: V)
    requires Holds(n, t, buckets, hash) && r !in n && r != NULL && |t| > 0 && |buckets| == |t|
    ensures var b := hash(key) % |t|;
      var m := WithNode(n, t[b], r, hash(key), key, value);
      && IsBucket(m, r, [r] + buckets[b], |t|, b) && m.Keys == n.Keys + {r} && r !in buckets[b]
      && (forall s :: s in n ==> SameEntry(n, m, s)) && m[r].hash == hash(key) && m[r].key == key && m[r].value == value
      && (forall s :: s in n && s !in buckets[b] ==> m[s] == n[s])
  {
    hide Holds, OwnKey, InPlace, PushFront;
    TableSize(n, t, buckets, hash);
    var b := hash(key) % |t|;
    var l := buckets[b];
    assert IsBucket(n, t[b], l, |t|, b);
    ChainMembers(n, t[b], l);
    var n1 := n[r := Node(hash(key), key, value, NULL, NULL)];
    ChainFrame(n, n1, t[b], l);
    PushKeeps(n1, t[b], l, r);
    var m := PushFront(n1, t[b], r);
    assert SameEntry(n1, m, r);
    forall s | s in n
      ensures SameEntry(n, m, s)
    {
      assert SameEntry(n1, m, s);
    }
  }

  lemma InsertKeeps<K(!new), V(!new)>(
      n: Nodes<K, V>, t: seq<Ref>, buckets: seq<seq<Ref>>, hash: K -> nat, model: map<K, V>, r: Ref, key: K, value: V)
    requires Holds(n, t, buckets, hash) && Means(n, model) && r !in n && r != NULL && key !in model
    ensures |t| > 0 && |buckets| == |t|
    ensures var b := hash(key) % |t|;
      var m := WithNode(n, t[b], r, hash(key), key, value);
      && Holds(m, t[b := r], buckets[b := [r] + buckets[b]], hash)
      && Means(m, model[key := value]) && |model[key := value]| == |model| + 1
  {
    hide Holds, Means, OwnKey, InPlace, WithNode, IsBucket;
    TableSize(n, t, buckets, hash);
    InsertChain(n, t, buckets, hash, r, key, value);
    NoSuchKey(n, model, key);
    var b := hash(key) % |t|;
    var m := WithNode(n, t[b], r, hash(key), key, value);
    MeansMore(n, model, m, r, key, value);
    OneMore(model, key, value);
    InsertHolds(n, t, buckets, hash, m, r, key);
  }

  lemma InsertHolds<K(!new), V(!new)>(
      n: Nodes<K, V>, t: seq<Ref>, buckets: seq<seq<Ref>>, hash: K -> nat, m: Nodes<K, V>, r: Ref, key: K)
    requires Holds(n, t, buckets, hash) && |t| > 0 && |buckets| == |t| && r !in n && r != NULL
    requires m.Keys == n.Keys + {r} && m[r].key == key && m[r].hash == hash(key)
    requires (forall s :: s in n ==> SameEntry(n, m, s)) && forall s :: s in n ==> n[s].key != key
    requires var b := hash(key) % |t|;
      IsBucket(m, r, [r] + buckets[b], |t|, b) && r !in buckets[b] && forall s :: s in n && s !in buckets[b] ==>
        m[s] == n[s]
    ensures var b := hash(key) % |t|; Holds(m, t[b := r], buckets[b := [r] + buckets[b]], hash)
  {
    InsertHashes(n, t, buckets, hash, m, r, key);
    var b := hash(key) % |t|;
    assert NULL !in m;
    hide Holds, OwnKey, InPlace;
    BucketMembers(m, r, [r] + buckets[b], |t|, b);
    BucketChanged(n, t, buckets, hash, m, b, r, [r] + buckets[b]);
  }

  lemma BucketMembers<K, V>(m: Nodes<K, V>, head: Ref, l: seq<Ref>, cap: nat, b: nat)
    requires cap > 0 && IsBucket(m, head, l, cap, b)
    ensures forall s :: s in l ==> s in m
  {
  }

  lemma InsertHashes<K(!new), V(!new)>(
      n: Nodes<K, V>, t: seq<Ref>, buckets: seq<seq<Ref>>, hash: K -> nat, m: Nodes<K, V>, r: Ref, key: K)
    requires Holds(n, t, buckets, hash) && r !in n && m.Keys == n.Keys + {r} && m[r].key == key
    requires m[r].hash == hash(key)
    requires (forall s :: s in n ==> SameEntry(n, m, s)) && forall s :: s in n ==> n[s].key != key
    ensures forall s :: s in m ==> m[s].hash == hash(m[s].key)
    ensures forall s {:trigger OwnKey(m, s)} :: s in m ==> OwnKey(m, s)
  {
    hide IsBucket;
    forall s | s in m
      ensures m[s].hash == hash(m[s].key)
    {
      if s != r { assert SameEntry(n, m, s) && InPlace(n, buckets, hash, s); }
    }
    forall s | s in m
      ensures OwnKey(m, s)
    {
      if s != r { assert SameEntry(n, m, s) && OwnKey(n, s); }
      forall x | x in m && m[x].key == m[s].key
        ensures x == s
      {
        if x != r { assert SameEntry(n, m, x); }
      }
    }
  }

  lemma RemoveKeeps<K(!new), V(!new)>(
      n: Nodes<K, V>, t: seq<Ref>, buckets: seq<seq<Ref>>, hash: K -> nat, model: map<K, V>, r: Ref) returns (p: nat)
    requires Holds(n, t, buckets, hash) && Means(n, model) && r in n
    ensures |t| > 0 && |buckets| == |t|
    ensures var b := n[r].hash % |t|; var l := buckets[b];
      var head := if n[r].prev == NULL then n[r].next else t[b];
      p < |l| && Holds(Unlinked(n, r) - {r}, t[b := head], buckets[b := Without(l, p)], hash)
    ensures Means(Unlinked(n, r) - {r}, model - {n[r].key}) && |model - {n[r].key}| == |model| - 1
  {
    hide Means, Holds, InPlace, OwnKey, Unlinked, Without;
    TableSize(n, t, buckets, hash);
    var b := n[r].hash % |t|;
    var l := buckets[b];
    p := PlaceOf(n, t, buckets, hash, r);
    assert IsBucket(n, t[b], l, |t|, b);
    ChainMembers(n, t[b], l);
    UnlinkKeeps(n, t[b], l, p);
    var head := if n[r].prev == NULL then n[r].next else t[b];
    var m := Unlinked(n, r) - {r};
    ChainFrame(Unlinked(n, r), m, head, Without(l, p));
    forall s | s in m
      ensures SameEntry(n, m, s)
    {
      assert SameEntry(n, Unlinked(n, r), s);
    }
    MeansLess(n, model, m, r, hash);
    KeyOfNode(n, model, r);
    OneLess(model, n[r].key);
    RemoveHashes(n, t, buckets, hash, m);
    BucketChanged(n, t, buckets, hash, m, b, head, Without(l, p));
  }

  lemma PlaceOf<K(!new), V(!new)>(
      n: Nodes<K, V>, t: seq<Ref>, buckets: seq<seq<Ref>>, hash: K -> nat, r: Ref) returns (p: nat)
    requires Holds(n, t, buckets, hash) && r in n
    ensures |t| > 0 && |buckets| == |t| && var l := buckets[n[r].hash % |t|]; p < |l| && l[p] == r && OwnKey(n, r)
  {
    hide IsBucket;
    assert InPlace(n, buckets, hash, r) && OwnKey(n, r);
    var l := buckets[n[r].hash % |t|];
    p :| 0 <= p < |l| && l[p] == r;
  }

  lemma RemoveHashes<K(!new), V>(n: Nodes<K, V>, t: seq<Ref>, buckets: seq<seq<Ref>>, hash: K -> nat, m: Nodes<K, V>)
    requires Holds(n, t, buckets, hash) && m.Keys <= n.Keys && forall s :: s in m ==> SameEntry(n, m, s)
    ensures forall s :: s in m ==> m[s].hash == hash(m[s].key)
    ensures forall s {:trigger OwnKey(m, s)} :: s in m ==> OwnKey(m, s)
  {
    hide IsBucket;
    forall s | s in m
      ensures m[s].hash == hash(m[s].key) && OwnKey(m, s)
    {
      assert SameEntry(n, m, s) && InPlace(n, buckets, hash, s) && OwnKey(n, s);
      forall x | x in m && m[x].key == m[s].key
        ensures x == s
      {
        assert SameEntry(n, m, x);
      }
    }
  }

  lemma KeyOfNode<K(!new), V(!new)>(n: Nodes<K, V>, model: map<K, V>, r: Ref)
    requires Means(n, model) && r in n
    ensures n[r].key in model
  {
  }
}
