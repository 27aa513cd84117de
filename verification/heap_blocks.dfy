/**
  The shape of the boundary-tag heap, as values: which blocks tile the heap, how the tags
  and the free-list links in memory describe them, and what each elementary change keeps.

  A block is named by the address of its payload. It is preceded by a 4-byte header and
  followed by a 4-byte footer, both holding the same tag.
 */
module HeapBlocks {
  import opened Sequences
  import opened RawMemory

  const BORDER := 4
  /** Two links: the smallest payload, since a free block keeps its list links there. */
  const MIN_SIZE := 8

  datatype Block = Block(size: int, used: bool)
  type Blocks = map<int, Block>

  /** The payload address of the block to the right (or what it would be at the break). */
  function After(bs: Blocks, a: int): int
    requires a in bs
  {
    a + bs[a].size + 2 * BORDER
  }

  function Tag(b: Block): int {
    b.size + if b.used then 1 else 0
  }

  /** Every block has room for its links and its tags, and lies in [lo, hi). */
  ghost predicate Fits(bs: Blocks, lo: int, hi: int) {
    forall a :: a in bs ==> bs[a].size >= MIN_SIZE && lo + BORDER <= a && a + bs[a].size + BORDER <= hi
  }

  ghost predicate Even(bs: Blocks) {
    forall a :: a in bs ==> a % 2 == 0 && bs[a].size % 2 == 0
  }

  /** Each block is followed by another one or by the break. */
  ghost predicate Chained(bs: Blocks, hi: int) {
    forall a {:trigger After(bs, a)} :: a in bs && After(bs, a) != hi + BORDER ==> After(bs, a) in bs
  }

  ghost predicate Apart(bs: Blocks) {
    forall a, b :: a in bs && b in bs && a < b ==> a + bs[a].size + 2 * BORDER <= b
  }

  /** The blocks fill [lo, hi) one after the other without overlap. */
  ghost predicate Layout(bs: Blocks, lo: int, hi: int) {
    && 0 < lo && lo % 2 == 0 && hi % 2 == 0
    && lo + BORDER in bs
    && Fits(bs, lo, hi)
    && Even(bs)
    && Chained(bs, hi)
    && Apart(bs)
  }

  ghost predicate Tags(m: seq<Byte>, bs: Blocks) {
    forall a :: a in bs ==> Tagged(m, a, bs[a])
  }

  /** The links of the k-th element of `l` are in memory; 0 stands for NULL. */
  ghost predicate Link(m: seq<Byte>, l: seq<int>, k: int)
    requires 0 <= k < |l|
  {
    && 0 < l[k] && l[k] + MIN_SIZE <= |m|
    && Word(m, l[k]) == (if k == 0 then 0 else l[k - 1])
    && Word(m, l[k] + BORDER) == (if k == |l| - 1 then 0 else l[k + 1])
  }

  /** `l` is the doubly linked list starting at `head`, with its links in memory. */
  ghost predicate Linked(m: seq<Byte>, l: seq<int>, head: int) {
    && head == (if l == [] then 0 else l[0])
    && Distinct(l)
    && (forall k :: 0 <= k < |l| ==> Link(m, l, k))
  }

  /** `l` holds exactly the free blocks of one size class, except the loose ones. */
  ghost predicate Holds(l: seq<int>, bs: Blocks, loose: set<int>, cutoff: int, small: bool) {
    forall a :: a in l <==> a in bs && !bs[a].used && a !in loose && (bs[a].size < cutoff) == small
  }

  /** No two neighbouring blocks are both in a free list. */
  ghost predicate Coalesced(bs: Blocks, loose: set<int>) {
    forall a {:trigger After(bs, a)} ::
      a in bs && !bs[a].used && a !in loose && After(bs, a) in bs && After(bs, a) !in loose ==> bs[After(bs, a)].used
  }

  /** Both neighbours of `r`, where it has them, are in use. */
  ghost predicate Isolated(bs: Blocks, r: int)
    requires r in bs
  {
    && (After(bs, r) in bs ==> bs[After(bs, r)].used)
    && (forall a {:trigger After(bs, a)} :: a in bs && After(bs, a) == r ==> bs[a].used)
  }

  ghost predicate InMemory(m: seq<Byte>, bs: Blocks) {
    forall a :: a in bs ==> 0 <= a && 0 <= bs[a].size && a + bs[a].size <= |m|
  }

  /** The contents of the blocks in use: what a user of the allocator can observe. */
  ghost function Users(m: seq<Byte>, bs: Blocks): map<int, seq<Byte>> {
    map a | a in bs && bs[a].used && 0 <= a <= a + bs[a].size <= |m| :: m[a..a + bs[a].size]
  }

  /** Byte `x` belongs to block `a`, tags included. */
  ghost predicate Covers(bs: Blocks, a: int, x: int) {
    a in bs && a - BORDER <= x < After(bs, a) - BORDER
  }

  // ---------------------------------------------------------------------------
  // Tiling
  // ---------------------------------------------------------------------------

  lemma {:induction false} FindCover(bs: Blocks, lo: int, hi: int, from: int, x: int) returns (a: int)
    requires Layout(bs, lo, hi) && from in bs && from - BORDER <= x < hi
    ensures Covers(bs, a, x)
    decreases hi - from
  {
    if x < After(bs, from) - BORDER {
      a := from;
    } else {
      a := FindCover(bs, lo, hi, After(bs, from), x);
    }
  }

  /** The blocks tile the heap: every byte of [lo, hi) is in exactly one of them, no other byte in any. */
  lemma {:induction false} LayoutTiles(bs: Blocks, lo: int, hi: int, x: int)
    requires Layout(bs, lo, hi)
    ensures (exists a :: Covers(bs, a, x)) <==> lo <= x < hi
    ensures forall a, b :: Covers(bs, a, x) && Covers(bs, b, x) ==> a == b
  {
    if lo <= x < hi {
      var a := FindCover(bs, lo, hi, lo + BORDER, x);
    }
  }

  /** Every block but the first has a left neighbour. */
  lemma PreviousBlock(bs: Blocks, lo: int, hi: int, b: int) returns (p: int)
    requires Layout(bs, lo, hi) && b in bs && b != lo + BORDER
    ensures p in bs && After(bs, p) == b
  {
    p := FindCover(bs, lo, hi, lo + BORDER, b - BORDER - 1);
  }

  lemma LayoutInMemory(m: seq<Byte>, bs: Blocks, lo: int, hi: int)
    requires Layout(bs, lo, hi) && hi <= |m|
    ensures InMemory(m, bs)
  {
  }

  // ---------------------------------------------------------------------------
  // Changes of the block map
  // ---------------------------------------------------------------------------

  ghost function Split(bs: Blocks, a: int, n: int): Blocks
    requires a in bs
  {
    bs[a := Block(n, true)][a + n + 2 * BORDER := Block(bs[a].size - n - 2 * BORDER, false)]
  }

  lemma SplitKeepsChain(bs: Blocks, lo: int, hi: int, a: int, n: int)
    requires Layout(bs, lo, hi) && a in bs
    requires n >= MIN_SIZE && n % 2 == 0 && bs[a].size - n >= 2 * BORDER + MIN_SIZE
    ensures a + n + 2 * BORDER !in bs
    ensures Chained(Split(bs, a, n), hi)
  {
    var c := a + n + 2 * BORDER;
    var bs' := Split(bs, a, n);
    assert c !in bs;
    assert After(bs', a) == c && After(bs', c) == After(bs, a);
    forall x {:trigger After(bs', x)} | x in bs' && After(bs', x) != hi + BORDER
      ensures After(bs', x) in bs'
    {
      if x != a && x != c {
        assert After(bs', x) == After(bs, x);
      }
    }
  }

  lemma SplitKeepsApart(bs: Blocks, a: int, n: int)
    requires Apart(bs) && a in bs && 0 <= n && bs[a].size - n >= 2 * BORDER + MIN_SIZE
    ensures Apart(Split(bs, a, n))
  {
  }

  lemma LayoutSplit(bs: Blocks, lo: int, hi: int, a: int, n: int)
    requires Layout(bs, lo, hi) && a in bs
    requires n >= MIN_SIZE && n % 2 == 0 && bs[a].size - n >= 2 * BORDER + MIN_SIZE
    ensures a + n + 2 * BORDER !in bs
    ensures Layout(Split(bs, a, n), lo, hi)
  {
    SplitKeepsChain(bs, lo, hi, a, n);
    SplitKeepsApart(bs, a, n);
    hide Apart, Chained, After;
  }

  /** The blocks from `a` to `z` become one. */
  ghost function Fuse(bs: Blocks, a: int, z: int, used: bool): Blocks
    requires a in bs && z in bs
  {
    (map b | b in bs && !(a < b <= z) :: bs[b])[a := Block(z + bs[z].size - a, used)]
  }

  lemma FuseKeepsChain(bs: Blocks, lo: int, hi: int, a: int, z: int, used: bool)
    requires Layout(bs, lo, hi) && a in bs && z in bs && a <= z
    ensures Chained(Fuse(bs, a, z, used), hi)
  {
    var bs' := Fuse(bs, a, z, used);
    assert After(bs', a) == After(bs, z);
    forall x {:trigger After(bs', x)} | x in bs' && After(bs', x) != hi + BORDER
      ensures After(bs', x) in bs'
    {
      if x != a {
        assert After(bs', x) == After(bs, x);
      }
    }
  }

  lemma FuseKeepsApart(bs: Blocks, a: int, z: int, used: bool)
    requires Apart(bs) && a in bs && z in bs && a <= z
    ensures Apart(Fuse(bs, a, z, used))
  {
  }

  lemma LayoutFuse(bs: Blocks, lo: int, hi: int, a: int, z: int, used: bool)
    requires Layout(bs, lo, hi) && a in bs && z in bs && a <= z
    ensures Layout(Fuse(bs, a, z, used), lo, hi)
    ensures Fuse(bs, a, z, used)[a].size >= bs[a].size
  {
    hide After;
    FuseKeepsChain(bs, lo, hi, a, z, used);
    FuseKeepsApart(bs, a, z, used);
    assert a < z ==> a + bs[a].size + 2 * BORDER <= z;
    hide Apart;
    hide Chained;
  }

  lemma LayoutExtend(bs: Blocks, lo: int, hi: int, hi': int)
    requires Layout(bs, lo, hi) && hi' % 2 == 0 && hi' - hi >= 2 * BORDER + MIN_SIZE
    ensures hi + BORDER !in bs
    ensures Layout(bs[hi + BORDER := Block(hi' - hi - 2 * BORDER, false)], lo, hi')
  {
    var bs' := bs[hi + BORDER := Block(hi' - hi - 2 * BORDER, false)];
    forall x {:trigger After(bs', x)} | x in bs' && After(bs', x) != hi' + BORDER
      ensures After(bs', x) in bs'
    {
      if x != hi + BORDER {
        assert After(bs', x) == After(bs, x);
      }
    }
  }

  // ---------------------------------------------------------------------------
  // Frames: which writes leave which words alone
  // ---------------------------------------------------------------------------

  /** The two memories differ at most in [x, y). */
  ghost predicate OnlyChanged(m: seq<Byte>, m': seq<Byte>, x: int, y: int) {
    && |m| == |m'|
    && forall i :: 0 <= i < |m| && !(x <= i < y) ==> m[i] == m'[i]
  }

  lemma SameWord(m: seq<Byte>, m': seq<Byte>, a: int, x: int, y: int)
    requires 0 <= a && a + 4 <= |m| && OnlyChanged(m, m', x, y) && (a + 4 <= x || y <= a)
    ensures Word(m, a) == Word(m', a)
  {
  }

  /** The tags of block `a` are in memory. */
  ghost predicate Tagged(m: seq<Byte>, a: int, b: Block) {
    && BORDER <= a && 0 <= b.size && a + b.size + BORDER <= |m|
    && Word(m, a - BORDER) == Tag(b)
    && Word(m, a + b.size) == Tag(b)
  }

  /** Blocks outside a rewritten stretch [x, y) keep their tags. */
  lemma TagsAfterRewrite(m: seq<Byte>, m': seq<Byte>, bs: Blocks, bs': Blocks, x: int, y: int)
    requires Tags(m, bs) && OnlyChanged(m, m', x, y)
    requires forall b :: b in bs' ==>
      Tagged(m', b, bs'[b]) || (b in bs && bs[b] == bs'[b] && (b + bs[b].size + BORDER <= x || y <= b - BORDER))
    ensures Tags(m', bs')
  {
    forall b | b in bs'
      ensures Tagged(m', b, bs'[b])
    {
      if b in bs && bs[b] == bs'[b] && (b + bs[b].size + BORDER <= x || y <= b - BORDER) {
        assert Tagged(m, b, bs[b]);
        SameWord(m, m', b - BORDER, x, y);
        SameWord(m, m', b + bs[b].size, x, y);
      }
    }
  }

  /** A list none of whose elements' links are touched stays linked. */
  lemma LinkedFrame(m: seq<Byte>, m': seq<Byte>, l: seq<int>, head: int)
    requires Linked(m, l, head) && |m| == |m'|
    requires forall a :: a in l ==> SameBytes(m, m', a, a + MIN_SIZE)
    ensures Linked(m', l, head)
  {
    forall k | 0 <= k < |l|
      ensures Link(m', l, k)
    {
      assert Link(m, l, k);
      assert l[k] in l;
    }
  }

  lemma UsersFrame(m: seq<Byte>, m': seq<Byte>, bs: Blocks, bs': Blocks)
    requires InMemory(m, bs) && InMemory(m', bs')
    requires forall a :: a in bs && bs[a].used <==> a in bs' && bs'[a].used
    requires forall a :: a in bs && bs[a].used ==> bs'[a].size == bs[a].size && SameBytes(m, m', a, a + bs[a].size)
    ensures Users(m', bs') == Users(m, bs)
  {
    forall a | a in bs && bs[a].used
      ensures m'[a..a + bs[a].size] == m[a..a + bs[a].size]
    {
    }
  }

  // ---------------------------------------------------------------------------
  // Free lists
  // ---------------------------------------------------------------------------

  /** The addresses next to position `k` of a list, 0 where there is none. */
  function PrevOf(l: seq<int>, k: int): int
    requires 0 <= k < |l|
  {
    if k == 0 then 0 else l[k - 1]
  }

  function NextOf(l: seq<int>, k: int): int
    requires 0 <= k < |l|
  {
    if k == |l| - 1 then 0 else l[k + 1]
  }

  /** The link words of different elements do not overlap. */
  ghost predicate Spaced(l: seq<int>) {
    forall i, j :: 0 <= i < |l| && 0 <= j < |l| && i != j ==> l[i] + MIN_SIZE <= l[j] || l[j] + MIN_SIZE <= l[i]
  }

  lemma HeldIsSpaced(l: seq<int>, bs: Blocks, lo: int, hi: int)
    requires Layout(bs, lo, hi) && Distinct(l)
    requires forall a :: a in l ==> a in bs
    ensures Spaced(l)
  {
    forall i, j | 0 <= i < |l| && 0 <= j < |l| && i != j
      ensures l[i] + MIN_SIZE <= l[j] || l[j] + MIN_SIZE <= l[i]
    {
      assert l[i] in bs && l[j] in bs;
      assert l[i] != l[j] by {
        if i < j { assert l[i] != l[j]; } else { assert l[j] != l[i]; }
      }
    }
  }

  /** What pushing `a` in front of the list headed by `head` writes. */
  function PushLinks(m: seq<Byte>, a: int, head: int): (m': seq<Byte>)
    requires 0 <= a && a + MIN_SIZE <= |m|
    requires 0 <= head < WORD_LIMIT && head + BORDER <= |m| && 0 <= a < WORD_LIMIT
    ensures |m'| == |m|
  {
    var m1 := SetWord(SetWord(m, a, 0), a + BORDER, head);
    if head == 0 then m1 else SetWord(m1, head, a)
  }

  /** The links of an element behind the new front. */
  lemma PushOne(m: seq<Byte>, l: seq<int>, head: int, a: int, k: int)
    requires Linked(m, l, head) && |m| < WORD_LIMIT && 0 <= k < |l|
    requires 0 < a && a + MIN_SIZE <= |m| && Spaced([a] + l)
    requires 0 <= head < WORD_LIMIT && head + BORDER <= |m|
    ensures var m' := PushLinks(m, a, head);
      && 0 < l[k] && l[k] + MIN_SIZE <= |m|
      && Word(m', l[k]) == (if k == 0 then a else l[k - 1])
      && Word(m', l[k] + BORDER) == NextOf(l, k)
  {
    hide SetWord;
    hide Word;
    var l' := [a] + l;
    var b := l[k];
    assert l'[k + 1] == b && Link(m, l, k);
    assert l'[0] + MIN_SIZE <= l'[k + 1] || l'[k + 1] + MIN_SIZE <= l'[0];
    var m1 := SetWord(m, a, 0);
    SetWordElsewhere(m, a, 0, b);
    SetWordElsewhere(m, a, 0, b + BORDER);
    var m2 := SetWord(m1, a + BORDER, head);
    SetWordElsewhere(m1, a + BORDER, head, b);
    SetWordElsewhere(m1, a + BORDER, head, b + BORDER);
    assert l'[1] == head;
    SetWordElsewhere(m2, head, a, b + BORDER);
    if k > 0 {
      assert l'[1] + MIN_SIZE <= l'[k + 1] || l'[k + 1] + MIN_SIZE <= l'[1];
      SetWordElsewhere(m2, head, a, b);
    }
  }

  lemma PushFirst(m: seq<Byte>, l: seq<int>, head: int, a: int)
    requires Linked(m, l, head) && |m| < WORD_LIMIT
    requires 0 < a && a + MIN_SIZE <= |m| && Spaced([a] + l)
    requires 0 <= head < WORD_LIMIT && head + BORDER <= |m|
    ensures var m' := PushLinks(m, a, head); Word(m', a) == 0 && Word(m', a + BORDER) == head
  {
    hide SetWord;
    hide Word;
    var l' := [a] + l;
    var m1 := SetWord(m, a, 0);
    var m2 := SetWord(m1, a + BORDER, head);
    SetWordElsewhere(m1, a + BORDER, head, a);
    if l != [] {
      assert l'[0] + MIN_SIZE <= l'[1] || l'[1] + MIN_SIZE <= l'[0];
      SetWordElsewhere(m2, head, a, a);
      SetWordElsewhere(m2, head, a, a + BORDER);
    }
  }

  lemma PushKeepsLinked(m: seq<Byte>, l: seq<int>, head: int, a: int)
    requires Linked(m, l, head) && |m| < WORD_LIMIT
    requires 0 < a && a + MIN_SIZE <= |m| && a !in l && Spaced([a] + l)
    requires 0 <= head < WORD_LIMIT && head + BORDER <= |m|
    ensures Linked(PushLinks(m, a, head), [a] + l, a)
  {
    hide PushLinks;
    hide Word;
    var m' := PushLinks(m, a, head);
    var l' := [a] + l;
    forall k | 0 <= k < |l'|
      ensures Link(m', l', k)
    {
      if k == 0 {
        PushFirst(m, l, head, a);
      } else {
        PushOne(m, l, head, a, k - 1);
      }
    }
    forall i, j | 0 <= i < j < |l'|
      ensures l'[i] != l'[j]
    {
      assert l'[j] == l[j - 1] && l[j - 1] in l;
      if i > 0 { assert l'[i] == l[i - 1]; }
    }
  }

  /** What unlinking `a` writes, given its current links. */
  function UnlinkLinks(m: seq<Byte>, a: int, prev: int, next: int): (m': seq<Byte>)
    requires 0 <= a && a + MIN_SIZE <= |m|
    requires 0 <= prev < WORD_LIMIT && 0 <= next < WORD_LIMIT
    requires prev + MIN_SIZE <= |m| && next + MIN_SIZE <= |m|
    ensures |m'| == |m|
  {
    var m1 := if prev == 0 then m else SetWord(m, prev + BORDER, next);
    var m2 := if next == 0 then m1 else SetWord(m1, next, prev);
    SetWord(SetWord(m2, a, 0), a + BORDER, 0)
  }

  lemma NeighboursInMemory(m: seq<Byte>, l: seq<int>, head: int, k: int)
    requires Linked(m, l, head) && |m| < WORD_LIMIT && 0 <= k < |l|
    ensures Link(m, l, k)
    ensures 0 <= PrevOf(l, k) < WORD_LIMIT && 0 <= NextOf(l, k) < WORD_LIMIT
    ensures k > 0 ==> 0 < PrevOf(l, k) && PrevOf(l, k) + MIN_SIZE <= |m|
    ensures k < |l| - 1 ==> 0 < NextOf(l, k) && NextOf(l, k) + MIN_SIZE <= |m|
    ensures PrevOf(l, k) + MIN_SIZE <= |m| && NextOf(l, k) + MIN_SIZE <= |m|
  {
    assert Link(m, l, k);
    if k > 0 { assert Link(m, l, k - 1); }
    if k < |l| - 1 { assert Link(m, l, k + 1); }
  }

  /** The links of one surviving element after the unlinking. */
  lemma UnlinkOne(m: seq<Byte>, l: seq<int>, head: int, k: int, j: int)
    requires Linked(m, l, head) && |m| < WORD_LIMIT && Spaced(l) && 0 <= k < |l| && 0 <= j < |l| && j != k
    requires 0 <= PrevOf(l, k) < WORD_LIMIT && PrevOf(l, k) + MIN_SIZE <= |m|
    requires 0 <= NextOf(l, k) < WORD_LIMIT && NextOf(l, k) + MIN_SIZE <= |m|
    requires Link(m, l, k)
    ensures var m' := UnlinkLinks(m, l[k], PrevOf(l, k), NextOf(l, k));
      && 0 < l[j] && l[j] + MIN_SIZE <= |m|
      && Word(m', l[j]) == (if j == k + 1 then PrevOf(l, k) else PrevOf(l, j))
      && Word(m', l[j] + BORDER) == (if j == k - 1 then NextOf(l, k) else NextOf(l, j))
  {
    hide SetWord; hide Word;
    var prev, next := PrevOf(l, k), NextOf(l, k);
    NeighboursInMemory(m, l, head, k);
    NeighboursInMemory(m, l, head, j);
    var a, b := l[k], l[j];
    assert a + MIN_SIZE <= b || b + MIN_SIZE <= a;
    var m1 := if prev == 0 then m else SetWord(m, prev + BORDER, next);
    assert Word(m1, b) == Word(m, b) && Word(m1, b + BORDER) == (if j == k - 1 then next else Word(m, b + BORDER)) by {
      if prev != 0 && j != k - 1 { assert prev + MIN_SIZE <= b || b + MIN_SIZE <= prev; }
      if prev != 0 {
        SetWordElsewhere(m, prev + BORDER, next, b);
        if j != k - 1 { SetWordElsewhere(m, prev + BORDER, next, b + BORDER); }
      }
    }
    var m2 := if next == 0 then m1 else SetWord(m1, next, prev);
    assert Word(m2, b + BORDER) == Word(m1, b + BORDER)
      && Word(m2, b) == (if j == k + 1 then prev else Word(m1, b)) by {
      if next != 0 && j != k + 1 { assert next + MIN_SIZE <= b || b + MIN_SIZE <= next; }
      if next != 0 {
        SetWordElsewhere(m1, next, prev, b + BORDER);
        if j != k + 1 { SetWordElsewhere(m1, next, prev, b); }
      }
    }
    var m3 := SetWord(m2, a, 0);
    SetWordElsewhere(m2, a, 0, b);
    SetWordElsewhere(m2, a, 0, b + BORDER);
    SetWordElsewhere(m3, a + BORDER, 0, b);
    SetWordElsewhere(m3, a + BORDER, 0, b + BORDER);
  }

  lemma UnlinkLink(m: seq<Byte>, l: seq<int>, head: int, k: int, i: int)
    requires Linked(m, l, head) && |m| < WORD_LIMIT && Spaced(l) && 0 <= k < |l| && 0 <= i < |l| - 1
    requires 0 <= PrevOf(l, k) < WORD_LIMIT && PrevOf(l, k) + MIN_SIZE <= |m|
    requires 0 <= NextOf(l, k) < WORD_LIMIT && NextOf(l, k) + MIN_SIZE <= |m|
    requires Link(m, l, k)
    ensures Link(UnlinkLinks(m, l[k], PrevOf(l, k), NextOf(l, k)), Without(l, k), i)
  {
    hide UnlinkLinks, Word, Spaced, Linked;
    UnlinkOne(m, l, head, k, if i < k then i else i + 1);
  }

  lemma UnlinkKeepsLinked(m: seq<Byte>, l: seq<int>, head: int, k: int)
    requires Linked(m, l, head) && |m| < WORD_LIMIT && Spaced(l) && 0 <= k < |l|
    ensures Link(m, l, k)
    ensures 0 <= PrevOf(l, k) < WORD_LIMIT && PrevOf(l, k) + MIN_SIZE <= |m|
    ensures 0 <= NextOf(l, k) < WORD_LIMIT && NextOf(l, k) + MIN_SIZE <= |m|
    ensures Linked(UnlinkLinks(m, l[k], PrevOf(l, k), NextOf(l, k)), Without(l, k), if k == 0 then NextOf(l, k)
      else head)
  {
    hide UnlinkLinks;
    hide Word;
    NeighboursInMemory(m, l, head, k);
    var m' := UnlinkLinks(m, l[k], PrevOf(l, k), NextOf(l, k));
    var l' := Without(l, k);
    WithoutMembers(l, k);
    hide Spaced, Link;
    forall i | 0 <= i < |l'|
      ensures Link(m', l', i)
    {
      UnlinkLink(m, l, head, k, i);
    }
  }
}
