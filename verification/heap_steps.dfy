/**
  The elementary steps of the allocator as functions on a snapshot of the whole heap, with
  what each of them keeps. `Good(s, loose)` is the allocator's invariant while the blocks in
  `loose` are out of the free lists.
 */
module HeapSteps {
  import opened Sequences
  import opened RawMemory
  import opened HeapBlocks

  datatype Snap = Snap(
    m: seq<Byte>, lo: int, hi: int, cutoff: int,
    bs: Blocks,
    small: seq<int>, smallHead: int,
    large: seq<int>, largeHead: int)

  ghost predicate Good(s: Snap, loose: set<int>) {
    && s.hi <= |s.m| < WORD_LIMIT
    && Layout(s.bs, s.lo, s.hi)
    && Tags(s.m, s.bs)
    && Linked(s.m, s.small, s.smallHead) && Holds(s.small, s.bs, loose, s.cutoff, true)
    && Linked(s.m, s.large, s.largeHead) && Holds(s.large, s.bs, loose, s.cutoff, false)
    && Coalesced(s.bs, loose)
  }

  /** What users see: the payload of every block in use. */
  ghost function Contents(s: Snap): map<int, seq<Byte>> {
    Users(s.m, s.bs)
  }

  lemma GoodLayout(s: Snap, loose: set<int>)
    requires Good(s, loose)
    ensures Layout(s.bs, s.lo, s.hi)
  {
  }

  lemma GoodInMemory(s: Snap, loose: set<int>)
    requires Good(s, loose)
    ensures InMemory(s.m, s.bs)
  {
    LayoutInMemory(s.m, s.bs, s.lo, s.hi);
  }

  /** The list a free block of this size belongs to. */
  function ListOf(s: Snap, size: int): seq<int> {
    if size < s.cutoff then s.small else s.large
  }

  // ---------------------------------------------------------------------------
  // Taking a free block out of its list
  // ---------------------------------------------------------------------------

  ghost predicate CanUnlink(s: Snap, a: int, k: int) {
    && a in s.bs
    && var l := ListOf(s, s.bs[a].size);
    && 0 <= k < |l| && l[k] == a
    && 0 <= a && a + MIN_SIZE <= |s.m|
    && 0 <= PrevOf(l, k) < WORD_LIMIT && PrevOf(l, k) + MIN_SIZE <= |s.m|
    && 0 <= NextOf(l, k) < WORD_LIMIT && NextOf(l, k) + MIN_SIZE <= |s.m|
  }

  ghost function Unlinked(s: Snap, a: int, k: int): Snap
    requires CanUnlink(s, a, k)
  {
    var l := ListOf(s, s.bs[a].size);
    var m' := UnlinkLinks(s.m, a, PrevOf(l, k), NextOf(l, k));
    if s.bs[a].size < s.cutoff then
      s.(m := m', small := Without(l, k), smallHead := if k == 0 then NextOf(l, k) else s.smallHead)
    else
      s.(m := m', large := Without(l, k), largeHead := if k == 0 then NextOf(l, k) else s.largeHead)
  }

  ghost predicate InLinks(l: seq<int>, i: int) {
    exists k :: 0 <= k < |l| && l[k] <= i < l[k] + MIN_SIZE
  }

  /** The memories agree outside the link words of the elements of `l`. */
  ghost predicate LinksOnly(m: seq<Byte>, m': seq<Byte>, l: seq<int>) {
    && |m| == |m'|
    && forall i :: 0 <= i < |m| && m[i] != m'[i] ==> InLinks(l, i)
  }

  /** A byte of block `b` (tags included) that belongs to some element's links belongs to `b`'s own. */
  lemma LinksInside(bs: Blocks, lo: int, hi: int, l: seq<int>, b: int, i: int)
    requires Layout(bs, lo, hi) && b in bs && (forall a :: a in l ==> a in bs)
    requires InLinks(l, i) && b - BORDER <= i < b + bs[b].size + BORDER
    ensures b in l && b <= i < b + MIN_SIZE
  {
    var k :| 0 <= k < |l| && l[k] <= i < l[k] + MIN_SIZE;
    assert l[k] in bs;
  }

  /** Relinking free blocks touches no tag and no block outside the list. */
  lemma LinksOnlyFrame(m: seq<Byte>, bs: Blocks, lo: int, hi: int, m': seq<Byte>, l: seq<int>)
    requires Layout(bs, lo, hi) && hi <= |m| && Tags(m, bs) && LinksOnly(m, m', l)
    requires forall a :: a in l ==> a in bs
    ensures Tags(m', bs)
    ensures forall b :: b in bs && b !in l ==> SameBytes(m, m', b, b + bs[b].size)
  {
    forall b | b in bs
      ensures Tagged(m', b, bs[b])
      ensures b !in l ==> SameBytes(m, m', b, b + bs[b].size)
    {
      assert Tagged(m, b, bs[b]);
      forall i | b - BORDER <= i < b + bs[b].size + BORDER && InLinks(l, i)
        ensures b in l && b <= i < b + MIN_SIZE
      {
        LinksInside(bs, lo, hi, l, b, i);
      }
      hide InLinks;
      hide Layout;
    }
  }

  lemma UnlinkWrites(m: seq<Byte>, l: seq<int>, k: int)
    requires 0 <= k < |l| && 0 <= l[k] && l[k] + MIN_SIZE <= |m|
    requires 0 <= PrevOf(l, k) < WORD_LIMIT && PrevOf(l, k) + MIN_SIZE <= |m|
    requires 0 <= NextOf(l, k) < WORD_LIMIT && NextOf(l, k) + MIN_SIZE <= |m|
    ensures LinksOnly(m, UnlinkLinks(m, l[k], PrevOf(l, k), NextOf(l, k)), l)
  {
    var m' := UnlinkLinks(m, l[k], PrevOf(l, k), NextOf(l, k));
    forall i | 0 <= i < |m| && m[i] != m'[i]
      ensures InLinks(l, i)
    {
      if !(l[k] <= i < l[k] + MIN_SIZE) {
        assert (k > 0 && l[k - 1] <= i < l[k - 1] + MIN_SIZE) || (k < |l| - 1 && l[k + 1] <= i < l[k + 1] + MIN_SIZE);
      }
    }
  }

  lemma UnlinkedHolds(l: seq<int>, k: int, other: seq<int>, bs: Blocks, loose: set<int>, cutoff: int, small: bool)
    requires Distinct(l) && 0 <= k < |l| && Holds(l, bs, loose, cutoff, small)
    requires Holds(other, bs, loose, cutoff, !small)
    ensures Holds(Without(l, k), bs, loose + {l[k]}, cutoff, small)
    ensures Holds(other, bs, loose + {l[k]}, cutoff, !small)
  {
    WithoutMembers(l, k);
    assert l[k] in l;
  }

  /** What relinking the blocks of `l` leaves alone: the tags, the other list and the used blocks. */
  lemma RelinkFrame(
      m: seq<Byte>, m': seq<Byte>, bs: Blocks, lo: int, hi: int, l: seq<int>, other: seq<int>, otherHead: int)
    requires hi <= |m| && Layout(bs, lo, hi) && Tags(m, bs) && LinksOnly(m, m', l)
    requires forall a :: a in l ==> a in bs && !bs[a].used
    requires forall a :: a in other ==> a in bs && a !in l
    requires Linked(m, other, otherHead)
    ensures Tags(m', bs)
    ensures Linked(m', other, otherHead)
    ensures forall b :: b in bs && bs[b].used ==> SameBytes(m, m', b, b + bs[b].size)
  {
    hide Linked;
    hide Tags;
    LinksOnlyFrame(m, bs, lo, hi, m', l);
    forall b | b in other
      ensures SameBytes(m, m', b, b + MIN_SIZE)
    {
      assert SameBytes(m, m', b, b + bs[b].size);
    }
    LinkedFrame(m, m', other, otherHead);
  }

  /** Unlinking from one list: what happens to memory, to that list and to the other one. */
  lemma UnlinkFromList(
      m: seq<Byte>, bs: Blocks, lo: int, hi: int, l: seq<int>, head: int, other: seq<int>, otherHead: int, k: int)
    requires hi <= |m| < WORD_LIMIT && Layout(bs, lo, hi) && Tags(m, bs)
    requires Linked(m, l, head) && Linked(m, other, otherHead)
    requires forall a :: a in l ==> a in bs && !bs[a].used
    requires forall a :: a in other ==> a in bs && a !in l
    requires 0 <= k < |l|
    ensures l[k] in bs && 0 <= l[k] && l[k] + MIN_SIZE <= |m|
    ensures 0 <= PrevOf(l, k) < WORD_LIMIT && PrevOf(l, k) + MIN_SIZE <= |m|
    ensures 0 <= NextOf(l, k) < WORD_LIMIT && NextOf(l, k) + MIN_SIZE <= |m|
    ensures var m' := UnlinkLinks(m, l[k], PrevOf(l, k), NextOf(l, k));
      && Tags(m', bs)
      && Linked(m', Without(l, k), if k == 0 then NextOf(l, k) else head)
      && Linked(m', other, otherHead)
      && (forall b :: b in bs && bs[b].used ==> SameBytes(m, m', b, b + bs[b].size))
  {
    hide UnlinkLinks;
    hide Spaced;
    hide Without;
    hide Tags;
    hide SameBytes;
    hide LinksOnly;
    hide Word;
    assert l[k] in l;
    HeldIsSpaced(l, bs, lo, hi);
    UnlinkKeepsLinked(m, l, head, k);
    UnlinkWrites(m, l, k);
    RelinkFrame(m, UnlinkLinks(m, l[k], PrevOf(l, k), NextOf(l, k)), bs, lo, hi, l, other, otherHead);
  }

  lemma UnlinkLists(s: Snap, loose: set<int>, a: int, k: int)
    requires Good(s, loose) && a in s.bs
    requires var l := ListOf(s, s.bs[a].size); 0 <= k < |l| && l[k] == a
    ensures CanUnlink(s, a, k)
    ensures Good(Unlinked(s, a, k), loose + {a})
    ensures forall b :: b in s.bs && s.bs[b].used ==> SameBytes(s.m, Unlinked(s, a, k).m, b, b + s.bs[b].size)
  {
    hide UnlinkLinks;
    hide Linked;
    hide Spaced;
    hide Tags;
    hide Without;
    if s.bs[a].size < s.cutoff {
      assert forall b :: b in s.large ==> b !in s.small;
      UnlinkFromList(s.m, s.bs, s.lo, s.hi, s.small, s.smallHead, s.large, s.largeHead, k);
      assert Distinct(s.small) by { LinkedDistinct(s.m, s.small, s.smallHead); }
      UnlinkedHolds(s.small, k, s.large, s.bs, loose, s.cutoff, true);
    } else {
      assert forall b :: b in s.small ==> b !in s.large;
      UnlinkFromList(s.m, s.bs, s.lo, s.hi, s.large, s.largeHead, s.small, s.smallHead, k);
      assert Distinct(s.large) by { LinkedDistinct(s.m, s.large, s.largeHead); }
      UnlinkedHolds(s.large, k, s.small, s.bs, loose, s.cutoff, false);
    }
    hide Holds;
    hide Layout;
  }

  lemma LinkedDistinct(m: seq<Byte>, l: seq<int>, head: int)
    requires Linked(m, l, head)
    ensures Distinct(l)
  {
  }

  lemma ContentsFrame(s: Snap, s': Snap, loose: set<int>, loose': set<int>)
    requires Good(s, loose) && Good(s', loose')
    requires forall a :: a in s.bs && s.bs[a].used <==> a in s'.bs && s'.bs[a].used
    requires forall a :: a in s.bs && s.bs[a].used ==>
      s'.bs[a].size == s.bs[a].size && SameBytes(s.m, s'.m, a, a + s.bs[a].size)
    ensures Contents(s') == Contents(s)
  {
    GoodInMemory(s, loose);
    GoodInMemory(s', loose');
    hide Good;
    hide InMemory;
    hide SameBytes;
    hide Users;
    UsersFrame(s.m, s'.m, s.bs, s'.bs);
  }

  /** shal_remove_fb: a listed block becomes loose, and nothing a user sees changes. */
  lemma UnlinkStep(s: Snap, loose: set<int>, a: int, k: int)
    requires Good(s, loose) && a in s.bs
    requires var l := ListOf(s, s.bs[a].size); 0 <= k < |l| && l[k] == a
    ensures CanUnlink(s, a, k)
    ensures Good(Unlinked(s, a, k), loose + {a})
    ensures Contents(Unlinked(s, a, k)) == Contents(s)
  {
    hide Good;
    hide SameBytes;
    hide InMemory;
    UnlinkLists(s, loose, a, k);
    ContentsFrame(s, Unlinked(s, a, k), loose, loose + {a});
  }

  // ---------------------------------------------------------------------------
  // Putting a loose free block at the front of its list
  // ---------------------------------------------------------------------------

  ghost function HeadOf(s: Snap, size: int): int {
    if size < s.cutoff then s.smallHead else s.largeHead
  }

  ghost predicate CanPush(s: Snap, a: int) {
    && a in s.bs
    && 0 <= a < WORD_LIMIT && a + MIN_SIZE <= |s.m|
    && 0 <= HeadOf(s, s.bs[a].size) < WORD_LIMIT && HeadOf(s, s.bs[a].size) + BORDER <= |s.m|
  }

  ghost function Pushed(s: Snap, a: int): Snap
    requires CanPush(s, a)
  {
    var m' := PushLinks(s.m, a, HeadOf(s, s.bs[a].size));
    if s.bs[a].size < s.cutoff then
      s.(m := m', small := [a] + s.small, smallHead := a)
    else
      s.(m := m', large := [a] + s.large, largeHead := a)
  }

  lemma PushWrites(m: seq<Byte>, l: seq<int>, head: int, a: int)
    requires 0 <= a < WORD_LIMIT && a + MIN_SIZE <= |m|
    requires 0 <= head < WORD_LIMIT && head + BORDER <= |m|
    requires head == (if l == [] then 0 else l[0])
    ensures LinksOnly(m, PushLinks(m, a, head), [a] + l)
  {
    var m' := PushLinks(m, a, head);
    var l' := [a] + l;
    forall i | 0 <= i < |m| && m[i] != m'[i]
      ensures InLinks(l', i)
    {
      if !(l'[0] <= i < l'[0] + MIN_SIZE) {
        assert head != 0 && l'[1] <= i < l'[1] + MIN_SIZE;
      }
    }
  }

  lemma HeadInMemory(m: seq<Byte>, l: seq<int>, head: int)
    requires Linked(m, l, head) && MIN_SIZE <= |m| < WORD_LIMIT
    ensures 0 <= head < WORD_LIMIT && head + MIN_SIZE <= |m|
    ensures head == (if l == [] then 0 else l[0])
  {
    if l != [] { assert Link(m, l, 0); }
  }

  lemma PushToList(
      m: seq<Byte>, bs: Blocks, lo: int, hi: int, l: seq<int>, head: int, other: seq<int>, otherHead: int, a: int)
    requires hi <= |m| < WORD_LIMIT && Layout(bs, lo, hi) && Tags(m, bs)
    requires Linked(m, l, head) && Linked(m, other, otherHead)
    requires a in bs && !bs[a].used && a !in l && a !in other
    requires forall b :: b in l ==> b in bs && !bs[b].used
    requires forall b :: b in other ==> b in bs && b !in l
    ensures 0 <= a < WORD_LIMIT && a + MIN_SIZE <= |m|
    ensures 0 <= head < WORD_LIMIT && head + BORDER <= |m|
    ensures var m' := PushLinks(m, a, head);
      && Tags(m', bs)
      && Linked(m', [a] + l, a)
      && Linked(m', other, otherHead)
      && (forall b :: b in bs && bs[b].used ==> SameBytes(m, m', b, b + bs[b].size))
  {
    hide PushLinks;
    hide Tags;
    hide SameBytes;
    hide LinksOnly;
    hide Word;
    hide Linked;
    HeadInMemory(m, l, head);
    assert Distinct([a] + l) by { LinkedDistinct(m, l, head); }
    HeldIsSpaced([a] + l, bs, lo, hi);
    hide Spaced;
    PushKeepsLinked(m, l, head, a);
    PushWrites(m, l, head, a);
    RelinkFrame(m, PushLinks(m, a, head), bs, lo, hi, [a] + l, other, otherHead);
  }

  lemma PushedHolds(l: seq<int>, a: int, other: seq<int>, bs: Blocks, loose: set<int>, cutoff: int, small: bool)
    requires a in bs && !bs[a].used && a in loose && (bs[a].size < cutoff) == small
    requires Holds(l, bs, loose, cutoff, small) && Holds(other, bs, loose, cutoff, !small)
    ensures Holds([a] + l, bs, loose - {a}, cutoff, small)
    ensures Holds(other, bs, loose - {a}, cutoff, !small)
  {
  }

  lemma PushKeepsCoalesced(bs: Blocks, loose: set<int>, a: int)
    requires Coalesced(bs, loose) && a in bs && Isolated(bs, a)
    ensures Coalesced(bs, loose - {a})
  {
  }

  lemma PushLists(s: Snap, loose: set<int>, a: int)
    requires Good(s, loose) && a in s.bs && !s.bs[a].used && a in loose && Isolated(s.bs, a)
    ensures CanPush(s, a)
    ensures Good(Pushed(s, a), loose - {a})
    ensures forall b :: b in s.bs && s.bs[b].used ==> SameBytes(s.m, Pushed(s, a).m, b, b + s.bs[b].size)
  {
    hide PushLinks;
    hide Linked;
    hide Spaced;
    hide Tags;
    PushKeepsCoalesced(s.bs, loose, a);
    hide Coalesced;
    if s.bs[a].size < s.cutoff {
      PushToList(s.m, s.bs, s.lo, s.hi, s.small, s.smallHead, s.large, s.largeHead, a);
      PushedHolds(s.small, a, s.large, s.bs, loose, s.cutoff, true);
    } else {
      PushToList(s.m, s.bs, s.lo, s.hi, s.large, s.largeHead, s.small, s.smallHead, a);
      PushedHolds(s.large, a, s.small, s.bs, loose, s.cutoff, false);
    }
    hide Holds;
    hide Layout;
  }

  /** shal_add_fb: a loose free block between used ones is listed again, and nothing a user sees changes. */
  lemma PushStep(s: Snap, loose: set<int>, a: int)
    requires Good(s, loose) && a in s.bs && !s.bs[a].used && a in loose && Isolated(s.bs, a)
    ensures CanPush(s, a)
    ensures Good(Pushed(s, a), loose - {a})
    ensures Contents(Pushed(s, a)) == Contents(s)
  {
    hide Good;
    hide SameBytes;
    hide InMemory;
    PushLists(s, loose, a);
    ContentsFrame(s, Pushed(s, a), loose, loose - {a});
  }

  // ---------------------------------------------------------------------------
  // Rewriting tags
  // ---------------------------------------------------------------------------

  /** Block `b` lies outside the stretch [x, y), tags included. */
  ghost predicate Outside(b: int, blk: Block, x: int, y: int) {
    b + blk.size + BORDER <= x || y <= b - BORDER
  }

  /** Block `b` is free and in a list. */
  ghost predicate Listed(bs: Blocks, loose: set<int>, b: int) {
    b in bs && !bs[b].used && b !in loose
  }

  /** A list all of whose blocks lie outside a rewritten stretch still holds what it should, and stays linked. */
  lemma RetagList(
      s: Snap, s': Snap, l: seq<int>, head: int, loose: set<int>, loose': set<int>, x: int, y: int, small: bool)
    requires OnlyChanged(s.m, s'.m, x, y) && Fits(s.bs, s.lo, s.hi)
    requires Linked(s.m, l, head) && Holds(l, s.bs, loose, s.cutoff, small)
    requires forall b :: Listed(s.bs, loose, b) <==> Listed(s'.bs, loose', b)
    requires forall b :: Listed(s.bs, loose, b) ==>
      b in s'.bs && s.bs[b].size == s'.bs[b].size && Outside(b, s.bs[b], x, y)
    ensures Linked(s'.m, l, head) && Holds(l, s'.bs, loose', s.cutoff, small)
  {
    hide Linked;
    forall b | b in l
      ensures SameBytes(s.m, s'.m, b, b + MIN_SIZE)
    {
      assert Listed(s.bs, loose, b);
    }
    assert forall b :: b in l <==> Listed(s.bs, loose, b) && (s.bs[b].size < s.cutoff) == small;
    LinkedFrame(s.m, s'.m, l, head);
  }

  /** From `s` to `s'` only tags in [x, y) are rewritten, where no block is listed. */
  ghost predicate Retags(s: Snap, s': Snap, loose: set<int>, loose': set<int>, x: int, y: int) {
    && s' == s.(m := s'.m, hi := s'.hi, bs := s'.bs)
    && s'.hi <= |s'.m| && OnlyChanged(s.m, s'.m, x, y)
    && (forall b :: b in s'.bs ==>
          Tagged(s'.m, b, s'.bs[b]) || (b in s.bs && s.bs[b] == s'.bs[b] && Outside(b, s.bs[b], x, y)))
    && (forall b :: Listed(s.bs, loose, b) <==> Listed(s'.bs, loose', b))
    && (forall b :: Listed(s.bs, loose, b) ==> b in s'.bs && s.bs[b].size == s'.bs[b].size && Outside(b, s.bs[b], x, y))
  }

  /** Retagging a stretch that contains no listed block keeps the lists and everything outside. */
  lemma RetagStep(s: Snap, s': Snap, loose: set<int>, loose': set<int>, x: int, y: int)
    requires Good(s, loose)
    requires Retags(s, s', loose, loose', x, y)
    requires Layout(s'.bs, s'.lo, s'.hi) && Coalesced(s'.bs, loose')
    ensures Good(s', loose')
  {
    hide Linked;
    hide Coalesced;
    hide Holds;
    hide Tagged;
    hide Fits;
    hide Apart;
    hide Chained;
    hide Even;
    assert OnlyChanged(s.m, s'.m, x, y) ==> |s.m| == |s'.m|;
    RetagList(s, s', s.small, s.smallHead, loose, loose', x, y, true);
    RetagList(s, s', s.large, s.largeHead, loose, loose', x, y, false);
    OutsideTags(s, s', x, y);
  }

  lemma OutsideTags(s: Snap, s': Snap, x: int, y: int)
    requires Tags(s.m, s.bs) && OnlyChanged(s.m, s'.m, x, y)
    requires forall b :: b in s'.bs ==>
      Tagged(s'.m, b, s'.bs[b]) || (b in s.bs && s.bs[b] == s'.bs[b] && Outside(b, s.bs[b], x, y))
    ensures Tags(s'.m, s'.bs)
  {
    TagsAfterRewrite(s.m, s'.m, s.bs, s'.bs, x, y);
  }

  /** Header and footer of one block, written with the same tag. */
  function WriteTags(m: seq<Byte>, a: int, b: Block): (m': seq<Byte>)
    requires BORDER <= a && 0 <= b.size && a + b.size + BORDER <= |m| < WORD_LIMIT
    ensures |m'| == |m|
  {
    SetWord(SetWord(m, a - BORDER, Tag(b)), a + b.size, Tag(b))
  }

  lemma WriteTagsTags(m: seq<Byte>, a: int, b: Block)
    requires BORDER <= a && 0 <= b.size && a + b.size + BORDER <= |m| < WORD_LIMIT
    ensures Tagged(WriteTags(m, a, b), a, b)
    ensures OnlyChanged(m, WriteTags(m, a, b), a - BORDER, a + b.size + BORDER)
    ensures SameBytes(m, WriteTags(m, a, b), a, a + b.size)
    ensures forall x, y :: y <= a - BORDER || (a <= x && y <= a + b.size) || a + b.size + BORDER <= x ==>
      SameBytes(m, WriteTags(m, a, b), x, y)
  {
    SetWordElsewhere(SetWord(m, a - BORDER, Tag(b)), a + b.size, Tag(b), a - BORDER);
  }

  // ---------------------------------------------------------------------------
  // Joining neighbouring blocks, or changing the state of one
  // ---------------------------------------------------------------------------

  ghost predicate CanFuse(s: Snap, a: int, z: int) {
    && a in s.bs && z in s.bs && BORDER <= a <= z && 0 <= s.bs[z].size
        && z + s.bs[z].size + BORDER <= |s.m| < WORD_LIMIT
  }

  ghost function Fused(s: Snap, a: int, z: int, used: bool): Snap
    requires CanFuse(s, a, z)
  {
    s.(m := WriteTags(s.m, a, Block(z + s.bs[z].size - a, used)), bs := Fuse(s.bs, a, z, used))
  }

  lemma FuseKeepsCoalesced(bs: Blocks, lo: int, hi: int, loose: set<int>, loose': set<int>, a: int, z: int, used: bool)
    requires Layout(bs, lo, hi) && Coalesced(bs, loose) && a in bs && z in bs && a <= z
    requires used || a in loose'
    requires forall b :: b < a || z < b ==> (b in loose <==> b in loose')
    ensures Coalesced(Fuse(bs, a, z, used), loose')
  {
    var bs' := Fuse(bs, a, z, used);
    forall x {:trigger After(bs', x)} | x in bs' && !bs'[x].used && x !in loose' && After(bs', x) in bs'
      && After(bs', x) !in loose'
      ensures bs'[After(bs', x)].used
    {
      assert After(bs', x) == After(bs, x);
    }
  }

  /** Blocks outside the range a..z lie outside its stretch of memory. */
  lemma BeyondRange(bs: Blocks, lo: int, hi: int, a: int, z: int)
    requires Layout(bs, lo, hi) && a in bs && z in bs && a <= z
    ensures BORDER <= a && z + bs[z].size + BORDER <= hi && z + bs[z].size - a >= bs[a].size >= MIN_SIZE
    ensures bs[z].size >= MIN_SIZE
    ensures forall b :: b in bs && (b < a || z < b) ==> Outside(b, bs[b], a - BORDER, z + bs[z].size + BORDER)
  {
    hide Even;
    hide Chained;
  }

  lemma FuseListed(bs: Blocks, loose: set<int>, loose': set<int>, a: int, z: int, used: bool)
    requires a in bs && z in bs && a <= z
    requires forall b :: a <= b <= z ==> !Listed(bs, loose, b)
    requires used || a in loose'
    requires forall b :: b < a || z < b ==> (b in loose <==> b in loose')
    ensures var bs' := Fuse(bs, a, z, used);
      && (forall b :: Listed(bs, loose, b) <==> Listed(bs', loose', b))
      && (forall b :: Listed(bs, loose, b) ==> b in bs' && bs'[b] == bs[b] && (b < a || z < b))
  {
    var bs' := Fuse(bs, a, z, used);
    forall b
      ensures Listed(bs, loose, b) <==> Listed(bs', loose', b)
      ensures Listed(bs, loose, b) ==> b in bs' && bs'[b] == bs[b] && (b < a || z < b)
    {
      if a <= b <= z { assert !Listed(bs, loose, b); }
    }
  }

  lemma FuseRetags(s: Snap, loose: set<int>, loose': set<int>, a: int, z: int, used: bool)
    requires CanFuse(s, a, z) && s.hi <= |s.m|
    requires z + s.bs[z].size - a >= MIN_SIZE
    requires forall b :: b in s.bs && (b < a || z < b) ==> Outside(b, s.bs[b], a - BORDER, z + s.bs[z].size + BORDER)
    requires forall b :: a <= b <= z ==> !Listed(s.bs, loose, b)
    requires used || a in loose'
    requires forall b :: b < a || z < b ==> (b in loose <==> b in loose')
    ensures Retags(s, Fused(s, a, z, used), loose, loose', a - BORDER, z + s.bs[z].size + BORDER)
  {
    hide WriteTags;
    hide OnlyChanged;
    hide SameBytes;
    hide Tagged;
    hide Outside;
    hide Listed;
    WriteTagsTags(s.m, a, Block(z + s.bs[z].size - a, used));
    FuseListed(s.bs, loose, loose', a, z, used);
  }

  lemma FuseSame(s: Snap, a: int, z: int, used: bool)
    requires CanFuse(s, a, z) && 0 <= s.bs[a].size <= z + s.bs[z].size - a
    requires forall b :: b in s.bs && (b < a || z < b) ==> Outside(b, s.bs[b], a - BORDER, z + s.bs[z].size + BORDER)
    ensures SameBytes(s.m, Fused(s, a, z, used).m, a, a + s.bs[a].size)
    ensures forall b :: b in s.bs && (b < a || z < b) ==> SameBytes(s.m, Fused(s, a, z, used).m, b, b + s.bs[b].size)
  {
    WriteTagsTags(s.m, a, Block(z + s.bs[z].size - a, used));
    hide WriteTags;
  }

  /** The blocks from `a` to `z`, none of them listed, become one block; memory outside its two tags is untouched. */
  lemma FuseStep(s: Snap, loose: set<int>, loose': set<int>, a: int, z: int, used: bool)
    requires Good(s, loose) && a in s.bs && z in s.bs && a <= z
    requires forall b :: a <= b <= z ==> !Listed(s.bs, loose, b)
    requires used || a in loose'
    requires forall b :: b < a || z < b ==> (b in loose <==> b in loose')
    ensures CanFuse(s, a, z)
    ensures Good(Fused(s, a, z, used), loose')
    ensures SameBytes(s.m, Fused(s, a, z, used).m, a, a + s.bs[a].size)
    ensures forall b :: b in s.bs && (b < a || z < b) ==> SameBytes(s.m, Fused(s, a, z, used).m, b, b + s.bs[b].size)
  {
    hide Coalesced;
    hide Linked;
    hide Holds;
    hide Tags;
    hide Layout;
    hide WriteTags;
    hide SameBytes;
    hide Retags;
    hide Listed;
    hide Outside;
    LayoutFuse(s.bs, s.lo, s.hi, a, z, used);
    FuseKeepsCoalesced(s.bs, s.lo, s.hi, loose, loose', a, z, used);
    BeyondRange(s.bs, s.lo, s.hi, a, z);
    FuseRetags(s, loose, loose', a, z, used);
    FuseSame(s, a, z, used);
    RetagStep(s, Fused(s, a, z, used), loose, loose', a - BORDER, z + s.bs[z].size + BORDER);
  }

  // ---------------------------------------------------------------------------
  // Cutting a block in two, and growing the heap
  // ---------------------------------------------------------------------------

  ghost predicate CanSplit(s: Snap, a: int, n: int) {
    && a in s.bs && BORDER <= a && n >= MIN_SIZE && n % 2 == 0 && s.bs[a].size - n >= 2 * BORDER + MIN_SIZE
    && a + s.bs[a].size + BORDER <= |s.m| < WORD_LIMIT
  }

  /** Block `a` keeps its first `n` bytes and is in use; the rest is a free block of its own. */
  ghost function Cut(s: Snap, a: int, n: int): Snap
    requires CanSplit(s, a, n)
  {
    var m1 := WriteTags(s.m, a, Block(n, true));
    s.(m := WriteTags(m1, a + n + 2 * BORDER, Block(s.bs[a].size - n - 2 * BORDER, false)), bs := Split(s.bs, a, n))
  }

  lemma SplitKeepsCoalesced(bs: Blocks, lo: int, hi: int, loose: set<int>, a: int, n: int)
    requires Layout(bs, lo, hi) && Coalesced(bs, loose) && a in bs && (bs[a].used || a in loose)
    requires n >= MIN_SIZE && n % 2 == 0 && bs[a].size - n >= 2 * BORDER + MIN_SIZE
    ensures a + n + 2 * BORDER !in bs
    ensures Coalesced(Split(bs, a, n), loose - {a} + {a + n + 2 * BORDER})
  {
    var c := a + n + 2 * BORDER;
    var bs' := Split(bs, a, n);
    assert c !in bs;
    forall x {:trigger After(bs', x)} |
      && x in bs' && !bs'[x].used && x !in loose - {a} + {c}
      && After(bs', x) in bs' && After(bs', x) !in loose - {a} + {c}
      ensures bs'[After(bs', x)].used
    {
      assert After(bs', x) == After(bs, x);
    }
  }

  /** The bytes a split writes lie in the block; the kept payload is not among them. */
  lemma SplitWrites(s: Snap, a: int, n: int)
    requires CanSplit(s, a, n)
    ensures var s' := Cut(s, a, n); var c := a + n + 2 * BORDER;
      && OnlyChanged(s.m, s'.m, a - BORDER, a + s.bs[a].size + BORDER)
      && SameBytes(s.m, s'.m, a, a + n)
      && Tagged(s'.m, a, s'.bs[a])
      && Tagged(s'.m, c, s'.bs[c])
  {
    hide WriteTags;
    hide Word;
    var c := a + n + 2 * BORDER;
    var left, right := Block(n, true), Block(s.bs[a].size - n - 2 * BORDER, false);
    var m1 := WriteTags(s.m, a, left);
    var m2 := WriteTags(m1, c, right);
    WriteTagsTags(s.m, a, left);
    WriteTagsTags(m1, c, right);
    assert Tagged(m2, a, left) by {
      SameWord(m1, m2, a - BORDER, c - BORDER, c + right.size + BORDER);
      SameWord(m1, m2, a + n, c - BORDER, c + right.size + BORDER);
    }
  }

  lemma SplitListed(bs: Blocks, loose: set<int>, a: int, n: int)
    requires a in bs && (bs[a].used || a in loose) && a + n + 2 * BORDER !in bs && n >= 0
    ensures forall b :: Listed(bs, loose, b) <==> Listed(Split(bs, a, n), loose - {a} + {a + n + 2 * BORDER}, b)
    ensures forall b :: Listed(bs, loose, b) ==> b != a && b in Split(bs, a, n) && Split(bs, a, n)[b] == bs[b]
  {
  }

  lemma SplitRetags(s: Snap, loose: set<int>, a: int, n: int)
    requires CanSplit(s, a, n) && s.hi <= |s.m| && a + n + 2 * BORDER !in s.bs && (s.bs[a].used || a in loose)
    requires forall b :: b in s.bs && (b < a || a < b) ==> Outside(b, s.bs[b], a - BORDER, a + s.bs[a].size + BORDER)
    ensures Retags(s, Cut(s, a, n), loose, loose - {a} + {a + n + 2 * BORDER}, a - BORDER, a + s.bs[a].size + BORDER)
    ensures SameBytes(s.m, Cut(s, a, n).m, a, a + n)
    ensures forall b :: b in s.bs && b != a ==> SameBytes(s.m, Cut(s, a, n).m, b, b + s.bs[b].size)
  {
    SplitWrites(s, a, n);
    SplitListed(s.bs, loose, a, n);
    OutsideAllSame(s.m, Cut(s, a, n).m, s.bs, a, a - BORDER, a + s.bs[a].size + BORDER);
    hide WriteTags, Tagged, Listed, SameBytes, OnlyChanged, Outside;
  }

  lemma OutsideAllSame(m: seq<Byte>, m': seq<Byte>, bs: Blocks, a: int, x: int, y: int)
    requires OnlyChanged(m, m', x, y)
    requires forall b :: b in bs && (b < a || a < b) ==> Outside(b, bs[b], x, y)
    ensures forall b :: b in bs && b != a ==> SameBytes(m, m', b, b + bs[b].size)
  {
    forall b | b in bs && b != a
      ensures SameBytes(m, m', b, b + bs[b].size)
    {
      OutsideSame(m, m', b, bs[b], x, y);
    }
  }

  lemma SplitStep(s: Snap, loose: set<int>, a: int, n: int)
    requires Good(s, loose) && a in s.bs && (s.bs[a].used || a in loose)
    requires n >= MIN_SIZE && n % 2 == 0 && s.bs[a].size - n >= 2 * BORDER + MIN_SIZE
    ensures CanSplit(s, a, n) && a + n + 2 * BORDER !in s.bs
    ensures Good(Cut(s, a, n), loose - {a} + {a + n + 2 * BORDER})
    ensures SameBytes(s.m, Cut(s, a, n).m, a, a + n)
    ensures forall b :: b in s.bs && b != a ==> SameBytes(s.m, Cut(s, a, n).m, b, b + s.bs[b].size)
  {
    hide Coalesced;
    hide Linked;
    hide Holds;
    hide Tags;
    hide Layout;
    hide WriteTags;
    hide SameBytes;
    hide Retags;
    hide Outside;
    BeyondRange(s.bs, s.lo, s.hi, a, a);
    LayoutSplit(s.bs, s.lo, s.hi, a, n);
    SplitKeepsCoalesced(s.bs, s.lo, s.hi, loose, a, n);
    SplitRetags(s, loose, a, n);
    RetagStep(s, Cut(s, a, n), loose, loose - {a} + {a + n + 2 * BORDER}, a - BORDER, a + s.bs[a].size + BORDER);
  }

  lemma OutsideSame(m: seq<Byte>, m': seq<Byte>, b: int, blk: Block, x: int, y: int)
    requires OnlyChanged(m, m', x, y) && Outside(b, blk, x, y)
    ensures SameBytes(m, m', b, b + blk.size)
  {
  }

  ghost predicate CanGrow(s: Snap, hi': int) {
    && 0 <= s.hi && hi' - s.hi >= 2 * BORDER + MIN_SIZE && hi' <= |s.m| < WORD_LIMIT
  }

  /** The memory from the break to `hi'` becomes one free block. */
  ghost function Grown(s: Snap, hi': int): Snap
    requires CanGrow(s, hi')
  {
    var b := Block(hi' - s.hi - 2 * BORDER, false);
    s.(m := WriteTags(s.m, s.hi + BORDER, b), hi := hi', bs := s.bs[s.hi + BORDER := b])
  }

  lemma GrowKeepsCoalesced(bs: Blocks, lo: int, hi: int, loose: set<int>, b: Block)
    requires Layout(bs, lo, hi) && Coalesced(bs, loose)
    ensures hi + BORDER !in bs
    ensures Coalesced(bs[hi + BORDER := b], loose + {hi + BORDER})
  {
    var bs' := bs[hi + BORDER := b];
    var loose' := loose + {hi + BORDER};
    forall x {:trigger After(bs', x)} |
      x in bs' && !bs'[x].used && x !in loose' && After(bs', x) in bs' && After(bs', x) !in loose'
      ensures bs'[After(bs', x)].used
    {
      assert After(bs', x) == After(bs, x);
    }
  }

  lemma GrowRetags(s: Snap, loose: set<int>, hi': int)
    requires CanGrow(s, hi') && s.hi + BORDER !in s.bs && Fits(s.bs, s.lo, s.hi)
    ensures Retags(s, Grown(s, hi'), loose, loose + {s.hi + BORDER}, s.hi, hi')
    ensures forall b :: b in s.bs ==> SameBytes(s.m, Grown(s, hi').m, b, b + s.bs[b].size)
  {
    hide WriteTags;
    hide Tagged;
    hide SameBytes;
    hide OnlyChanged;
    WriteTagsTags(s.m, s.hi + BORDER, Block(hi' - s.hi - 2 * BORDER, false));
    var s' := Grown(s, hi');
    forall b | b in s.bs
      ensures Outside(b, s.bs[b], s.hi, hi')
      ensures SameBytes(s.m, s'.m, b, b + s.bs[b].size)
    {
      OutsideSame(s.m, s'.m, b, s.bs[b], s.hi, hi');
    }
  }

  lemma GrowStep(s: Snap, loose: set<int>, hi': int)
    requires Good(s, loose)
    requires hi' % 2 == 0 && hi' - s.hi >= 2 * BORDER + MIN_SIZE && hi' <= |s.m|
    ensures CanGrow(s, hi') && s.hi + BORDER !in s.bs
    ensures Good(Grown(s, hi'), loose + {s.hi + BORDER})
    ensures forall b :: b in s.bs ==> SameBytes(s.m, Grown(s, hi').m, b, b + s.bs[b].size)
  {
    hide Coalesced;
    hide Linked;
    hide Holds;
    hide Tags;
    hide WriteTags;
    hide SameBytes;
    hide Retags;
    hide Fits;
    hide Apart;
    hide Even;
    hide Chained;
    LayoutPositive(s.bs, s.lo, s.hi);
    LayoutExtend(s.bs, s.lo, s.hi, hi');
    GrowKeepsCoalesced(s.bs, s.lo, s.hi, loose, Block(hi' - s.hi - 2 * BORDER, false));
    GrowRetags(s, loose, hi');
    RetagStep(s, Grown(s, hi'), loose, loose + {s.hi + BORDER}, s.hi, hi');
  }

  lemma LayoutPositive(bs: Blocks, lo: int, hi: int)
    requires Layout(bs, lo, hi)
    ensures lo < hi
  {
  }

  // ---------------------------------------------------------------------------
  // What a good heap tells about a block
  // ---------------------------------------------------------------------------

  lemma BlockFacts(s: Snap, loose: set<int>, a: int)
    requires Good(s, loose) && a in s.bs
    ensures Tagged(s.m, a, s.bs[a]) && s.bs[a].size >= MIN_SIZE && s.bs[a].size % 2 == 0 && a % 2 == 0
    ensures s.lo + BORDER <= a && a + s.bs[a].size + BORDER <= s.hi <= |s.m| && 0 < s.lo
    ensures s.bs[a].used ==> a in Contents(s) && Contents(s)[a] == s.m[a..a + s.bs[a].size]
    ensures !s.bs[a].used ==> a !in Contents(s)
    ensures After(s.bs, a) == s.hi + BORDER || After(s.bs, a) in s.bs
  {
  }

  lemma NeighbourFacts(s: Snap, loose: set<int>, a: int) returns (p: int)
    requires Good(s, loose) && a in s.bs && a != s.lo + BORDER
    ensures p in s.bs && After(s.bs, p) == a
    ensures Word(s.m, a - 2 * BORDER) == Tag(s.bs[p])
    ensures forall q {:trigger After(s.bs, q)} :: q in s.bs && After(s.bs, q) == a ==> q == p
  {
    p := PreviousBlock(s.bs, s.lo, s.hi, a);
    assert Tagged(s.m, p, s.bs[p]);
    forall q {:trigger After(s.bs, q)} | q in s.bs && After(s.bs, q) == a
      ensures q == p
    {
    }
  }

  lemma FreeIsIsolated(s: Snap, a: int)
    requires Good(s, {}) && a in s.bs && !s.bs[a].used
    ensures Isolated(s.bs, a)
  {
  }

  /** All that shal_remove_fb relies on: the words it reads, and what its writes amount to. */
  lemma RemoveFacts(s: Snap, loose: set<int>, a: int) returns (k: int)
    requires Good(s, loose) && Listed(s.bs, loose, a)
    ensures BORDER <= a && Word(s.m, a - BORDER) == Tag(s.bs[a]) && s.bs[a].size % 2 == 0
    ensures CanUnlink(s, a, k) && Good(Unlinked(s, a, k), loose + {a})
    ensures Contents(Unlinked(s, a, k)) == Contents(s)
    ensures var l := ListOf(s, s.bs[a].size);
      && Word(s.m, a) == PrevOf(l, k) && Word(s.m, a + BORDER) == NextOf(l, k)
      && (PrevOf(l, k) == 0 <==> k == 0)
  {
    var l := ListOf(s, s.bs[a].size);
    assert a in l;
    k :| 0 <= k < |l| && l[k] == a;
    UnlinkReads(s, loose, a, k);
    BlockFacts(s, loose, a);
    UnlinkStep(s, loose, a, k);
  }

  lemma UnlinkReads(s: Snap, loose: set<int>, a: int, k: int)
    requires Good(s, loose) && a in s.bs
    requires var l := ListOf(s, s.bs[a].size); 0 <= k < |l| && l[k] == a
    ensures 0 <= a && a + MIN_SIZE <= |s.m|
    ensures var l := ListOf(s, s.bs[a].size);
      && Word(s.m, a) == PrevOf(l, k) && Word(s.m, a + BORDER) == NextOf(l, k)
      && (PrevOf(l, k) == 0 <==> k == 0)
  {
    var l := ListOf(s, s.bs[a].size);
    assert Link(s.m, l, k);
    if k > 0 { assert Link(s.m, l, k - 1); }
  }

  /** All that shal_add_fb relies on. */
  lemma AddFacts(s: Snap, loose: set<int>, a: int)
    requires Good(s, loose) && a in s.bs && !s.bs[a].used && a in loose && Isolated(s.bs, a)
    ensures BORDER <= a && Word(s.m, a - BORDER) == Tag(s.bs[a]) && s.bs[a].size % 2 == 0
    ensures CanPush(s, a) && Good(Pushed(s, a), loose - {a})
    ensures Contents(Pushed(s, a)) == Contents(s)
  {
    BlockFacts(s, loose, a);
    PushStep(s, loose, a);
  }

  // ---------------------------------------------------------------------------
  // Coalescing a block with its free neighbours
  // ---------------------------------------------------------------------------

  /** `a` is `mb` or its free left neighbour: where shal_coalesce puts the header. */
  ghost predicate MergeStart(bs: Blocks, mb: int, a: int) {
    && a in bs
    && if a == mb then forall p {:trigger After(bs, p)} :: p in bs && After(bs, p) == mb ==> bs[p].used
       else After(bs, a) == mb && !bs[a].used
  }

  /** `z` is `mb` or its free right neighbour: where shal_coalesce puts the footer. */
  ghost predicate MergeEnd(bs: Blocks, mb: int, z: int) {
    && mb in bs && z in bs
    && if z == mb then After(bs, mb) in bs ==> bs[After(bs, mb)].used
       else z == After(bs, mb) && !bs[z].used
  }

  ghost predicate MergeEnds(bs: Blocks, mb: int, a: int, z: int) {
    mb in bs && MergeStart(bs, mb, a) && MergeEnd(bs, mb, z)
  }

  lemma MergeRange(bs: Blocks, lo: int, hi: int, mb: int, a: int, z: int)
    requires Layout(bs, lo, hi) && MergeEnds(bs, mb, a, z)
    ensures a <= mb <= z && z + bs[z].size - a >= bs[mb].size
    ensures forall b :: b in bs && a <= b <= z ==> b == a || b == mb || b == z
  {
  }

  lemma MergeIsolated(bs: Blocks, lo: int, hi: int, mb: int, a: int, z: int)
    requires Layout(bs, lo, hi) && Coalesced(bs, {mb}) && MergeEnds(bs, mb, a, z) && a <= mb <= z
    requires forall b :: b in bs && a <= b <= z ==> b == a || b == mb || b == z
    ensures Isolated(Fuse(bs, a, z, false), a)
  {
    var bs' := Fuse(bs, a, z, false);
    assert After(bs', a) == After(bs, z);
    forall p {:trigger After(bs', p)} | p in bs' && After(bs', p) == a
      ensures bs'[p].used
    {
      assert p != a && After(bs, p) == a;
    }
  }

  ghost predicate FreeKept(bs: Blocks, bs': Blocks, except: int) {
    forall b :: b in bs' && !bs'[b].used && b != except ==> b in bs && bs[b] == bs'[b]
  }

  lemma SameSlice(m: seq<Byte>, m': seq<Byte>, lo: int, hi: int)
    requires SameBytes(m, m', lo, hi) && 0 <= lo <= hi <= |m|
    ensures |m'| == |m| && m[lo..hi] == m'[lo..hi]
  {
  }

  lemma FusedUsers(m: seq<Byte>, m': seq<Byte>, bs: Blocks, bs': Blocks, mb: int, a: int, z: int)
    requires InMemory(m, bs) && InMemory(m', bs') && a in bs && z in bs && bs' == Fuse(bs, a, z, false)
    requires forall b :: b in bs && a <= b <= z && b != mb ==> !bs[b].used
    requires a <= mb <= z && mb in bs
    requires forall b :: b in bs && (b < a || z < b) ==> SameBytes(m, m', b, b + bs[b].size)
    ensures Users(m', bs') == Users(m, bs) - {mb}
  {
    hide SameBytes;
    forall b | b in bs && bs[b].used && (b < a || z < b)
      ensures b in bs' && bs'[b] == bs[b] && m'[b..b + bs[b].size] == m[b..b + bs[b].size]
    {
      SameSlice(m, m', b, b + bs[b].size);
    }
  }

  lemma FusedContents(s: Snap, s': Snap, loose: set<int>, loose': set<int>, mb: int, a: int, z: int)
    requires Good(s, loose) && Good(s', loose') && CanFuse(s, a, z) && s'.bs == Fuse(s.bs, a, z, false)
    requires forall b :: b in s.bs && a <= b <= z && b != mb ==> !s.bs[b].used
    requires a <= mb <= z && mb in s.bs
    requires forall b :: b in s.bs && (b < a || z < b) ==> SameBytes(s.m, s'.m, b, b + s.bs[b].size)
    ensures Contents(s') == Contents(s) - {mb}
  {
    hide Good;
    hide SameBytes;
    hide InMemory;
    hide Users;
    hide Fuse;
    GoodInMemory(s, loose);
    GoodInMemory(s', loose');
    FusedUsers(s.m, s'.m, s.bs, s'.bs, mb, a, z);
  }

  /** shal_coalesce: the block and its free neighbours become one isolated free block. */
  lemma CoalesceStep(s: Snap, loose: set<int>, mb: int, a: int, z: int)
    requires Good(s, loose) && loose == {mb, a, z} && Coalesced(s.bs, {mb}) && MergeEnds(s.bs, mb, a, z)
    ensures CanFuse(s, a, z) && BORDER < a
    ensures Good(Fused(s, a, z, false), {a})
    ensures Isolated(Fused(s, a, z, false).bs, a)
    ensures FreeKept(s.bs, Fused(s, a, z, false).bs, a)
    ensures mb in Fused(s, a, z, false).bs ==> mb == a
    ensures Fused(s, a, z, false).bs[a].size >= s.bs[mb].size
    ensures Contents(Fused(s, a, z, false)) == Contents(s) - {mb}
  {
    hide Linked;
    hide Tags;
    hide Coalesced;
    hide SameBytes;
    hide WriteTags;
    hide Contents;
    BlockFacts(s, loose, a);
    MergeRange(s.bs, s.lo, s.hi, mb, a, z);
    MergeIsolated(s.bs, s.lo, s.hi, mb, a, z);
    hide Layout;
    hide Holds;
    FuseStep(s, loose, {a}, a, z, false);
    FusedContents(s, Fused(s, a, z, false), loose, {a}, mb, a, z);
  }

  /** A block in use is in neither list anyway. */
  lemma LooseUsed(s: Snap, a: int)
    requires Good(s, {}) && a in s.bs && s.bs[a].used
    ensures Good(s, {a})
  {
  }

  lemma FirstHasNoLeft(s: Snap, loose: set<int>, a: int)
    requires Good(s, loose) && a in s.bs && a == s.lo + BORDER
    ensures MergeStart(s.bs, a, a)
  {
  }

  lemma LastHasNoRight(s: Snap, loose: set<int>, a: int)
    requires Good(s, loose) && a in s.bs && After(s.bs, a) >= s.hi
    ensures MergeEnd(s.bs, a, a)
  {
  }

  /** The block to the right of `mb` is not the one to its left. */
  lemma LeftOf(s: Snap, loose: set<int>, mb: int, a: int)
    requires Good(s, loose) && mb in s.bs && MergeStart(s.bs, mb, a)
    ensures a <= mb < After(s.bs, mb)
  {
  }

  lemma GoodCoalesced(s: Snap, loose: set<int>)
    requires Good(s, loose)
    ensures Coalesced(s.bs, loose)
  {
  }

  // ---------------------------------------------------------------------------
  // Handing a block to a user
  // ---------------------------------------------------------------------------

  /** Users' view when block `a` changes to its first `n` bytes and the other used blocks stay. */
  lemma HandedUsers(m: seq<Byte>, m': seq<Byte>, bs: Blocks, bs': Blocks, a: int, n: int)
    requires InMemory(m, bs) && InMemory(m', bs') && a in bs && 0 <= n <= bs[a].size
    requires a in bs' && bs'[a] == Block(n, true) && SameBytes(m, m', a, a + n)
    requires forall b :: b != a ==> (b in bs && bs[b].used <==> b in bs' && bs'[b].used)
    requires forall b :: b in bs && b != a && bs[b].used ==>
      bs'[b].size == bs[b].size && SameBytes(m, m', b, b + bs[b].size)
    ensures Users(m', bs') == Users(m, bs)[a := m[a..a + n]]
  {
    hide SameBytes;
    SameSlice(m, m', a, a + n);
    forall b | b in bs && b != a && bs[b].used
      ensures m'[b..b + bs[b].size] == m[b..b + bs[b].size]
    {
      SameSlice(m, m', b, b + bs[b].size);
    }
  }

  lemma HandedContents(s: Snap, s': Snap, loose: set<int>, loose': set<int>, a: int, n: int)
    requires Good(s, loose) && Good(s', loose') && a in s.bs && 0 <= n <= s.bs[a].size
    requires a in s'.bs && s'.bs[a] == Block(n, true) && SameBytes(s.m, s'.m, a, a + n)
    requires forall b :: b != a ==> (b in s.bs && s.bs[b].used <==> b in s'.bs && s'.bs[b].used)
    requires forall b :: b in s.bs && b != a && s.bs[b].used ==>
      s'.bs[b].size == s.bs[b].size && SameBytes(s.m, s'.m, b, b + s.bs[b].size)
    ensures 0 <= a && a + n <= |s.m|
    ensures Contents(s') == Contents(s)[a := s.m[a..a + n]]
  {
    BlockFacts(s, loose, a);
    GoodInMemory(s, loose);
    GoodInMemory(s', loose');
    HandedInMemory(s, s', loose, loose', a, n);
  }

  lemma HandedInMemory(s: Snap, s': Snap, loose: set<int>, loose': set<int>, a: int, n: int)
    requires InMemory(s.m, s.bs) && InMemory(s'.m, s'.bs) && a in s.bs && 0 <= n <= s.bs[a].size
    requires a in s'.bs && s'.bs[a] == Block(n, true) && SameBytes(s.m, s'.m, a, a + n)
    requires forall b :: b != a ==> (b in s.bs && s.bs[b].used <==> b in s'.bs && s'.bs[b].used)
    requires forall b :: b in s.bs && b != a && s.bs[b].used ==>
      s'.bs[b].size == s.bs[b].size && SameBytes(s.m, s'.m, b, b + s.bs[b].size)
    ensures 0 <= a && a + n <= |s.m|
    ensures Contents(s') == Contents(s)[a := s.m[a..a + n]]
  {
    hide Users;
    hide SameBytes;
    HandedUsers(s.m, s'.m, s.bs, s'.bs, a, n);
  }

  /** A block that is in no list can be marked as used; nothing else changes. */
  lemma MarkStep(s: Snap, a: int)
    requires Good(s, {a}) && a in s.bs
    ensures CanFuse(s, a, a) && 0 <= a && a + s.bs[a].size <= |s.m|
    ensures Good(Fused(s, a, a, true), {})
    ensures Contents(Fused(s, a, a, true)) == Contents(s)[a := s.m[a..a + s.bs[a].size]]
  {
    hide Good;
    hide SameBytes;
    hide WriteTags;
    hide Contents;
    BlockFacts(s, {a}, a);
    FuseStep(s, {a}, {}, a, a, true);
    HandedContents(s, Fused(s, a, a, true), {a}, {}, a, s.bs[a].size);
  }

  /** Cutting a block in no list hands its first part to the user; the rest is in no list. */
  lemma CutStep(s: Snap, a: int, n: int)
    requires Good(s, {a}) && a in s.bs
    requires n >= MIN_SIZE && n % 2 == 0 && s.bs[a].size - n >= 2 * BORDER + MIN_SIZE
    ensures CanSplit(s, a, n) && a + n + 2 * BORDER !in s.bs && 0 <= a && a + n <= |s.m|
    ensures Good(Cut(s, a, n), {a + n + 2 * BORDER})
    ensures Contents(Cut(s, a, n)) == Contents(s)[a := s.m[a..a + n]]
  {
    hide Good;
    hide SameBytes;
    hide WriteTags;
    hide Contents;
    BlockFacts(s, {a}, a);
    SplitStep(s, {a}, a, n);
    assert {a} - {a} + {a + n + 2 * BORDER} == {a + n + 2 * BORDER};
    HandedContents(s, Cut(s, a, n), {a}, {a + n + 2 * BORDER}, a, n);
  }

  /** Growing the heap changes nothing a user sees. */
  lemma ExtendStep(s: Snap, hi': int)
    requires Good(s, {})
    requires hi' % 2 == 0 && hi' - s.hi >= 2 * BORDER + MIN_SIZE && hi' <= |s.m|
    ensures CanGrow(s, hi') && s.hi + BORDER !in s.bs
    ensures Good(Grown(s, hi'), {s.hi + BORDER})
    ensures Contents(Grown(s, hi')) == Contents(s)
  {
    hide Good;
    hide SameBytes;
    hide WriteTags;
    hide Contents;
    GrowStep(s, {}, hi');
    assert {} + {s.hi + BORDER} == {s.hi + BORDER};
    ContentsFrame(s, Grown(s, hi'), {}, {s.hi + BORDER});
  }

  /** A block users see is a block in use of that size. */
  lemma UserFacts(s: Snap, loose: set<int>, a: int)
    requires Good(s, loose) && a in Contents(s)
    ensures a in s.bs && s.bs[a].used && |Contents(s)[a]| == s.bs[a].size
    ensures 0 < s.lo < a && a + s.bs[a].size < s.hi
    ensures Contents(s)[a] == s.m[a..a + s.bs[a].size]
  {
    BlockFacts(s, loose, a);
  }

  /** The free list searched for large or small blocks. */
  function Side(s: Snap, large: bool): seq<int> {
    if large then s.large else s.small
  }

  lemma ListFacts(s: Snap, loose: set<int>, large: bool)
    requires Good(s, loose)
    ensures forall a :: a in Side(s, large) ==> Listed(s.bs, loose, a)
    ensures (if large then s.largeHead else s.smallHead) == (if Side(s, large) == [] then 0 else Side(s, large)[0])
    ensures forall a :: Listed(s.bs, loose, a) && (s.bs[a].size >= s.cutoff) == large ==> a in Side(s, large)
  {
  }

  lemma ElementFacts(s: Snap, loose: set<int>, large: bool, k: int)
    requires Good(s, loose) && 0 <= k < |Side(s, large)|
    ensures var a := Side(s, large)[k];
      && 0 < a && Listed(s.bs, loose, a) && BORDER <= a && a + MIN_SIZE <= |s.m|
      && Word(s.m, a - BORDER) == Tag(s.bs[a]) && s.bs[a].size % 2 == 0
      && Word(s.m, a + BORDER) == NextOf(Side(s, large), k)
      && (k + 1 < |Side(s, large)| ==> 0 < Side(s, large)[k + 1])
  {
    var l := Side(s, large);
    assert l[k] in l;
    BlockFacts(s, loose, l[k]);
    assert Link(s.m, l, k);
    if k + 1 < |l| { assert Link(s.m, l, k + 1); }
  }

  lemma BrkBound(s: Snap, loose: set<int>)
    requires Good(s, loose)
    ensures 0 < s.lo < s.hi <= |s.m| < WORD_LIMIT
  {
    LayoutPositive(s.bs, s.lo, s.hi);
  }

  lemma NotInHeap(s: Snap, a: int)
    requires Good(s, {}) && (a <= 0 || a < s.lo || s.hi <= a)
    ensures a !in s.bs && a !in Contents(s)
  {
  }

  // ---------------------------------------------------------------------------
  // Reallocation
  // ---------------------------------------------------------------------------

  /** User `a` has taken over the space of user `z` and now sees `n` bytes that start with its old ones. */
  ghost predicate Joined(p: map<int, seq<Byte>>, p': map<int, seq<Byte>>, a: int, z: int, n: int) {
    && a in p && a != z && p'.Keys == p.Keys - {z}
    && (forall b :: b in p && b != a && b != z ==> p'[b] == p[b])
    && |p'[a]| == n && p[a] <= p'[a]
  }

  lemma JoinFused(s: Snap, a: int, z: int)
    requires Good(s, {}) && a in s.bs && s.bs[a].used && z in s.bs && s.bs[z].used && z == After(s.bs, a)
    ensures CanFuse(s, a, z) && BORDER < a < z && z + s.bs[z].size - a >= s.bs[a].size >= 0 && a + s.bs[a].size <= |s.m|
    ensures Good(Fused(s, a, z, true), {})
    ensures SameBytes(s.m, Fused(s, a, z, true).m, a, a + s.bs[a].size)
    ensures forall b :: b in s.bs && (b < a || z < b) ==> SameBytes(s.m, Fused(s, a, z, true).m, b, b + s.bs[b].size)
    ensures forall b :: b in s.bs && a < b <= z ==> b == z
  {
    hide Good;
    hide SameBytes;
    hide WriteTags;
    hide Contents;
    hide Tagged;
    BlockFacts(s, {}, a);
    BlockFacts(s, {}, z);
    GoodBetween(s, a);
    FuseStep(s, {}, {}, a, z, true);
  }

  lemma GoodBetween(s: Snap, a: int)
    requires Good(s, {}) && a in s.bs && After(s.bs, a) in s.bs
    ensures a < After(s.bs, a)
    ensures forall b :: b in s.bs && a < b <= After(s.bs, a) ==> b == After(s.bs, a)
  {
    BetweenNone(s.bs, s.lo, s.hi, a);
  }

  /** A block in use swallows its used right neighbour and keeps its own bytes. */
  lemma JoinStep(s: Snap, a: int, z: int)
    requires Good(s, {}) && a in s.bs && s.bs[a].used && z in s.bs && s.bs[z].used && z == After(s.bs, a)
    ensures CanFuse(s, a, z) && BORDER < a
    ensures Good(Fused(s, a, z, true), {})
    ensures Joined(Contents(s), Contents(Fused(s, a, z, true)), a, z, z + s.bs[z].size - a)
  {
    hide Good;
    hide SameBytes;
    hide WriteTags;
    hide Contents;
    JoinFused(s, a, z);
    var s' := Fused(s, a, z, true);
    SameSlice(s.m, s'.m, a, a + s.bs[a].size);
    ContentsSlice(s, a);
    ContentsSlice(s', a);
    JoinPrefix(s.m, s'.m, a, s.bs[a].size, s'.bs[a].size);
    JoinOthers(s, s', a, z);
  }

  lemma ContentsSlice(s: Snap, a: int)
    requires Good(s, {}) && a in s.bs && s.bs[a].used
    ensures 0 <= a && 0 <= s.bs[a].size && a + s.bs[a].size <= |s.m|
    ensures a in Contents(s) && Contents(s)[a] == s.m[a..a + s.bs[a].size]
  {
    BlockFacts(s, {}, a);
  }

  lemma KeptContents(s: Snap, s': Snap, b: int)
    requires Good(s, {}) && Good(s', {}) && b in s.bs && s.bs[b].used && b in s'.bs && s'.bs[b] == s.bs[b]
    requires SameBytes(s.m, s'.m, b, b + s.bs[b].size)
    ensures b in Contents(s) && b in Contents(s') && Contents(s')[b] == Contents(s)[b]
  {
    BlockFacts(s, {}, b);
    BlockFacts(s', {}, b);
    hide Good;
    SameSlice(s.m, s'.m, b, b + s.bs[b].size);
  }

  lemma ContentsKeys(s: Snap, b: int)
    requires Good(s, {})
    ensures b in Contents(s) <==> b in s.bs && s.bs[b].used
  {
    if b in s.bs { BlockFacts(s, {}, b); }
  }

  lemma JoinOthers(s: Snap, s': Snap, a: int, z: int)
    requires Good(s, {}) && Good(s', {}) && a in s.bs && z in s.bs && a < z && s.bs[a].used && s.bs[z].used
    requires s'.bs == Fuse(s.bs, a, z, true) && (forall b :: b in s.bs && a < b <= z ==> b == z)
    requires forall b :: b in s.bs && (b < a || z < b) ==> SameBytes(s.m, s'.m, b, b + s.bs[b].size)
    ensures Contents(s').Keys == Contents(s).Keys - {z}
    ensures forall b :: b in Contents(s) && b != a && b != z ==> Contents(s')[b] == Contents(s)[b]
  {
    hide Good;
    hide SameBytes;
    hide Contents;
    forall b
      ensures b in Contents(s') <==> b in Contents(s) && b != z
      ensures b in Contents(s) && b != a && b != z ==> Contents(s')[b] == Contents(s)[b]
    {
      ContentsKeys(s, b);
      ContentsKeys(s', b);
      if b in s.bs && s.bs[b].used && b != a && b != z {
        KeptContents(s, s', b);
      }
    }
  }

  lemma BetweenNone(bs: Blocks, lo: int, hi: int, a: int)
    requires Layout(bs, lo, hi) && a in bs && After(bs, a) in bs
    ensures a < After(bs, a)
    ensures forall b :: b in bs && a < b <= After(bs, a) ==> b == After(bs, a)
  {
  }

  lemma JoinPrefix(m: seq<Byte>, m': seq<Byte>, a: int, n: int, n': int)
    requires 0 <= a && 0 <= n <= n' && a + n' <= |m'| && a + n <= |m| && m[a..a + n] == m'[a..a + n]
    ensures m[a..a + n] <= m'[a..a + n']
  {
    assert m'[a..a + n] == m'[a..a + n'][..n];
  }

  /** Writing inside a block in use changes only that user's view. */
  lemma PayloadWriteStep(s: Snap, m': seq<Byte>, a: int)
    requires Good(s, {}) && a in s.bs && s.bs[a].used && OnlyChanged(s.m, m', a, a + s.bs[a].size)
    ensures 0 <= a && a + s.bs[a].size <= |m'|
    ensures Good(s.(m := m'), {})
    ensures Contents(s.(m := m')) == Contents(s)[a := m'[a..a + s.bs[a].size]]
  {
    PayloadWriteTags(s, m', a);
    PayloadWriteLists(s, m', a);
    hide Linked;
    hide Tags;
    hide Layout;
    GoodInMemory(s, {});
    GoodInMemory(s.(m := m'), {});
    hide Good;
    PayloadWriteOthers(s, m', a);
  }

  lemma PayloadOutside(s: Snap, m': seq<Byte>, a: int, b: int)
    requires Layout(s.bs, s.lo, s.hi) && a in s.bs && b in s.bs && b != a && OnlyChanged(s.m, m', a, a + s.bs[a].size)
    ensures SameBytes(s.m, m', b - BORDER, b + s.bs[b].size + BORDER)
  {
  }

  lemma PayloadWriteTags(s: Snap, m': seq<Byte>, a: int)
    requires Good(s, {}) && a in s.bs && OnlyChanged(s.m, m', a, a + s.bs[a].size)
    ensures Tags(m', s.bs)
  {
    hide Linked;
    hide Holds;
    forall b | b in s.bs
      ensures Tagged(m', b, s.bs[b])
    {
      assert Tagged(s.m, b, s.bs[b]);
      SameWord(s.m, m', b - BORDER, a, a + s.bs[a].size);
      SameWord(s.m, m', b + s.bs[b].size, a, a + s.bs[a].size);
    }
  }

  lemma PayloadWriteLists(s: Snap, m': seq<Byte>, a: int)
    requires Good(s, {}) && a in s.bs && s.bs[a].used && OnlyChanged(s.m, m', a, a + s.bs[a].size)
    ensures Linked(m', s.small, s.smallHead) && Linked(m', s.large, s.largeHead)
  {
    hide Linked;
    hide Tags;
    forall b | b in s.small || b in s.large
      ensures SameBytes(s.m, m', b, b + MIN_SIZE)
    {
      PayloadOutside(s, m', a, b);
    }
    LinkedFrame(s.m, m', s.small, s.smallHead);
    LinkedFrame(s.m, m', s.large, s.largeHead);
  }

  lemma PayloadWriteOthers(s: Snap, m': seq<Byte>, a: int)
    requires InMemory(s.m, s.bs) && InMemory(m', s.bs) && Layout(s.bs, s.lo, s.hi)
    requires a in s.bs && s.bs[a].used && OnlyChanged(s.m, m', a, a + s.bs[a].size)
    ensures Contents(s.(m := m')) == Contents(s)[a := m'[a..a + s.bs[a].size]]
  {
    hide Layout;
    hide OnlyChanged;
    forall b | b in s.bs && s.bs[b].used && b != a
      ensures m'[b..b + s.bs[b].size] == s.m[b..b + s.bs[b].size]
    {
      PayloadOther(s, m', a, b);
    }
  }

  lemma PayloadOther(s: Snap, m': seq<Byte>, a: int, b: int)
    requires Layout(s.bs, s.lo, s.hi) && a in s.bs && b in s.bs && b != a && OnlyChanged(s.m, m', a, a + s.bs[a].size)
    requires 0 <= b && 0 <= s.bs[b].size && b + s.bs[b].size <= |s.m|
    ensures |s.m| == |m'| && m'[b..b + s.bs[b].size] == s.m[b..b + s.bs[b].size]
  {
    PayloadOutside(s, m', a, b);
  }

  lemma UsersApart(s: Snap, a: int, b: int)
    requires Good(s, {}) && a in s.bs && b in s.bs && a != b
    ensures a + s.bs[a].size <= b || b + s.bs[b].size <= a
  {
  }

  // ---------------------------------------------------------------------------
  // A new heap: one free block
  // ---------------------------------------------------------------------------

  function FreeBlockBytes(m: seq<Byte>, a: int, size: int): (m': seq<Byte>)
    requires BORDER <= a && MIN_SIZE <= size && a + size + BORDER <= |m| < WORD_LIMIT
    ensures |m'| == |m|
  {
    SetWord(SetWord(SetWord(SetWord(m, a - BORDER, size), a, 0), a + BORDER, 0), a + size, size)
  }

  ghost function Fresh(m: seq<Byte>, lo: int, hi: int, cutoff: int): Snap
    requires 0 <= lo && hi - lo >= 2 * BORDER + MIN_SIZE && hi <= |m| < WORD_LIMIT
  {
    var a := lo + BORDER;
    var b := Block(hi - lo - 2 * BORDER, false);
    var m' := FreeBlockBytes(m, a, b.size);
    if b.size < cutoff then Snap(m', lo, hi, cutoff, map[a := b], [a], a, [], 0)
    else Snap(m', lo, hi, cutoff, map[a := b], [], 0, [a], a)
  }

  lemma FreshWords(m: seq<Byte>, a: int, n: int)
    requires BORDER <= a && n >= MIN_SIZE && a + n + BORDER <= |m| < WORD_LIMIT
    ensures var m' := FreeBlockBytes(m, a, n);
      Word(m', a - BORDER) == n && Word(m', a) == 0 && Word(m', a + BORDER) == 0 && Word(m', a + n) == n
  {
    hide Word;
    hide SetWord;
    var lo := a - BORDER;
    var m1 := SetWord(m, lo, n);
    var m2 := SetWord(m1, a, 0);
    var m3 := SetWord(m2, a + BORDER, 0);
    SetWordElsewhere(m1, a, 0, lo);
    SetWordElsewhere(m2, a + BORDER, 0, lo);
    SetWordElsewhere(m2, a + BORDER, 0, a);
    SetWordElsewhere(m3, a + n, n, lo);
    SetWordElsewhere(m3, a + n, n, a);
    SetWordElsewhere(m3, a + n, n, a + BORDER);
  }

  lemma FreshIsGood(m: seq<Byte>, lo: int, hi: int, cutoff: int)
    requires 0 < lo && hi - lo >= 2 * BORDER + MIN_SIZE && hi <= |m| < WORD_LIMIT && lo % 2 == 0 && hi % 2 == 0
    ensures Good(Fresh(m, lo, hi, cutoff), {})
    ensures Contents(Fresh(m, lo, hi, cutoff)) == map[]
  {
    hide Word;
    hide FreeBlockBytes;
    FreshWords(m, lo + BORDER, hi - lo - 2 * BORDER);
    var s := Fresh(m, lo, hi, cutoff);
    assert (hi - lo - 2 * BORDER) % 2 == 0;
  }
}
