/**
  The simple heap allocator: one region of bytes changed in place.

  Addresses are indices into `mem`; 0 is NULL. The ghost fields say which blocks tile the
  heap and what the two free lists contain; `Good` ties them to the bytes.
 */
module SimpleHeap {
  import opened Sequences
  import opened RawMemory
  import opened HeapBlocks
  import opened HeapSteps

  const PAGE := 4096

  /** validate_mb_size on 32-bit sizes: at least a free block, then even. The increment can wrap. */
  function ValidateSize(n: int): (r: int)
    requires 0 <= n < WORD_LIMIT
    ensures 0 <= r < WORD_LIMIT && r % 2 == 0
  {
    var s := if n < MIN_SIZE then MIN_SIZE else n;
    if s % 2 == 1 then (s + 1) % WORD_LIMIT else s
  }

  /** The rounded size serves the request exactly when the request is not the largest 32-bit number. */
  lemma ValidateSizeServes(n: int)
    requires 0 <= n < WORD_LIMIT
    ensures n <= ValidateSize(n) && MIN_SIZE <= ValidateSize(n) <==> n != WORD_LIMIT - 1
    ensures ValidateSize(WORD_LIMIT - 1) == 0
    ensures forall k :: n <= k && MIN_SIZE <= k && k % 2 == 0 ==> ValidateSize(n) <= k
  {
  }

  /**
    Cutting a block down to a request keeps the heap tiled exactly when the request is not that number: its
    rounded size is 0, which leaves a block that is no block.
   */
  lemma LargestRequestBreaks(bs: Blocks, lo: int, hi: int, a: int, n: int)
    requires Layout(bs, lo, hi) && a in bs && 0 <= n < WORD_LIMIT
    requires bs[a].size - ValidateSize(n) >= 2 * BORDER + MIN_SIZE
    ensures Layout(Split(bs, a, ValidateSize(n)), lo, hi) <==> n != WORD_LIMIT - 1
  {
    ValidateSizeServes(n);
    if n == WORD_LIMIT - 1 {
      assert a in Split(bs, a, 0) && Split(bs, a, 0)[a].size == 0;
    } else {
      LayoutSplit(bs, lo, hi, a, ValidateSize(n));
    }
  }

  /** The new break once the memory manager has mapped up to `pages` pages of a request. */
  function MappedUpTo(s: int, newBrk: int, pages: nat): int {
    if s + pages * 4096 < newBrk then s + pages * 4096 else newBrk
  }

  lemma MappedIsAligned(s: int, newBrk: int, pages: nat)
    requires s % PAGE == 0 && newBrk % PAGE == 0 && s <= newBrk
    ensures var e := MappedUpTo(s, newBrk, pages);
      s <= e <= newBrk && e % PAGE == 0 && e % 2 == 0 && (e == s || e - s >= PAGE)
  {
    assert (s + pages * 4096) % 4096 == 0;
    AlignedIsEven(MappedUpTo(s, newBrk, pages));
  }

  lemma Twice(m: int)
    ensures 2 * m % 2 == 0
  {
  }

  lemma AlignedIsEven(x: int)
    requires x % 4096 == 0
    ensures x % 2 == 0
  {
    Twice(2048 * (x / 4096));
  }

  lemma Replaced<T>(p: map<int, T>, p': map<int, T>, a: int)
    requires a in p && p'.Keys == p.Keys && forall b :: b in p && b != a ==> p'[b] == p[b]
    ensures p' == (p - {a})[a := p'[a]]
  {
    var q := (p - {a})[a := p'[a]];
    assert q.Keys == p.Keys;
    forall b | b in q
      ensures q[b] == p'[b]
    {
      if b != a {
        assert b in p - {a};
      }
    }
  }

  /** The shorter of the two starts the longer. */
  ghost predicate SamePrefix(s: seq<Byte>, t: seq<Byte>) {
    if |s| <= |t| then s <= t else t <= s
  }

  lemma ValidateEven(n: int)
    requires MIN_SIZE <= n < WORD_LIMIT && n % 2 == 0
    ensures n < WORD_LIMIT - 1 && ValidateSize(n) == n
  {
  }

  lemma NextPage(start: int, end: int)
    requires start % 4096 == 0 && end % 4096 == 0 && start < end
    ensures start + 4096 <= end
  {
    assert 4096 * (start / 4096) < 4096 * (end / 4096);
  }

  lemma EvenOffset(start: int, prologue: int)
    requires start % 2 == 0 && prologue % 4 == 0
    ensures (start + prologue) % 2 == 0
  {
    Twice(start / 2 + 2 * (prologue / 4));
  }

  /** Taking a neighbour over and then joining it is a stretch that keeps everyone's bytes. */
  lemma StretchedView(p: map<int, seq<Byte>>, p1: map<int, seq<Byte>>, p2: map<int, seq<Byte>>, a: int, z: int, n: int)
    requires a in p && z !in p && z in p1 && p1 == p[z := p1[z]] && Joined(p1, p2, a, z, n)
    ensures p2.Keys == p.Keys
    ensures forall b :: b in p && b != a ==> p2[b] == p[b]
    ensures |p2[a]| == n && p[a] <= p2[a]
  {
  }

  /** A copy into the first bytes of a block. */
  lemma CopiedInside(m: seq<Byte>, m': seq<Byte>, dst: int, src: int, n: nat, size: int)
    requires |m'| == |m| && 0 <= dst && n <= size && dst + size <= |m| && 0 <= src && src + n <= |m|
    requires m'[dst..dst + n] == m[src..src + n]
    requires forall i :: 0 <= i < |m| && !(dst <= i < dst + n) ==> m'[i] == m[i]
    ensures OnlyChanged(m, m', dst, dst + size)
    ensures m'[dst..dst + size] == m[src..src + n] + m[dst..dst + size][n..]
  {
    assert m'[dst..dst + size] == m'[dst..dst + n] + m'[dst + n..dst + size];
  }

  /** How much shal_malloc asks for: the block and its tags, in whole pages, on 32-bit sizes. */
  function MemNeeded(need: int): (n: int)
    requires 0 <= need < WORD_LIMIT
    ensures 0 <= n && n % 4096 == 0
    ensures need + 2 * BORDER + 4096 <= WORD_LIMIT ==> need + 2 * BORDER <= n
  {
    var sum := (need + 2 * BORDER) % WORD_LIMIT;
    if sum % 4096 == 0 then sum else
      var up := (sum + 4096) % WORD_LIMIT;
      up / 4096 * 4096
  }

  lemma FirstPage(m: seq<Byte>, start: int, prologue: int, cutoff: int)
    requires 0 < start < |m| < WORD_LIMIT && start % PAGE == 0 && |m| % PAGE == 0
    requires 0 < prologue && prologue % 4 == 0 && PAGE - prologue - 2 * BORDER >= MIN_SIZE
    ensures start + PAGE <= |m| && (start + PAGE) % PAGE == 0
    ensures var s := Fresh(m, start + prologue, start + PAGE, cutoff); Good(s, {}) && Contents(s) == map[]
  {
    NextPage(start, |m|);
    AlignedIsEven(start);
    AlignedIsEven(start + 4096);
    EvenOffset(start, prologue);
    FreshIsGood(m, start + prologue, start + PAGE, cutoff);
  }

  /** The tags and null links of a free block alone in its lists. */
  method WriteFreeBlock(mem: array<Byte>, a: int, size: int)
    requires BORDER <= a && MIN_SIZE <= size && a + size + BORDER <= mem.Length < WORD_LIMIT
    modifies mem
    ensures mem[..] == FreeBlockBytes(old(mem[..]), a, size)
  {
    hide SetWord;
    WriteWord(mem, a - BORDER, size);
    WriteWord(mem, a, 0);
    WriteWord(mem, a + BORDER, 0);
    WriteWord(mem, a + size, size);
  }

  /** How much a block gives up to make its left neighbour larger by `addn` bytes. */
  function PartToTake(addn: int): (amt: int)
    requires 0 < addn < WORD_LIMIT && addn % 2 == 0
    ensures amt == MIN_SIZE || MIN_SIZE < amt == addn - 2 * BORDER
    ensures addn <= amt + 2 * BORDER < addn + 2 * BORDER + MIN_SIZE
  {
    if addn > 2 * BORDER then ValidateSize(addn - 2 * BORDER) else ValidateSize(0)
  }

  /** A block of `size` bytes is cut to `bytes` when the rest can be a block. */
  function CutTo(size: int, bytes: int): int {
    if size - bytes >= 2 * BORDER + MIN_SIZE then bytes else size
  }

  class Heap {
    const heapStart: int
    const end: int
    const cutoff: int
    const smallSearch: nat
    const largeSearch: nat
    const mem: array<Byte>

    var brk: int
    var numUserBlocks: int
    var exhausted: bool
    var smallHead: int
    var largeHead: int

    ghost var blocks: Blocks
    ghost var smallList: seq<int>
    ghost var largeList: seq<int>

    ghost function Snapshot(): Snap
      reads this, mem
    {
      Snap(mem[..], heapStart, brk, cutoff, blocks, smallList, smallHead, largeList, largeHead)
    }

    /** The invariant of the heap while the blocks in `loose` are out of the free lists. */
    ghost predicate Inv(loose: set<int>)
      reads this, mem
    {
      && mem.Length == end && brk <= end && brk % PAGE == 0 && end % PAGE == 0
      && Good(Snapshot(), loose)
    }

    /** What users see: the payload of each allocated block. */
    ghost function Payloads(): map<int, seq<Byte>>
      reads this, mem
    {
      Contents(Snapshot())
    }

    ghost predicate Valid()
      reads this, mem
    {
      Inv({}) && numUserBlocks == |Payloads()|
    }

    /**
      new_simple_heap_allocator once its first page is mapped: `prologue` bytes of bookkeeping,
      then one free block up to the end of that page.
     */
    constructor (region: array<Byte>, start: int, prologue: int, cutoff: int, smallSearch: nat, largeSearch: nat)
      requires 0 < start < region.Length < WORD_LIMIT && start % PAGE == 0 && region.Length % PAGE == 0
      requires 0 < prologue && prologue % 4 == 0 && PAGE - prologue - 2 * BORDER >= MIN_SIZE
      modifies region
      ensures Valid() && Payloads() == map[] && mem == region && brk == start + PAGE
    {
      hide Good, Contents, FreeBlockBytes;
      FirstPage(region[..], start, prologue, cutoff);
      var a := start + prologue + BORDER;
      var size := PAGE - prologue - 2 * BORDER;
      this.mem, this.heapStart, this.end := region, start + prologue, region.Length;
      this.cutoff, this.smallSearch, this.largeSearch := cutoff, smallSearch, largeSearch;
      brk, exhausted, numUserBlocks := start + PAGE, false, 0;
      smallHead, smallList := if size < cutoff then a else 0, if size < cutoff then [a] else [];
      largeHead, largeList := if size < cutoff then 0 else a, if size < cutoff then [] else [a];
      blocks := map[a := Block(size, false)];
      ghost var m := region[..];
      new;
      WriteFreeBlock(mem, a, size);
      assert Snapshot() == Fresh(m, heapStart, brk, cutoff);
    }

    /** mb_get_size */
    method GetSize(a: int) returns (size: int)
      requires BORDER <= a <= mem.Length
      ensures size == Word(mem[..], a - BORDER) - Word(mem[..], a - BORDER) % 2
    {
      var w := ReadWord(mem, a - BORDER);
      size := w - w % 2;
    }

    /** mb_get_allocated */
    method GetUsed(a: int) returns (used: bool)
      requires BORDER <= a <= mem.Length
      ensures used == (Word(mem[..], a - BORDER) % 2 == 1)
    {
      var w := ReadWord(mem, a - BORDER);
      used := w % 2 == 1;
    }

    /** shal_remove_fb */
    method RemoveFree(a: int, ghost loose: set<int>)
      requires Inv(loose) && Listed(blocks, loose, a)
      modifies this`smallHead, this`largeHead, this`smallList, this`largeList, mem
      ensures Inv(loose + {a})
      ensures Payloads() == old(Payloads())
    {
      hide Good, Contents, Word, SetWord;
      ghost var s := Snapshot();
      ghost var k := RemoveFacts(s, loose, a);
      var size := GetSize(a);
      var prev := ReadWord(mem, a);
      var next := ReadWord(mem, a + BORDER);
      if prev != 0 {
        WriteWord(mem, prev + BORDER, next);
      } else if size < cutoff {
        smallHead := next;
      } else {
        largeHead := next;
      }
      if next != 0 {
        WriteWord(mem, next, prev);
      }
      WriteWord(mem, a, 0);
      WriteWord(mem, a + BORDER, 0);
      if size < cutoff {
        smallList := Without(smallList, k);
      } else {
        largeList := Without(largeList, k);
      }
      assert Snapshot() == Unlinked(s, a, k);
    }

    /** shal_add_fb */
    method AddFree(a: int, ghost loose: set<int>)
      requires Inv(loose) && a in loose && a in blocks && !blocks[a].used && Isolated(blocks, a)
      modifies this`smallHead, this`largeHead, this`smallList, this`largeList, mem
      ensures Inv(loose - {a})
      ensures Payloads() == old(Payloads())
    {
      hide Good, Contents, Word, SetWord;
      ghost var s := Snapshot();
      AddFacts(s, loose, a);
      var size := GetSize(a);
      WriteWord(mem, a, 0);
      if size < cutoff {
        WriteWord(mem, a + BORDER, smallHead);
        if smallHead != 0 {
          WriteWord(mem, smallHead, a);
        }
        smallHead := a;
        smallList := [a] + smallList;
      } else {
        WriteWord(mem, a + BORDER, largeHead);
        if largeHead != 0 {
          WriteWord(mem, largeHead, a);
        }
        largeHead := a;
        largeList := [a] + largeList;
      }
      assert Snapshot() == Pushed(s, a);
    }

    /** shal_mb_prev and the left half of shal_coalesce. */
    method DetachLeft(mb: int) returns (hdr: int, ghost a: int)
      requires Inv({mb}) && mb in blocks
      modifies this`smallHead, this`largeHead, this`smallList, this`largeList, mem
      ensures Inv({mb, a}) && MergeStart(blocks, mb, a) && hdr == a - BORDER
      ensures Payloads() == old(Payloads())
    {
      hide Good, Contents, Word, SetWord;
      a := mb;
      hdr := mb - BORDER;
      assert {mb} == {mb, mb};
      BlockFacts(Snapshot(), {mb}, mb);
      if hdr == heapStart {
        FirstHasNoLeft(Snapshot(), {mb}, mb);
      } else {
        ghost var p := NeighbourFacts(Snapshot(), {mb}, mb);
        BlockFacts(Snapshot(), {mb}, p);
        var prevTag := ReadWord(mem, mb - 2 * BORDER);
        var prev := mb - 2 * BORDER - (prevTag - prevTag % 2);
        var used := GetUsed(prev);
        if !used {
          RemoveFree(prev, {mb});
          hdr := prev - BORDER;
          a := prev;
          assert {mb} + {prev} == {mb, a};
        }
      }
    }

    /** shal_mb_next and the right half of shal_coalesce. */
    method DetachRight(mb: int, ghost a: int) returns (ftr: int, ghost z: int)
      requires Inv({mb, a}) && mb in blocks && MergeStart(blocks, mb, a)
      modifies this`smallHead, this`largeHead, this`smallList, this`largeList, mem
      ensures Inv({mb, a, z}) && MergeEnd(blocks, mb, z) && ftr == z + blocks[z].size
      ensures Payloads() == old(Payloads())
    {
      hide Good, Contents, Word, SetWord;
      z := mb;
      assert {mb, a} == {mb, a, mb};
      BlockFacts(Snapshot(), {mb, a}, mb);
      var size := GetSize(mb);
      ftr := mb + size;
      var next := ftr + 2 * BORDER;
      if next < brk {
        BlockFacts(Snapshot(), {mb, a}, next);
        var used := GetUsed(next);
        if !used {
          LeftOf(Snapshot(), {mb, a}, mb, a);
          RemoveFree(next, {mb, a});
          assert {mb, a} + {next} == {mb, a, next};
          BlockFacts(Snapshot(), {mb, a, next}, next);
          var nextSize := GetSize(next);
          ftr := next + nextSize;
          z := next;
        }
      } else {
        LastHasNoRight(Snapshot(), {mb, a}, mb);
      }
    }

    /** shal_coalesce. The block must be in neither list; so is the one returned. */
    method Coalesce(mb: int) returns (fb: int)
      requires Inv({mb}) && mb in blocks
      modifies this`smallHead, this`largeHead, this`smallList, this`largeList, this`blocks, mem
      ensures fb in blocks && !blocks[fb].used && Isolated(blocks, fb) && 0 < fb
      ensures Inv({fb})
      ensures FreeKept(old(blocks), blocks, fb) && (mb in blocks ==> mb == fb)
      ensures blocks[fb].size >= old(blocks[mb].size)
      ensures Payloads() == old(Payloads()) - {mb}
    {
      hide Good, Contents, Word, SetWord, Isolated, MergeStart, MergeEnd, Coalesced;
      GoodCoalesced(Snapshot(), {mb});
      var hdr; var ftr; ghost var a; ghost var z;
      hdr, a := DetachLeft(mb);
      ftr, z := DetachRight(mb, a);
      fb := hdr + BORDER;
      JoinTags(mb, hdr, ftr, a, z);
    }

    /** The end of shal_coalesce: one tag for the whole stretch. */
    method JoinTags(ghost mb: int, hdr: int, ftr: int, ghost a: int, ghost z: int)
      requires Inv({mb, a, z}) && Coalesced(blocks, {mb}) && MergeEnds(blocks, mb, a, z)
      requires hdr == a - BORDER && ftr == z + blocks[z].size
      modifies this`blocks, mem
      ensures a in blocks && !blocks[a].used && Isolated(blocks, a) && 0 < a
      ensures Inv({a})
      ensures FreeKept(old(blocks), blocks, a) && (mb in blocks ==> mb == a) && blocks[a].size >= old(blocks[mb].size)
      ensures Payloads() == old(Payloads()) - {mb}
    {
      hide Good, Contents, Word, SetWord, Isolated, MergeEnds, Coalesced, FreeKept;
      ghost var s := Snapshot();
      CoalesceStep(s, {mb, a, z}, mb, a, z);
      var size := ftr - (hdr + BORDER);
      WriteWord(mem, hdr, size);
      WriteWord(mem, ftr, size);
      blocks := Fuse(blocks, a, z, false);
      assert Snapshot() == Fused(s, a, z, false);
    }

    /** The size a block is left with when a user asks for `bytes` of it. */
    ghost function ShrunkSize(mb: int, bytes: int): int
      reads this
      requires mb in blocks
    {
      CutTo(blocks[mb].size, bytes)
    }

    /** The block to the right of `mb` is free and large enough for `mb` to grow to `need` bytes. */
    ghost predicate CanStretch(mb: int, need: int)
      reads this
      requires mb in blocks
    {
      var next := After(blocks, mb);
      next in blocks && !blocks[next].used && blocks[mb].size + 2 * BORDER + blocks[next].size >= need
    }

    /** The else branch of shal_shrink_left: the whole block becomes allocated. */
    method MarkUsed(mb: int, size: int)
      requires Inv({mb}) && mb in blocks && size == blocks[mb].size
      modifies this`blocks, mem
      ensures Inv({})
      ensures 0 <= mb <= mb + size <= mem.Length && Payloads() == old(Payloads())[mb := old(mem[..])[mb..mb + size]]
    {
      hide Good, Contents, Word, SetWord;
      ghost var s := Snapshot();
      BlockFacts(s, {mb}, mb);
      MarkStep(s, mb);
      var hdr := ReadWord(mem, mb - BORDER);
      var ftr := ReadWord(mem, mb + size);
      SetWordElsewhere(s.m, mb - BORDER, Tag(Block(size, true)), mb + size);
      WriteWord(mem, mb - BORDER, hdr - hdr % 2 + 1);
      WriteWord(mem, mb + size, ftr - ftr % 2 + 1);
      blocks := Fuse(blocks, mb, mb, true);
      assert Snapshot() == Fused(s, mb, mb, true);
    }

    /** The tags shal_shrink_left writes when it cuts a block in two. */
    method CutBlock(mb: int, bytes: int, size: int) returns (newFb: int)
      requires Inv({mb}) && mb in blocks && size == blocks[mb].size
      requires MIN_SIZE <= bytes && bytes % 2 == 0 && size - bytes >= 2 * BORDER + MIN_SIZE
      modifies this`blocks, mem
      ensures Inv({newFb}) && newFb in blocks && newFb !in Payloads()
      ensures 0 <= mb <= mb + bytes <= mem.Length && Payloads() == old(Payloads())[mb := old(mem[..])[mb..mb + bytes]]
    {
      hide Good, Contents, Word, SetWord;
      ghost var s := Snapshot();
      BlockFacts(s, {mb}, mb);
      CutStep(s, mb, bytes);
      WriteWord(mem, mb - BORDER, bytes + 1);
      WriteWord(mem, mb + bytes, bytes + 1);
      newFb := mb + bytes + 2 * BORDER;
      var newSize := size - bytes - 2 * BORDER;
      WriteWord(mem, newFb - BORDER, newSize);
      WriteWord(mem, newFb + newSize, newSize);
      blocks := Split(blocks, mb, bytes);
      assert Snapshot() == Cut(s, mb, bytes);
      BlockFacts(Snapshot(), {newFb}, newFb);
    }

    /**
      shal_shrink_left. The block must be in no list; its first bytes go to the user, and what
      is left over becomes a listed free block if it is large enough for one.
     */
    method ShrinkLeft(mb: int, bytes: int)
      requires Inv({mb}) && mb in blocks
      requires MIN_SIZE <= bytes <= blocks[mb].size && bytes % 2 == 0
      modifies this`smallHead, this`largeHead, this`smallList, this`largeList, this`blocks, mem
      ensures Inv({})
      ensures var n := old(ShrunkSize(mb, bytes));
        0 <= mb <= mb + n <= mem.Length && Payloads() == old(Payloads())[mb := old(mem[..])[mb..mb + n]]
    {
      hide Good, Contents, Word, SetWord, Isolated;
      BlockFacts(Snapshot(), {mb}, mb);
      var size := GetSize(mb);
      var leftOver := size - bytes;
      if leftOver >= 2 * BORDER + MIN_SIZE {
        var newFb := CutBlock(mb, bytes, size);
        var fb := Coalesce(newFb);
        AddFree(fb, {fb});
        assert {fb} - {fb} == {};
      } else {
        MarkUsed(mb, size);
      }
    }

    /** The pages from the break to `trueE` become one free block, not yet coalesced. */
    method MapPages(trueE: int) returns (newB: int)
      requires Inv({}) && brk + PAGE <= trueE <= end && trueE % PAGE == 0 && trueE % 2 == 0
      modifies this`blocks, this`brk, mem
      ensures brk == trueE && newB !in old(blocks)
      ensures blocks == old(blocks)[newB := Block(trueE - old(brk) - 2 * BORDER, false)]
      ensures Inv({newB}) && newB !in Payloads() && Payloads() == old(Payloads())
    {
      hide Good, Contents, Word, SetWord;
      ghost var snap := Snapshot();
      ExtendStep(snap, trueE);
      var s := brk;
      brk := trueE;
      var newSize := trueE - s - 2 * BORDER;
      newB := s + BORDER;
      WriteWord(mem, s, newSize);
      WriteWord(mem, newB + newSize, newSize);
      blocks := blocks[newB := Block(newSize, false)];
      assert Snapshot() == Grown(snap, trueE);
      BlockFacts(Snapshot(), {newB}, newB);
    }

    /**
      shal_request_mem. The memory manager maps `pages` pages before it stops, or all that is
      asked for; it reports an error exactly when it stops early.
     */
    method RequestMem(newBrk: int, pages: nat) returns (newFb: int)
      requires Inv({}) && brk <= newBrk <= end && newBrk % PAGE == 0
      modifies this`smallHead, this`largeHead, this`smallList, this`largeList, this`blocks, this`brk, this`exhausted,
        mem
      ensures brk == if old(exhausted) then old(brk) else MappedUpTo(old(brk), newBrk, pages)
      ensures exhausted == (old(exhausted) || brk < newBrk)
      ensures newFb == 0 ==> brk == old(brk) && Snapshot() == old(Snapshot()) && Inv({})
      ensures newFb != 0 ==>
        brk > old(brk) && newFb in blocks && !blocks[newFb].used && Isolated(blocks, newFb) && Inv({newFb})
      ensures newFb != 0 ==> FreeKept(old(blocks), blocks, newFb)
      ensures brk > old(brk) ==> newFb != 0 && blocks[newFb].size >= brk - old(brk) - 2 * BORDER
      ensures Payloads() == old(Payloads())
    {
      hide Good, Contents, Word, SetWord, Isolated;
      newFb := 0;
      if exhausted {
        return;
      }
      var s := brk;
      var trueE := MappedUpTo(s, newBrk, pages);
      MappedIsAligned(s, newBrk, pages);
      if s < trueE {
        var newB := MapPages(trueE);
        newFb := Coalesce(newB);
      }
      if trueE != newBrk {
        exhausted := true;
      }
    }

    ghost function FreeList(large: bool): seq<int>
      reads this
    {
      if large then largeList else smallList
    }

    /** No free block of one of the two size classes is as large as `bytes`. */
    ghost predicate NoneOnSide(large: bool, bytes: int)
      reads this
    {
      forall a :: Listed(blocks, {}, a) && (blocks[a].size >= cutoff) == large ==> blocks[a].size < bytes
    }

    /** The first `n` blocks of a list are too small. */
    ghost predicate TooSmall(l: seq<int>, n: nat, bytes: int)
      reads this
    {
      n <= |l| && forall k :: 0 <= k < n ==> l[k] in blocks && blocks[l[k]].size < bytes
    }

    /** The first block of a list that is large enough, among the first `stopAmt` ones if that is not 0. */
    method WalkFreeList(large: bool, stopAmt: nat, bytes: int) returns (fb: int, searched: nat)
      requires Inv({})
      ensures var l := FreeList(large);
        if fb == 0 then TooSmall(l, searched, bytes) && (searched == |l| || (stopAmt != 0 && searched >= stopAmt))
        else
          && 0 < searched <= |l| && TooSmall(l, searched - 1, bytes) && fb == l[searched - 1]
          && Listed(blocks, {}, fb) && blocks[fb].size >= bytes
      ensures stopAmt != 0 ==> searched <= stopAmt
    {
      hide Good, Contents, Word, SetWord, Isolated;
      var iter := if large then largeHead else smallHead;
      fb := 0;
      searched := 0;
      ghost var l := FreeList(large);
      ListFacts(Snapshot(), {}, large);
      while iter != 0 && (stopAmt == 0 || searched < stopAmt)
        invariant TooSmall(l, searched, bytes) && iter == (if searched == |l| then 0 else l[searched])
        invariant stopAmt != 0 ==> searched <= stopAmt
        decreases |l| - searched
      {
        ElementFacts(Snapshot(), {}, large, searched);
        searched := searched + 1;
        var size := GetSize(iter);
        if size >= bytes {
          assert l[searched - 1] in l;
          return iter, searched;
        }
        iter := ReadWord(mem, iter + BORDER);
      }
      if searched < |l| { ElementFacts(Snapshot(), {}, large, searched); }
    }

    /**
      shal_search_free_list: the first listed block of at least `bytes`, among the first
      `stopAmt` ones when `stopEarly` and the amount is not 0. It leaves its list.
     */
    method SearchFreeList(large: bool, stopEarly: bool, bytes: int) returns (fb: int, searched: nat)
      requires Inv({})
      modifies this`smallHead, this`largeHead, this`smallList, this`largeList, mem
      ensures fb == 0 ==> Snapshot() == old(Snapshot()) && Inv({})
      ensures fb == 0 && (!stopEarly || searched != (if large then largeSearch else smallSearch)) ==>
        NoneOnSide(large, bytes)
      ensures fb != 0 ==>
        fb in blocks && !blocks[fb].used && blocks[fb].size >= bytes && Isolated(blocks, fb) && Inv({fb})
      ensures fb == 0 ==> TooSmall(FreeList(large), searched, bytes)
      ensures fb != 0 ==> var l := old(FreeList(large));
        0 < searched <= |l| && TooSmall(l, searched - 1, bytes) && fb == l[searched - 1]
      ensures Payloads() == old(Payloads())
    {
      hide Good, Contents, Word, SetWord, Isolated;
      fb, searched := WalkFreeList(large, if !stopEarly then 0 else if large then largeSearch else smallSearch, bytes);
      if fb != 0 {
        FreeIsIsolated(Snapshot(), fb);
        RemoveFree(fb, {});
        assert {} + {fb} == {fb};
      } else if searched == |FreeList(large)| {
        ListFacts(Snapshot(), {}, large);
        AllTooSmall(large, searched, bytes);
      }
    }

    lemma AllTooSmall(large: bool, n: nat, bytes: int)
      requires Inv({}) && n == |FreeList(large)| && TooSmall(FreeList(large), n, bytes)
      ensures NoneOnSide(large, bytes)
    {
      hide Good;
      ListFacts(Snapshot(), {}, large);
      forall a | Listed(blocks, {}, a) && (blocks[a].size >= cutoff) == large
        ensures blocks[a].size < bytes
      {
        var l := FreeList(large);
        assert a in l;
        var k :| 0 <= k < |l| && l[k] == a;
      }
    }

    /** No free block is as large as `bytes`. */
    ghost predicate NoneFits(bytes: int)
      reads this
    {
      forall a :: a in blocks && !blocks[a].used ==> blocks[a].size < bytes
    }

    /** The memory manager can still map a whole block of `need` bytes with its tags. */
    ghost predicate CanGrowBy(need: int, pages: nat)
      reads this
      requires 0 <= need < WORD_LIMIT
    {
      && !exhausted
      && need + 2 * BORDER + 4096 <= WORD_LIMIT
      && MemNeeded(need) <= end - brk
      && MemNeeded(need) <= pages * 4096
    }

    /** The growth attempt of shal_malloc. A block that is too small joins the free lists. */
    method TryGrow(need: int, pages: nat) returns (fb: int)
      requires Inv({}) && 0 <= need < WORD_LIMIT
      modifies this`smallHead, this`largeHead, this`smallList, this`largeList, this`blocks, this`brk, this`exhausted,
        mem
      ensures fb == 0 ==> Inv({})
      ensures fb == 0 ==>
        forall b :: b in blocks && !blocks[b].used && blocks[b].size >= need ==>
          b in old(blocks) && old(blocks)[b] == blocks[b]
      ensures fb != 0 ==> fb in blocks && !blocks[fb].used && blocks[fb].size >= need && Inv({fb})
      ensures old(CanGrowBy(need, pages)) ==> fb != 0
      ensures Payloads() == old(Payloads())
    {
      hide Good, Contents, Word, SetWord, Isolated;
      BrkBound(Snapshot(), {});
      var memNeeded := MemNeeded(need);
      var memLeft := end - brk;
      if memLeft < memNeeded {
        memNeeded := memLeft;
      }
      fb := RequestMem(brk + memNeeded, pages);
      if fb != 0 {
        BlockFacts(Snapshot(), {fb}, fb);
        var size := GetSize(fb);
        if size < need {
          AddFree(fb, {fb});
          assert {fb} - {fb} == {};
          fb := 0;
        }
      }
    }

    /** The three searches of shal_malloc: bounded, after growing, and exhaustive. */
    method FindBlock(need: int, pages: nat) returns (fb: int)
      requires Inv({}) && 0 <= need < WORD_LIMIT
      modifies this`smallHead, this`largeHead, this`smallList, this`largeList, this`blocks, this`brk, this`exhausted,
        mem
      ensures fb == 0 ==> Inv({}) && NoneFits(need)
      ensures fb != 0 ==> fb in blocks && !blocks[fb].used && blocks[fb].size >= need && Inv({fb})
      ensures old(CanGrowBy(need, pages)) ==> fb != 0
      ensures Payloads() == old(Payloads())
    {
      hide Good, Contents, Word, SetWord, Isolated;
      fb := 0;
      var smallSearched := 0;
      var largeSearched := 0;
      if need < cutoff {
        fb, smallSearched := SearchFreeList(false, true, need);
      }
      if fb == 0 {
        fb, largeSearched := SearchFreeList(true, true, need);
      }
      if fb == 0 && !exhausted {
        fb := TryGrow(need, pages);
      }
      if fb == 0 && need < cutoff && smallSearched == smallSearch {
        fb, smallSearched := SearchFreeList(false, false, need);
      }
      if fb == 0 && largeSearched == largeSearch {
        fb, smallSearched := SearchFreeList(true, false, need);
      }
    }

    /** The cut that a request of 2^32 - 1 bytes, rounded to 0, makes of block `a`: the heap is not tiled after it. */
    ghost predicate BreaksAt(a: int)
      reads this, mem
    {
      Inv({a}) && a in blocks && blocks[a].size >= 2 * BORDER + MIN_SIZE && !Layout(Split(blocks, a, 0), heapStart, brk)
    }

    /**
      shal_malloc. `pages` is how many more pages the memory manager would map if asked.

      A result is a new block of at least the requested size whose allocation leaves every other
      user's bytes alone; NULL means that afterwards no free block is large enough. The one request whose
      rounded size wraps to 0 is not served: it gives a whole block that is too small to be cut, or the cut
      that `broken` reports, where the model ends.
     */
    method Malloc(bytes: int, pages: nat) returns (fb: int, broken: bool)
      requires Valid() && 0 <= bytes < WORD_LIMIT
      modifies this`numUserBlocks, this`smallHead, this`largeHead, this`smallList, this`largeList, this`blocks,
        this`brk,
        this`exhausted, mem
      ensures if broken then bytes == WORD_LIMIT - 1 && BreaksAt(fb) else Valid()
      ensures fb == 0 ==> !broken && Payloads() == old(Payloads())
      ensures fb == 0 && bytes != 0 ==> NoneFits(ValidateSize(bytes)) && !old(CanGrowBy(ValidateSize(bytes), pages))
      ensures fb != 0 && !broken ==>
        fb !in old(Payloads()) && fb in Payloads() && Payloads() == old(Payloads())[fb := Payloads()[fb]]
        && |Payloads()[fb]| < ValidateSize(bytes) + 2 * BORDER + MIN_SIZE
      ensures fb != 0 && bytes != WORD_LIMIT - 1 ==> bytes <= ValidateSize(bytes) <= |Payloads()[fb]|
      ensures bytes == 0 ==> fb == 0
    {
      hide Good, Contents, Word, SetWord, Isolated;
      broken := false;
      if bytes == 0 {
        return 0, false;
      }
      var need := ValidateSize(bytes);
      ValidateSizeServes(bytes);

      fb := FindBlock(need, pages);
      if fb != 0 {
        BlockFacts(Snapshot(), {fb}, fb);
        if need == 0 {
          broken := HandWhole(fb);
          if broken {
            return;
          }
        } else {
          ShrinkLeft(fb, need);
        }
        numUserBlocks := numUserBlocks + 1;
      }
    }

    /**
      shal_shrink_left to 0 bytes: a block that is too small for a cut goes whole, any other would be cut to nothing.
     */
    method HandWhole(mb: int) returns (broken: bool)
      requires Inv({mb}) && mb in blocks
      modifies this`blocks, mem
      ensures broken == (old(blocks[mb]).size >= 2 * BORDER + MIN_SIZE)
      ensures broken ==> BreaksAt(mb) && Payloads() == old(Payloads())
      ensures !broken ==> Inv({}) && 0 <= mb <= mb + old(blocks[mb]).size <= mem.Length
      ensures !broken ==> Payloads() == old(Payloads())[mb := old(mem[..])[mb..mb + old(blocks[mb]).size]]
    {
      hide Good, Contents, Word, SetWord, Isolated;
      BlockFacts(Snapshot(), {mb}, mb);
      var size := GetSize(mb);
      broken := size >= 2 * BORDER + MIN_SIZE;
      if broken {
        GoodLayout(Snapshot(), {mb});
        ValidateSizeServes(WORD_LIMIT - 1);
        LargestRequestBreaks(blocks, heapStart, brk, mb, WORD_LIMIT - 1);
      } else {
        MarkUsed(mb, size);
      }
    }

    /** A pointer that shal_free and shal_realloc may be given: NULL, outside the heap, or a block. */
    ghost predicate Pointer(ptr: int)
      reads this
    {
      ptr <= 0 || ptr < heapStart || brk <= ptr || ptr in blocks
    }

    /**
      shal_free: the block is gone from its user's view and nobody else's changes; anything but an allocated block is
      ignored.
     */
    method Free(ptr: nat)
      requires Valid() && Pointer(ptr)
      modifies this`numUserBlocks, this`smallHead, this`largeHead, this`smallList, this`largeList, this`blocks, mem
      ensures Valid()
      ensures Payloads() == old(Payloads()) - {ptr}
    {
      hide Good, Contents, Word, SetWord, Isolated;
      if ptr == 0 {
        NotInHeap(Snapshot(), ptr);
        return;
      }
      if ptr < heapStart || brk <= ptr {
        NotInHeap(Snapshot(), ptr);
        return;
      }
      BlockFacts(Snapshot(), {}, ptr);
      var used := GetUsed(ptr);
      if !used {
        return;
      }
      LooseUsed(Snapshot(), ptr);
      var newFb := Coalesce(ptr);
      AddFree(newFb, {newFb});
      assert {newFb} - {newFb} == {};
      numUserBlocks := numUserBlocks - 1;
    }

    /** The in-place stretch of shal_realloc: the free block to the right gives what is missing. */
    method StretchRight(mb: int, next: int, size: int, need: int)
      requires Inv({}) && mb in blocks && blocks[mb] == Block(size, true)
      requires next == After(blocks, mb) && next in blocks && !blocks[next].used
      requires size < need && need % 2 == 0 && need - size <= blocks[next].size + 2 * BORDER && need < WORD_LIMIT
      modifies this`smallHead, this`largeHead, this`smallList, this`largeList, this`blocks, mem
      ensures Inv({})
      ensures mb in old(Payloads()) && Payloads().Keys == old(Payloads()).Keys
      ensures forall b :: b in Payloads() && b != mb ==> Payloads()[b] == old(Payloads())[b]
      ensures need <= |Payloads()[mb]| < need + 2 * (2 * BORDER + MIN_SIZE) && old(Payloads())[mb] <= Payloads()[mb]
    {
      hide Good, Contents, Word, SetWord, Joined;
      ghost var p := Payloads();
      TakeRight(mb, next, size, need);
      ghost var p1 := Payloads();
      UserFacts(Snapshot(), {}, next);
      UserFacts(Snapshot(), {}, mb);
      BlockFacts(Snapshot(), {}, next);
      var nextSize := GetSize(next);
      var stretch := size + 2 * BORDER + nextSize;
      JoinUsed(mb, next, mb - BORDER, next + nextSize, stretch);
      StretchedView(p, p1, Payloads(), mb, next, stretch);
    }

    /** The first half of the stretch: the right neighbour is cut to size and marked used. */
    method TakeRight(mb: int, next: int, size: int, need: int)
      requires Inv({}) && mb in blocks && blocks[mb] == Block(size, true)
      requires next == After(blocks, mb) && next in blocks && !blocks[next].used
      requires size < need && need % 2 == 0 && need - size <= blocks[next].size + 2 * BORDER && need < WORD_LIMIT
      modifies this`smallHead, this`largeHead, this`smallList, this`largeList, this`blocks, mem
      ensures Inv({})
      ensures mb in old(Payloads()) && |old(Payloads())[mb]| == size && next !in old(Payloads())
      ensures next in Payloads() && Payloads() == old(Payloads())[next := Payloads()[next]]
      ensures need <= size + 2 * BORDER + |Payloads()[next]| < need + 2 * (2 * BORDER + MIN_SIZE)
    {
      hide Good, Contents, Word, SetWord, Isolated, PartToTake;
      BlockFacts(Snapshot(), {}, mb);
      BlockFacts(Snapshot(), {}, next);
      var amt := PartToTake(need - size);
      ghost var n := ShrunkSize(next, amt);
      RemoveFree(next, {});
      assert {} + {next} == {next};
      ShrinkLeft(next, amt);
      assert |Payloads()[next]| == n;
    }

    /** The last writes of shal_realloc: one tag over two used blocks. */
    method JoinUsed(ghost mb: int, ghost next: int, hdr: int, ftr: int, stretch: int)
      requires Inv({}) && mb in blocks && blocks[mb].used && next in blocks && blocks[next].used
      requires next == After(blocks, mb)
      requires hdr == mb - BORDER && ftr == next + blocks[next].size && stretch == ftr - mb
      modifies this`blocks, mem
      ensures Inv({})
      ensures Joined(old(Payloads()), Payloads(), mb, next, stretch)
    {
      hide Good, Contents, Word, SetWord, Joined, Fuse;
      ghost var s := Snapshot();
      JoinStep(s, mb, next);
      WriteWord(mem, hdr, stretch + 1);
      WriteWord(mem, ftr, stretch + 1);
      blocks := Fuse(blocks, mb, next, true);
      assert Snapshot() == Fused(s, mb, next, true);
    }

    /** mem_cpy from one user's block to the start of another's. */
    method CopyPayload(dst: int, src: int, n: nat)
      requires Inv({}) && dst in Payloads() && src in Payloads() && dst != src
      requires |Payloads()[src]| == n <= |Payloads()[dst]|
      modifies mem
      ensures Inv({})
      ensures old(Payloads()[src]) <= Payloads()[dst]
      ensures dst in old(Payloads())
      ensures Payloads() == old(Payloads())[dst := old(Payloads()[src]) + old(Payloads()[dst])[n..]]
    {
      hide Good, Contents, Word, SetWord;
      ghost var s := Snapshot();
      UserFacts(s, {}, dst);
      UserFacts(s, {}, src);
      UsersApart(s, dst, src);
      CopyBytes(mem, dst, src, n);
      CopiedInside(s.m, mem[..], dst, src, n, blocks[dst].size);
      PayloadWriteStep(s, mem[..], dst);
      assert Snapshot() == s.(m := mem[..]);
    }

    /** The labour-intensive branch of shal_realloc: a new block, a copy, and the old one freed. */
    method MoveBlock(mb: nat, size: int, need: int, pages: nat) returns (r: int)
      requires Valid() && mb in blocks && blocks[mb] == Block(size, true) && 0 < mb
      requires size < need < WORD_LIMIT && need % 2 == 0 && MIN_SIZE <= need
      modifies this`numUserBlocks, this`smallHead, this`largeHead, this`smallList, this`largeList, this`blocks,
        this`brk,
        this`exhausted, mem
      ensures Valid()
      ensures mb in old(Payloads()) && |old(Payloads())[mb]| == size
      ensures r == 0 ==> Payloads() == old(Payloads()) && NoneFits(need) && !old(CanGrowBy(need, pages))
      ensures r != 0 ==>
        r !in old(Payloads()) && r in Payloads() && Payloads() == (old(Payloads()) - {mb})[r := Payloads()[r]]
      ensures r != 0 ==>
        need <= |Payloads()[r]| < need + 2 * BORDER + MIN_SIZE && old(Payloads())[mb] <= Payloads()[r]
    {
      hide Good, Contents, Word, SetWord, Isolated;
      ValidateEven(need);
      ContentsSlice(Snapshot(), mb);
      ghost var p := Payloads();
      var broken;
      r, broken := Malloc(need, pages);
      if r == 0 {
        return;
      }
      CopyPayload(r, mb, size);
      UserFacts(Snapshot(), {}, mb);
      Free(mb);
    }

    /**
      shal_realloc. On success the block returned is the only one whose user view changes: it
      has the requested size and keeps the first min(old, new) bytes; the old block is gone
      unless it is the one returned. On failure nothing changes.
     */
    method Realloc(ptr: nat, bytes: int, pages: nat) returns (r: int, broken: bool)
      requires Valid() && Pointer(ptr) && 0 <= bytes < WORD_LIMIT
      modifies this`numUserBlocks, this`smallHead, this`largeHead, this`smallList, this`largeList, this`blocks,
        this`brk,
        this`exhausted, mem
      ensures if broken then bytes == WORD_LIMIT - 1 && BreaksAt(r) else Valid()
      ensures ptr != 0 && bytes == 0 ==> r == 0 && Payloads() == old(Payloads()) - {ptr}
      ensures ptr != 0 && bytes != 0 && ptr !in old(Payloads()) ==> r == 0 && Payloads() == old(Payloads())
      ensures r == 0 && bytes != 0 ==> !broken && Payloads() == old(Payloads())
      ensures r == 0 && bytes != 0 && (ptr == 0 || ptr in old(Payloads())) ==>
        NoneFits(ValidateSize(bytes)) && !old(CanGrowBy(ValidateSize(bytes), pages))
      ensures r != 0 && !broken ==>
        (r == ptr || r !in old(Payloads())) && r in Payloads()
          && Payloads() == (old(Payloads()) - {ptr})[r := Payloads()[r]]
      ensures r != 0 && bytes != WORD_LIMIT - 1 ==> |Payloads()[r]| >= bytes
      ensures r != 0 && !broken && ptr != 0 ==>
        ptr in old(Payloads()) && SamePrefix(old(Payloads())[ptr], Payloads()[r])
      ensures ptr in old(Payloads()) && 0 < bytes < WORD_LIMIT - 1 && |old(Payloads())[ptr]| >= ValidateSize(bytes) ==>
        r == ptr && |Payloads()[r]| == CutTo(|old(Payloads())[ptr]|, ValidateSize(bytes))
      ensures r != 0 && bytes != WORD_LIMIT - 1 ==>
        |Payloads()[r]| < ValidateSize(bytes) + (if r == ptr then 2 else 1) * (2 * BORDER + MIN_SIZE)
    {
      hide Good, Contents, Word, SetWord, Isolated, NoneFits, CanGrowBy;
      NotInHeap(Snapshot(), 0);
      if ptr == 0 {
        r, broken := Malloc(bytes, pages);
        return;
      }
      broken := false;
      if bytes == 0 {
        Free(ptr);
        return 0, false;
      }
      if ptr < heapStart || brk <= ptr {
        NotInHeap(Snapshot(), ptr);
        return 0, false;
      }
      BlockFacts(Snapshot(), {}, ptr);
      var used := GetUsed(ptr);
      if !used {
        return 0, false;
      }
      var need := ValidateSize(bytes);
      ValidateSizeServes(bytes);
      var size := GetSize(ptr);
      if need == 0 {
        LooseUsed(Snapshot(), ptr);
        ContentsSlice(Snapshot(), ptr);
        broken := HandWhole(ptr);
        return ptr, broken;
      }
      if size == need {
        return ptr, false;
      }
      r := Resize(ptr, size, need, pages);
    }

    /** The shrink of shal_realloc: the user keeps the first bytes. */
    method ShrinkUsed(mb: nat, need: int)
      requires Inv({}) && mb in blocks && blocks[mb].used
      requires MIN_SIZE <= need < blocks[mb].size && need % 2 == 0
      modifies this`smallHead, this`largeHead, this`smallList, this`largeList, this`blocks, mem
      ensures Inv({}) && mb in old(Payloads()) && mb in Payloads()
      ensures Payloads() == (old(Payloads()) - {mb})[mb := Payloads()[mb]]
      ensures |old(Payloads())[mb]| == old(blocks[mb]).size
      ensures var n := CutTo(old(blocks[mb]).size, need);
        need <= n <= |old(Payloads())[mb]| && Payloads()[mb] == old(Payloads())[mb][..n]
    {
      hide Good, Contents, Word, SetWord, Isolated;
      ContentsSlice(Snapshot(), mb);
      LooseUsed(Snapshot(), mb);
      ghost var m, p, size := mem[..], Payloads(), blocks[mb].size;
      ghost var n := ShrunkSize(mb, need);
      ShrinkLeft(mb, need);
      assert m[mb..mb + n] == m[mb..mb + size][..n];
      assert Payloads() == (p - {mb})[mb := Payloads()[mb]];
    }

    /** What the right neighbour can give: its bytes and tags, if it is free. */
    method RightRoom(mb: int, size: int, ghost need: int) returns (next: int, addn: int)
      requires Inv({}) && mb in blocks && blocks[mb] == Block(size, true)
      ensures next == After(blocks, mb) && (need > size ==> (addn >= need - size <==> CanStretch(mb, need)))
      ensures addn > 0 ==> next in blocks && !blocks[next].used && addn == blocks[next].size + 2 * BORDER
    {
      hide Good, Contents, Word, SetWord, Isolated;
      BlockFacts(Snapshot(), {}, mb);
      next, addn := mb + size + 2 * BORDER, 0;
      if next in blocks { BlockFacts(Snapshot(), {}, next); }
      if next < brk {
        BlockFacts(Snapshot(), {}, next);
        var nextUsed := GetUsed(next);
        if !nextUsed {
          var nextSize := GetSize(next);
          addn := nextSize + 2 * BORDER;
        }
      }
    }

    /** shal_realloc once the pointer is known to be an allocated block and the size really changes. */
    method Resize(mb: nat, size: int, need: int, pages: nat) returns (r: int)
      requires Valid() && mb in blocks && blocks[mb] == Block(size, true) && 0 < mb
      requires size != need < WORD_LIMIT && need % 2 == 0 && MIN_SIZE <= need
      modifies this`numUserBlocks, this`smallHead, this`largeHead, this`smallList, this`largeList, this`blocks,
        this`brk,
        this`exhausted, mem
      ensures Valid()
      ensures mb in old(Payloads())
      ensures r == 0 ==> Payloads() == old(Payloads()) && NoneFits(need) && !old(CanGrowBy(need, pages))
      ensures r != 0 ==> (r == mb || r !in old(Payloads())) && r in Payloads() && |Payloads()[r]| >= need
      ensures r != 0 ==> Payloads() == (old(Payloads()) - {mb})[r := Payloads()[r]]
      ensures r != 0 ==> SamePrefix(old(Payloads())[mb], Payloads()[r])
      ensures need < size ==> r == mb && |Payloads()[r]| == CutTo(size, need)
      ensures need > size && old(CanStretch(mb, need)) ==>
        r == mb && |Payloads()[r]| < need + 2 * (2 * BORDER + MIN_SIZE)
      ensures need > size && !old(CanStretch(mb, need)) ==>
        r == 0 || (r != mb && |Payloads()[r]| < need + 2 * BORDER + MIN_SIZE)
    {
      hide Good, Contents, Word, SetWord, Isolated, NoneFits, CanGrowBy;
      ContentsSlice(Snapshot(), mb);
      if need < size {
        ShrinkUsed(mb, need);
        return mb;
      }
      var next, addn := RightRoom(mb, size, need);
      if addn < need - size {
        r := MoveBlock(mb, size, need, pages);
        return;
      }
      ghost var p := Payloads();
      StretchRight(mb, next, size, need);
      r := mb;
      Replaced(p, Payloads(), mb);
    }
  }
}
