/**
  Copies between the kernel and a user process: page by page, through the frames behind the user's pages.
 */
module UserCopies {
  import opened RawMemory

  type Frames = map<nat, seq<Byte>>

  datatype Code = Success | BadArgs | NoMem | Astray

  /** Addresses are 32 bits wide; the sum of two of them wraps once at most. */
  function Wrap(x: nat): (r: nat)
    requires x < 0x2_0000_0000
    ensures r < 0x1_0000_0000
  {
    if x < 0x1_0000_0000 then x else x - 0x1_0000_0000
  }

  /** How far `a` lies behind `u`, around the end of the address space. */
  function Index(u: nat, a: nat): (r: nat)
    requires u < 0x1_0000_0000 && a < 0x1_0000_0000
    ensures r < 0x1_0000_0000 && Wrap(u + r) == a
  {
    if u <= a then a - u else a - u + 0x1_0000_0000
  }

  function PageOf(a: nat): nat {
    a / 4096
  }

  /** Every page has a frame to itself. */
  ghost predicate Unaliased(pages: map<nat, nat>) {
    forall g, h :: g in pages && h in pages && pages[g] == pages[h] ==> g == h
  }

  ghost predicate Whole(pages: map<nat, nat>, frames: Frames) {
    forall g :: g in pages ==> pages[g] in frames && |frames[pages[g]]| == 4096
  }

  /** The byte a process sees at `a`. */
  function ByteAt(pages: map<nat, nat>, frames: Frames, a: nat): Byte
    requires Whole(pages, frames) && PageOf(a) in pages
  {
    frames[pages[PageOf(a)]][a % 4096]
  }

  predicate MappedAt(pages: map<nat, nat>, u: nat, i: nat)
    requires u < 0x1_0000_0000 && i < 0x1_0000_0000
  {
    PageOf(Wrap(u + i)) in pages
  }

  /** The bytes from `u` on are mapped up to the `n`-th, and that one is not unless all `bytes` are. */
  ghost predicate MappedFor(pages: map<nat, nat>, u: nat, n: nat, bytes: nat)
    requires u < 0x1_0000_0000 && n <= bytes < 0x1_0000_0000
  {
    (forall i :: 0 <= i < n ==> MappedAt(pages, u, i)) && (n < bytes ==> !MappedAt(pages, u, n))
  }

  /** The first `n` bytes from `u` on are those of `src`, and all others as they were. */
  ghost predicate Written(pages: map<nat, nat>, before: Frames, frames: Frames, u: nat, src: seq<Byte>, n: nat)
    requires Whole(pages, before) && Whole(pages, frames) && u < 0x1_0000_0000 && n <= |src|
  {
    forall a :: 0 <= a < 0x1_0000_0000 && PageOf(a) in pages ==>
      ByteAt(pages, frames, a) == if Index(u, a) < n then src[Index(u, a)] else ByteAt(pages, before, a)
  }

  /** The size of the next piece, in the code's wrapping arithmetic. */
  function PieceSize(u: nat, bytes: nat, t: nat): nat
    requires u < 0x1_0000_0000 && bytes < 0x1_0000_0000 && t < 0x1_0000_0000
  {
    var nb := Wrap((t / 4096 + 1) * 4096);
    var limit := Wrap(u + bytes);
    Index(t, if nb > limit then limit else nb)
  }

  /**
    The byte from which on the pieces no longer end where the page or the copy ends: a copy that runs to the
    end of the address space or beyond from a page before the last, or one that ends inside the last page.
   */
  function Wrong(u: nat, bytes: nat): (w: nat)
    requires u < 0x1_0000_0000 && bytes < 0x1_0000_0000
    ensures w <= bytes
    ensures w == bytes <==>
      u + bytes <= 0xFFFF_F000 || bytes == 0 || (0xFFFF_F000 <= u && 0x1_0000_0000 <= u + bytes <= 0x1_FFFF_F000)
  {
    if u < 0xFFFF_F000 then
      if u + bytes >= 0x1_0000_0000 then 0 else if u + bytes > 0xFFFF_F000 then 0xFFFF_F000 - u else bytes
    else if u + bytes < 0x1_0000_0000 then 0
    else if u + bytes > 0x1_FFFF_F000 then 0x1_FFFF_F000 - u else bytes
  }

  predicate AtBoundary(u: nat, c: nat)
    requires u < 0x1_0000_0000 && c < 0x1_0000_0000
  {
    c == 0 || Wrap(u + c) % 4096 == 0
  }

  lemma PieceInPage(u: nat, bytes: nat, c: nat)
    requires u < 0x1_0000_0000 && c < bytes < 0x1_0000_0000 && AtBoundary(u, c) && c < Wrong(u, bytes)
    ensures var t, k := Wrap(u + c), PieceSize(u, bytes, Wrap(u + c));
      && t % 4096 + k <= 4096 && 0 < k && c + k <= Wrong(u, bytes) && (c + k < bytes ==> AtBoundary(u, c + k))
  {
  }

  /** At the wrong byte the piece leaves the page, or takes more bytes than are left. */
  lemma PieceAstray(u: nat, bytes: nat)
    requires u < 0x1_0000_0000 && bytes < 0x1_0000_0000 && Wrong(u, bytes) < bytes
    ensures var t := Wrap(u + Wrong(u, bytes));
      t % 4096 + PieceSize(u, bytes, t) > 4096 || PieceSize(u, bytes, t) > bytes - Wrong(u, bytes)
  {
  }

  /** A copy goes astray when it gets as far as the wrong byte. */
  ghost predicate Strays(pages: map<nat, nat>, u: nat, bytes: nat)
    requires u < 0x1_0000_0000 && bytes < 0x1_0000_0000
  {
    Wrong(u, bytes) < bytes && forall i :: 0 <= i <= Wrong(u, bytes) ==> MappedAt(pages, u, i)
  }

  /** From the second page on to the end of the address space the first piece is the whole copy. */
  lemma StraysAtOnce()
    ensures Strays(map[1 := 7], 0x1000, 0xFFFF_F000) && PieceSize(0x1000, 0xFFFF_F000, 0x1000) == 0xFFFF_F000
  {
  }

  /** A piece covers exactly its addresses. */
  lemma PieceIndexes(u: nat, c: nat, k: nat, a: nat)
    requires u < 0x1_0000_0000 && a < 0x1_0000_0000 && c + k < 0x1_0000_0000 && 0 < k && Wrap(u + c) % 4096 + k <= 4096
    ensures c <= Index(u, a) < c + k <==>
      PageOf(a) == PageOf(Wrap(u + c)) && Wrap(u + c) % 4096 <= a % 4096 < Wrap(u + c) % 4096 + k
    ensures c <= Index(u, a) < c + k ==> Index(u, a) - c == a % 4096 - Wrap(u + c) % 4096
  {
  }

  lemma PieceMapped(pages: map<nat, nat>, u: nat, c: nat, k: nat)
    requires u < 0x1_0000_0000 && c + k < 0x1_0000_0000 && Wrap(u + c) % 4096 + k <= 4096 && MappedAt(pages, u, c)
    ensures forall i :: c <= i < c + k ==> MappedAt(pages, u, i) && PageOf(Wrap(u + i)) == PageOf(Wrap(u + c))
  {
    forall i: nat {:trigger MappedAt(pages, u, i)} | c <= i < c + k
      ensures MappedAt(pages, u, i) && PageOf(Wrap(u + i)) == PageOf(Wrap(u + c))
    {
      ByteOfPiece(u, c, k, i);
    }
  }

  lemma ByteOfPiece(u: nat, c: nat, k: nat, i: nat)
    requires u < 0x1_0000_0000 && c + k < 0x1_0000_0000 && Wrap(u + c) % 4096 + k <= 4096 && c <= i < c + k
    ensures PageOf(Wrap(u + i)) == PageOf(Wrap(u + c)) && Wrap(u + i) % 4096 == Wrap(u + c) % 4096 + (i - c)
  {
  }

  lemma StopsHere(pages: map<nat, nat>, u: nat, c: nat, bytes: nat)
    requires u < 0x1_0000_0000 && c < bytes < 0x1_0000_0000 && c <= Wrong(u, bytes) && PageOf(Wrap(u + c)) !in pages
    requires forall i :: 0 <= i < c ==> MappedAt(pages, u, i)
    ensures !Strays(pages, u, bytes) && !MappedAt(pages, u, c) && MappedFor(pages, u, c, bytes)
  {
    assert !MappedAt(pages, u, c);
  }

  lemma GetsThrough(pages: map<nat, nat>, u: nat, bytes: nat)
    requires u < 0x1_0000_0000 && bytes < 0x1_0000_0000 && bytes <= Wrong(u, bytes)
    requires forall i :: 0 <= i < bytes ==> MappedAt(pages, u, i)
    ensures !Strays(pages, u, bytes) && MappedFor(pages, u, bytes, bytes)
  {
  }

  /** A piece is wrong exactly at the wrong byte. */
  lemma TurnsWrong(pages: map<nat, nat>, u: nat, c: nat, bytes: nat)
    requires u < 0x1_0000_0000 && c < bytes < 0x1_0000_0000 && c <= Wrong(u, bytes) && AtBoundary(u, c)
    requires PageOf(Wrap(u + c)) in pages && forall i :: 0 <= i < c ==> MappedAt(pages, u, i)
    ensures MappedAt(pages, u, c)
    ensures var t, k := Wrap(u + c), PieceSize(u, bytes, Wrap(u + c));
      if t % 4096 + k > 4096 || k > bytes - c then Strays(pages, u, bytes)
      else 0 < k && c + k <= Wrong(u, bytes) && (c + k < bytes ==> AtBoundary(u, c + k))
  {
    hide PieceSize;
    if c < Wrong(u, bytes) {
      PieceInPage(u, bytes, c);
      WrongInside(u, bytes);
    } else {
      PieceAstray(u, bytes);
    }
  }

  lemma WrongInside(u: nat, bytes: nat)
    requires u < 0x1_0000_0000 && bytes < 0x1_0000_0000
    ensures Wrong(u, bytes) <= bytes
  {
  }

  /** No byte of the copy lies in the frame `x`. */
  ghost predicate Untouched(pages: map<nat, nat>, u: nat, n: nat, x: nat)
    requires u < 0x1_0000_0000 && n < 0x1_0000_0000
  {
    forall i :: 0 <= i < n && MappedAt(pages, u, i) ==> pages[PageOf(Wrap(u + i))] != x
  }

  /** The frames with one piece of `src` in them. */
  function PutPiece(frames: Frames, x: nat, o: nat, s: seq<Byte>): Frames
    requires x in frames && |frames[x]| == 4096 && o + |s| <= 4096
  {
    frames[x := frames[x][..o] + s + frames[x][o + |s|..]]
  }

  lemma PieceWritten(pages: map<nat, nat>, before: Frames, frames: Frames, u: nat, src: seq<Byte>, c: nat, k: nat)
    requires Unaliased(pages) && Whole(pages, before) && Whole(pages, frames) && u < 0x1_0000_0000
    requires c + k <= |src| < 0x1_0000_0000 && 0 < k
    requires Wrap(u + c) % 4096 + k <= 4096 && PageOf(Wrap(u + c)) in pages && Written(pages, before, frames, u, src, c)
    ensures var m := PutPiece(frames, pages[PageOf(Wrap(u + c))], Wrap(u + c) % 4096, src[c..c + k]);
      Whole(pages, m) && Written(pages, before, m, u, src, c + k)
  {
    var t := Wrap(u + c);
    var m := PutPiece(frames, pages[PageOf(t)], t % 4096, src[c..c + k]);
    assert Whole(pages, m);
    forall a: nat | a < 0x1_0000_0000 && PageOf(a) in pages
      ensures ByteAt(pages, m, a) == if Index(u, a) < c + k then src[Index(u, a)] else ByteAt(pages, before, a)
    {
      PieceIndexes(u, c, k, a);
      PieceByte(pages, frames, t, src[c..c + k], a);
    }
  }

  lemma PieceByte(pages: map<nat, nat>, frames: Frames, t: nat, s: seq<Byte>, a: nat)
    requires Unaliased(pages) && Whole(pages, frames) && PageOf(t) in pages && PageOf(a) in pages
    requires t % 4096 + |s| <= 4096
    ensures var m := PutPiece(frames, pages[PageOf(t)], t % 4096, s);
      Whole(pages, m) && ByteAt(pages, m, a) ==
        if PageOf(a) == PageOf(t) && t % 4096 <= a % 4096 < t % 4096 + |s| then s[a % 4096 - t % 4096]
          else ByteAt(pages, frames, a)
  {
  }

  lemma PieceElsewhere(pages: map<nat, nat>, frames: Frames, u: nat, c: nat, s: seq<Byte>)
    requires Whole(pages, frames) && u < 0x1_0000_0000 && c + |s| < 0x1_0000_0000 && Wrap(u + c) % 4096 + |s| <= 4096
    requires 0 < |s|
    requires MappedAt(pages, u, c)
    ensures var m := PutPiece(frames, pages[PageOf(Wrap(u + c))], Wrap(u + c) % 4096, s);
      && Whole(pages, m) && m.Keys == frames.Keys
      && forall x :: x in frames && Untouched(pages, u, c + |s|, x) ==> Untouched(pages, u, c, x) && m[x] == frames[x]
  {
    forall x | x in frames && Untouched(pages, u, c + |s|, x)
      ensures x != pages[PageOf(Wrap(u + c))] && Untouched(pages, u, c, x)
    {
      assert MappedAt(pages, u, c);
    }
  }

  /** What was written is what is read. */
  lemma WrittenReads(pages: map<nat, nat>, before: Frames, frames: Frames, u: nat, src: seq<Byte>, n: nat, i: nat)
    requires Whole(pages, before) && Whole(pages, frames) && u < 0x1_0000_0000 && i < n <= |src| < 0x1_0000_0000
    requires Written(pages, before, frames, u, src, n) && MappedAt(pages, u, i)
    ensures ByteAt(pages, frames, Wrap(u + i)) == src[i]
  {
    assert Index(u, Wrap(u + i)) == i;
  }

  /** The bytes from `u` on are in the buffer up to the `n`-th. */
  ghost predicate Fetched(pages: map<nat, nat>, frames: Frames, u: nat, b: seq<Byte>, n: nat)
    requires Whole(pages, frames) && u < 0x1_0000_0000 && n <= |b| && n < 0x1_0000_0000
  {
    forall i :: 0 <= i < n ==> MappedAt(pages, u, i) && b[i] == ByteAt(pages, frames, Wrap(u + i))
  }

  lemma NothingYet(pages: map<nat, nat>, frames: Frames, u: nat, b: seq<Byte>)
    requires Whole(pages, frames) && u < 0x1_0000_0000
    ensures Fetched(pages, frames, u, b, 0) && Written(pages, frames, frames, u, b, 0) && AtBoundary(u, 0)
  {
  }

  lemma PieceFetched(pages: map<nat, nat>, frames: Frames, u: nat, b: seq<Byte>, c: nat, k: nat)
    requires Whole(pages, frames) && u < 0x1_0000_0000 && c + k <= |b| && c + k < 0x1_0000_0000
    requires Wrap(u + c) % 4096 + k <= 4096 && MappedAt(pages, u, c) && Fetched(pages, frames, u, b, c)
    ensures var o, f := Wrap(u + c) % 4096, frames[pages[PageOf(Wrap(u + c))]];
      Fetched(pages, frames, u, b[..c] + f[o..o + k] + b[c + k..], c + k)
  {
    var o, f := Wrap(u + c) % 4096, frames[pages[PageOf(Wrap(u + c))]];
    var b' := b[..c] + f[o..o + k] + b[c + k..];
    PieceMapped(pages, u, c, k);
    forall i: nat {:trigger MappedAt(pages, u, i)} | i < c + k
      ensures MappedAt(pages, u, i) && b'[i] == ByteAt(pages, frames, Wrap(u + i))
    {
      if i >= c { ByteOfPiece(u, c, k, i); } else { assert b'[i] == b[i]; }
    }
  }

  /** Bytes that are copied one by one, as mem_cpy does. */
  method CopyBytesInto(b: array<Byte>, at: nat, s: seq<Byte>)
    requires at + |s| <= b.Length
    modifies b
    ensures b[..] == old(b[..])[..at] + s + old(b[..])[at + |s|..]
  {
    var i := 0;
    while i < |s|
      invariant i <= |s| && b[..] == old(b[..])[..at] + s[..i] + old(b[..])[at + i..]
    {
      b[at + i] := s[i];
      i := i + 1;
    }
  }

  /** A user address space over frames. */
  class UserSpace {
    const pages: map<nat, nat>
    var frames: Frames

    ghost predicate Valid()
      reads this
    {
      Whole(pages, frames)
    }

    constructor (pages: map<nat, nat>, frames: Frames)
      requires Whole(pages, frames)
      ensures Valid() && this.pages == pages && this.frames == frames
    {
      this.pages, this.frames := pages, frames;
    }

    /** mem_cpy_to_user; `Astray` stands for a piece that leaves its page or the copy. */
    method CopyTo(u: nat, src: seq<Byte>) returns (code: Code, copied: nat)
      requires Valid() && u < 0x1_0000_0000 && |src| < 0x1_0000_0000
      modifies this`frames
      ensures Valid() && copied <= |src| && frames.Keys == old(frames).Keys
      ensures code == BadArgs <==> u == 0
      ensures u == 0 ==> copied == 0
      ensures u != 0 ==> (code == Astray <==> Strays(pages, u, |src|))
      ensures u != 0 && code != Astray ==> MappedFor(pages, u, copied, |src|) && (code == Success <==> copied == |src|)
      ensures Unaliased(pages) ==> Written(pages, old(frames), frames, u, src, copied)
      ensures forall x :: x in frames && Untouched(pages, u, copied, x) ==> frames[x] == old(frames)[x]
    {
      hide Strays, MappedFor, Unaliased, Untouched, Written, AtBoundary, Fetched;
      copied := 0;
      NothingYet(pages, frames, u, src);
      if u == 0 {
        return BadArgs, 0;
      }
      while copied < |src|
        invariant u != 0 && copied <= Wrong(u, |src|) && Valid() && frames.Keys == old(frames).Keys
        invariant copied < |src| ==> AtBoundary(u, copied)
        invariant forall i :: 0 <= i < copied ==> MappedAt(pages, u, i)
        invariant Unaliased(pages) ==> Written(pages, old(frames), frames, u, src, copied)
        invariant forall x :: x in frames && Untouched(pages, u, copied, x) ==> frames[x] == old(frames)[x]
      {
        hide Wrong, PutPiece, PieceSize;
        var t := Wrap(u + copied);
        if PageOf(t) !in pages {
          StopsHere(pages, u, copied, |src|);
          return NoMem, copied;
        }
        var k, o := PieceSize(u, |src|, t), t % 4096;
        TurnsWrong(pages, u, copied, |src|);
        if o + k > 4096 || k > |src| - copied {
          return Astray, copied;
        }
        PieceMapped(pages, u, copied, k);
        if Unaliased(pages) { PieceWritten(pages, old(frames), frames, u, src, copied, k); }
        PieceElsewhere(pages, frames, u, copied, src[copied..copied + k]);
        frames := PutPiece(frames, pages[PageOf(t)], o, src[copied..copied + k]);
        copied := copied + k;
      }
      GetsThrough(pages, u, |src|);
      code := Success;
    }

    /** mem_cpy_from_user */
    method CopyFrom(u: nat, b: array<Byte>) returns (code: Code, copied: nat)
      requires Valid() && u < 0x1_0000_0000 && b.Length < 0x1_0000_0000
      modifies b
      ensures copied <= b.Length
      ensures code == BadArgs <==> u == 0
      ensures u == 0 ==> copied == 0
      ensures u != 0 ==> (code == Astray <==> Strays(pages, u, b.Length))
      ensures u != 0 && code != Astray ==>
        MappedFor(pages, u, copied, b.Length) && (code == Success <==> copied == b.Length)
      ensures Fetched(pages, frames, u, b[..], copied) && b[copied..] == old(b[copied..])
    {
      hide Strays, MappedFor, Unaliased, Untouched, Written, AtBoundary, Fetched;
      copied := 0;
      NothingYet(pages, frames, u, b[..]);
      if u == 0 {
        return BadArgs, 0;
      }
      while copied < b.Length
        invariant u != 0 && copied <= Wrong(u, b.Length)
        invariant copied < b.Length ==> AtBoundary(u, copied)
        invariant forall i :: 0 <= i < copied ==> MappedAt(pages, u, i)
        invariant Fetched(pages, frames, u, b[..], copied) && b[copied..] == old(b[..])[copied..]
      {
        hide Wrong, PieceSize;
        var t := Wrap(u + copied);
        if PageOf(t) !in pages {
          StopsHere(pages, u, copied, b.Length);
          return NoMem, copied;
        }
        var k, o := PieceSize(u, b.Length, t), t % 4096;
        TurnsWrong(pages, u, copied, b.Length);
        if o + k > 4096 || k > b.Length - copied {
          return Astray, copied;
        }
        PieceMapped(pages, u, copied, k);
        PieceFetched(pages, frames, u, b[..], copied, k);
        ghost var b0 := b[..];
        CopyBytesInto(b, copied, frames[pages[PageOf(t)]][o..o + k]);
        TailStays(b0, old(b[..]), copied, k, b[..]);
        copied := copied + k;
      }
      GetsThrough(pages, u, b.Length);
      code := Success;
    }

    /** mem_set_to_user: pieces end where the page does, or the bytes that are left. */
    method SetTo(u: nat, val: Byte, bytes: nat) returns (code: Code, done: nat)
      requires Valid() && u < 0x1_0000_0000 && bytes < 0x1_0000_0000
      modifies this`frames
      ensures Valid() && done <= bytes && frames.Keys == old(frames).Keys
      ensures MappedFor(pages, u, done, bytes) && code == (if done == bytes then Success else NoMem)
      ensures Unaliased(pages) ==> Written(pages, old(frames), frames, u, Same(val, bytes), done)
      ensures forall x :: x in frames && Untouched(pages, u, done, x) ==> frames[x] == old(frames)[x]
    {
      ghost var src := Same(val, bytes);
      done := 0;
      while done < bytes
        invariant done <= bytes && Valid() && frames.Keys == old(frames).Keys
        invariant forall i :: 0 <= i < done ==> MappedAt(pages, u, i)
        invariant Unaliased(pages) ==> Written(pages, old(frames), frames, u, src, done)
        invariant forall x :: x in frames && Untouched(pages, u, done, x) ==> frames[x] == old(frames)[x]
      {
        hide Untouched, Written, PutPiece;
        var t := Wrap(u + done);
        if PageOf(t) !in pages {
          assert !MappedAt(pages, u, done);
          return NoMem, done;
        }
        assert MappedAt(pages, u, done);
        var o := t % 4096;
        var k := if 4096 - o > bytes - done then bytes - done else 4096 - o;
        PieceMapped(pages, u, done, k);
        if Unaliased(pages) { PieceWritten(pages, old(frames), frames, u, src, done, k); }
        assert src[done..done + k] == Same(val, k);
        PieceElsewhere(pages, frames, u, done, Same(val, k));
        frames := PutPiece(frames, pages[PageOf(t)], o, Same(val, k));
        done := done + k;
      }
      code := Success;
    }
  }

  function Same(val: Byte, n: nat): (s: seq<Byte>)
    ensures |s| == n && forall i :: 0 <= i < n ==> s[i] == val
  {
    seq(n, _ => val)
  }

  lemma TailStays(b0: seq<Byte>, was: seq<Byte>, c: nat, k: nat, b1: seq<Byte>)
    requires c + k <= |b0| == |was| && b0[c..] == was[c..] && |b1| == |b0| && b1[c + k..] == b0[c + k..]
    ensures b1[c + k..] == was[c + k..]
  {
    assert b0[c..][k..] == b0[c + k..] && was[c..][k..] == was[c + k..];
  }
}
