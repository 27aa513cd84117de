/**
  Page table entries (Intel SDM volume 3A, section 4.3) in frames of raw memory.
 */
module PageEntries {
  import opened RawMemory

  type Addr = nat
  type Frame = f: seq<Byte> | |f| == 4096 witness seq(4096, i => 0)

  const NULL_FRAME: Addr := 0
  const UNIQUE := 1
  const SHARED := 2

  /** Where a frame can be. */
  predicate FrameAddr(a: Addr) {
    0 < a < 0x1_0000_0000 && a % 4096 == 0
  }

  // The fields of an entry word.

  predicate Present(w: int) {
    w % 2 == 1
  }

  predicate Writable(w: int) {
    w / 2 % 2 == 1
  }

  predicate User(w: int) {
    w / 4 % 2 == 1
  }

  function Avail(w: int): int {
    w / 512 % 8
  }

  function Base(w: int): int {
    w - w % 4096
  }

  predicate IsUnique(w: int) {
    Present(w) && Avail(w) == UNIQUE
  }

  predicate IsShared(w: int) {
    Present(w) && Avail(w) == SHARED
  }

  function MakeEntry(base: Addr, user: bool, writable: bool, avail: nat): (w: int)
    requires FrameAddr(base) && avail < 8
    ensures 0 <= w < WORD_LIMIT
    ensures Present(w) && Base(w) == base && Avail(w) == avail && User(w) == user && Writable(w) == writable
  {
    EntryFields(base, if user then 1 else 0, if writable then 1 else 0, avail);
    base + 512 * avail + (if user then 4 else 0) + (if writable then 2 else 0) + 1
  }

  lemma EntryFields(base: Addr, u: nat, w: nat, avail: nat)
    requires FrameAddr(base) && u < 2 && w < 2 && avail < 8
    ensures var e := base + 512 * avail + 4 * u + 2 * w + 1;
      e < WORD_LIMIT && e % 2 == 1 && e - e % 4096 == base && e / 512 % 8 == avail && e / 4 % 2 == u && e / 2 % 2 == w
  {
    var k, low := base / 4096, 4 * u + 2 * w + 1;
    HighFields(k, avail, low);
    LowFields(8 * k + avail, u, w);
  }

  lemma HighFields(k: nat, avail: nat, low: nat)
    requires avail < 8 && low < 512
    ensures var e := 4096 * k + 512 * avail + low; e - e % 4096 == 4096 * k && e / 512 % 8 == avail
  {
    assert (4096 * k + 512 * avail + low) / 512 == 8 * k + avail;
  }

  lemma LowFields(k: nat, u: nat, w: nat)
    requires u < 2 && w < 2
    ensures var e := 512 * k + 4 * u + 2 * w + 1; e % 2 == 1 && e / 4 % 2 == u && e / 2 % 2 == w
  {
    Halves(256 * k + 2 * u + w, 1);
    Quarters(128 * k + u, 2 * w + 1);
    Halves(64 * k, u);
    Halves(128 * k + u, w);
  }

  lemma Halves(q: nat, r: nat)
    requires r < 2
    ensures (2 * q + r) / 2 == q && (2 * q + r) % 2 == r
  {
  }

  lemma Quarters(q: nat, r: nat)
    requires r < 4
    ensures (4 * q + r) / 4 == q
  {
  }

  function Entry(f: Frame, i: nat): (w: int)
    requires i < 1024
    ensures 0 <= w < WORD_LIMIT
  {
    Word(f, 4 * i)
  }

  function SetEntry(f: Frame, i: nat, w: int): (g: Frame)
    requires i < 1024 && 0 <= w < WORD_LIMIT
    ensures Entry(g, i) == w
  {
    SetWord(f, 4 * i, w)
  }

  lemma SetEntryElsewhere(f: Frame, i: nat, w: int)
    requires i < 1024 && 0 <= w < WORD_LIMIT
    ensures forall j :: 0 <= j < 1024 && j != i ==> Entry(SetEntry(f, i, w), j) == Entry(f, j)
  {
    forall j | 0 <= j < 1024 && j != i
      ensures Entry(SetEntry(f, i, w), j) == Entry(f, j)
    {
      SetWordElsewhere(f, 4 * i, w, 4 * j);
    }
  }

  /** A frame of zeros: no entry is present. */
  function ClearFrame(): (f: Frame)
    ensures forall i :: 0 <= i < 1024 ==> Entry(f, i) == 0
  {
    seq(4096, i => 0)
  }
}
