/**
  Little-endian 32-bit words laid over raw bytes: the view that the kernel's C code has of
  a heap region, where block tags, free-list links and user payloads share the same bytes.
 */
module RawMemory {

  type Byte = b: int | 0 <= b < 256

  const WORD_LIMIT: int := 0x1_0000_0000

  function Word(m: seq<Byte>, a: int): (w: int)
    requires 0 <= a && a + 4 <= |m|
    ensures 0 <= w < WORD_LIMIT
  {
    m[a] as int + 0x100 * (m[a + 1] as int) + 0x1_0000 * (m[a + 2] as int) + 0x100_0000 * (m[a + 3] as int)
  }

  lemma Digits(w: int)
    requires 0 <= w < WORD_LIMIT
    ensures 0 <= w / 0x100_0000 < 0x100
    ensures w % 0x100 + 0x100 * (w / 0x100 % 0x100) + 0x1_0000 * (w / 0x1_0000 % 0x100) + 0x100_0000 * (w / 0x100_0000)
      == w
  {
    var q1 := w / 0x100;
    var q2 := q1 / 0x100;
    assert w / 0x1_0000 == q2 && w / 0x100_0000 == q2 / 0x100;
    assert w == 0x100 * q1 + w % 0x100 && q1 == 0x100 * q2 + q1 % 0x100 && q2 == 0x100 * (q2 / 0x100) + q2 % 0x100;
  }

  function SetWord(m: seq<Byte>, a: int, w: int): (m': seq<Byte>)
    requires 0 <= a && a + 4 <= |m| && 0 <= w < WORD_LIMIT
    ensures |m'| == |m|
    ensures Word(m', a) == w
    ensures forall i :: 0 <= i < |m| && !(a <= i < a + 4) ==> m'[i] == m[i]
  {
    Digits(w);
    m[a := w % 0x100][a + 1 := w / 0x100 % 0x100][a + 2 := w / 0x1_0000 % 0x100][a + 3 := w / 0x100_0000]
  }

  lemma SetWordElsewhere(m: seq<Byte>, a: int, w: int, b: int)
    requires 0 <= a && a + 4 <= |m| && 0 <= w < WORD_LIMIT
    requires 0 <= b && b + 4 <= |m| && (a + 4 <= b || b + 4 <= a)
    ensures Word(SetWord(m, a, w), b) == Word(m, b)
  {
  }

  /** The two memories hold the same bytes in [lo, hi). */
  ghost predicate SameBytes(m: seq<Byte>, m': seq<Byte>, lo: int, hi: int) {
    && |m| == |m'|
    && forall i :: 0 <= lo <= i < hi <= |m| ==> m[i] == m'[i]
  }

  method ReadWord(mem: array<Byte>, a: int) returns (w: int)
    requires 0 <= a && a + 4 <= mem.Length
    ensures w == Word(mem[..], a)
  {
    var b0: int, b1: int, b2: int, b3: int := mem[a], mem[a + 1], mem[a + 2], mem[a + 3];
    w := b0 + 0x100 * b1 + 0x1_0000 * b2 + 0x100_0000 * b3;
  }

  method WriteWord(mem: array<Byte>, a: int, w: int)
    requires 0 <= a && a + 4 <= mem.Length && 0 <= w < WORD_LIMIT
    modifies mem
    ensures mem[..] == SetWord(old(mem[..]), a, w)
  {
    mem[a] := w % 0x100;
    mem[a + 1] := w / 0x100 % 0x100;
    mem[a + 2] := w / 0x1_0000 % 0x100;
    mem[a + 3] := w / 0x100_0000;
  }

  /** mem_cpy between two disjoint ranges. */
  method CopyBytes(mem: array<Byte>, dst: int, src: int, n: nat)
    requires 0 <= dst && dst + n <= mem.Length && 0 <= src && src + n <= mem.Length
    requires dst + n <= src || src + n <= dst
    modifies mem
    ensures mem[dst..dst + n] == old(mem[src..src + n])
    ensures forall i :: 0 <= i < mem.Length && !(dst <= i < dst + n) ==> mem[i] == old(mem[i])
  {
    var i := 0;
    while i < n
      invariant 0 <= i <= n
      invariant forall k :: 0 <= k < mem.Length && !(dst <= k < dst + i) ==> mem[k] == old(mem[k])
      invariant forall k :: dst <= k < dst + i ==> mem[k] == old(mem[k - dst + src])
    {
      mem[dst + i] := mem[src + i];
      i := i + 1;
    }
  }
}
