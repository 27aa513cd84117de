/**
  The shared memory ranges, from low to high: where a new one goes, who holds each, and when it leaves.
 */
module SharedRanges {

  /** A range that is mapped in the kernel: how often the kernel holds it, and which processes have it mapped. */
  datatype Range = Range(start: nat, end: nat, kernelRefs: nat, refs: set<nat>)

  predicate Covers(r: Range, a: nat) {
    r.start <= a < r.end
  }

  predicate Spans(r: Range) {
    r.start < r.end
  }

  predicate Idle(r: Range) {
    r.kernelRefs == 0 && r.refs == {}
  }

  /** Ranges that overlap are equal. */
  function CmpRange(s0: Range, s1: Range): int {
    if s0.end <= s1.start then -1 else if s1.end <= s0.start then 1 else 0
  }

  predicate Placed(r: Range, lo: nat, hi: nat) {
    lo <= r.start < r.end <= hi && r.start % 4096 == 0 && r.end % 4096 == 0
  }

  ghost predicate LaidOut(l: seq<Range>, lo: nat, hi: nat) {
    && (forall i :: 0 <= i < |l| ==> Placed(l[i], lo, hi))
    && forall i, j :: 0 <= i < j < |l| ==> l[i].end <= l[j].start
  }

  ghost predicate AllHeld(l: seq<Range>) {
    forall i :: 0 <= i < |l| ==> !Idle(l[i])
  }

  // ---------------------------------------------------------------------------
  // Gaps
  // ---------------------------------------------------------------------------

  /** `len` bytes from `s` lie in the shared area and touch no range. */
  ghost predicate Fits(l: seq<Range>, lo: nat, hi: nat, s: nat, len: nat) {
    lo <= s && s + len <= hi && forall i :: 0 <= i < |l| ==> s + len <= l[i].start || l[i].end <= s
  }

  function GapStart(l: seq<Range>, k: nat, lo: nat): nat
    requires k <= |l|
  {
    if k == 0 then lo else l[k - 1].end
  }

  function GapEnd(l: seq<Range>, k: nat, hi: nat): nat
    requires k <= |l|
  {
    if k < |l| then l[k].start else hi
  }

  /** The gaps before the `k`-th are all too small. */
  ghost predicate SmallBefore(l: seq<Range>, k: nat, lo: nat, hi: nat, len: nat)
    requires k <= |l| + 1
  {
    forall j :: 0 <= j < k ==> GapEnd(l, j, hi) - GapStart(l, j, lo) < len
  }

  lemma NoneBefore(l: seq<Range>, lo: nat, hi: nat, len: nat)
    ensures SmallBefore(l, 0, lo, hi, len)
  {
  }

  lemma SmallStep(l: seq<Range>, k: nat, lo: nat, hi: nat, len: nat)
    requires k <= |l| && SmallBefore(l, k, lo, hi, len)
    ensures GapEnd(l, k, hi) - GapStart(l, k, lo) < len ==> SmallBefore(l, k + 1, lo, hi, len)
  {
  }

  lemma GapOrdered(l: seq<Range>, k: nat, lo: nat, hi: nat)
    requires LaidOut(l, lo, hi) && k <= |l| && lo <= hi
    ensures GapStart(l, k, lo) <= GapEnd(l, k, hi) && lo <= GapStart(l, k, lo)
    ensures lo % 4096 == 0 ==> GapStart(l, k, lo) % 4096 == 0
  {
  }

  lemma {:induction false} NothingFitsBefore(l: seq<Range>, k: nat, lo: nat, hi: nat, len: nat, s: nat)
    requires LaidOut(l, lo, hi) && k <= |l| && 0 < len && SmallBefore(l, k, lo, hi, len)
    requires s < GapStart(l, k, lo)
    ensures !Fits(l, lo, hi, s, len)
    decreases k
  {
    if k > 0 {
      if s < GapStart(l, k - 1, lo) {
        NothingFitsBefore(l, k - 1, lo, hi, len, s);
      }
      assert GapEnd(l, k - 1, hi) - GapStart(l, k - 1, lo) < len;
    }
  }

  lemma NothingFits(l: seq<Range>, lo: nat, hi: nat, len: nat, s: nat)
    requires LaidOut(l, lo, hi) && 0 < len && SmallBefore(l, |l| + 1, lo, hi, len)
    ensures !Fits(l, lo, hi, s, len)
  {
    if s < GapStart(l, |l|, lo) { NothingFitsBefore(l, |l|, lo, hi, len, s); }
    assert GapEnd(l, |l|, hi) - GapStart(l, |l|, lo) < len;
  }

  lemma GapFits(l: seq<Range>, k: nat, lo: nat, hi: nat, len: nat)
    requires LaidOut(l, lo, hi) && lo <= hi && k <= |l| && 0 < len && len <= GapEnd(l, k, hi) - GapStart(l, k, lo)
    ensures Fits(l, lo, hi, GapStart(l, k, lo), len)
  {
    var s := GapStart(l, k, lo);
    forall i | 0 <= i < |l|
      ensures s + len <= l[i].start || l[i].end <= s
    {
      if i + 1 < k { assert l[i].end <= l[k - 1].start; }
      if k < i { assert l[k].end <= l[i].start; }
    }
  }

  // ---------------------------------------------------------------------------
  // Changes
  // ---------------------------------------------------------------------------

  /** A range that nobody holds any more leaves. */
  function Settle(l: seq<Range>, i: nat): seq<Range>
    requires i < |l|
  {
    if Idle(l[i]) then l[..i] + l[i + 1..] else l
  }

  lemma WithoutLaidOut(l: seq<Range>, i: nat, lo: nat, hi: nat)
    requires LaidOut(l, lo, hi) && i < |l|
    ensures LaidOut(l[..i] + l[i + 1..], lo, hi)
  {
    var m := l[..i] + l[i + 1..];
    assert forall j :: 0 <= j < |m| ==> m[j] == l[if j < i then j else j + 1];
  }

  lemma SettleKeeps(l: seq<Range>, i: nat, r: Range, lo: nat, hi: nat)
    requires LaidOut(l, lo, hi) && AllHeld(l) && i < |l| && r.start == l[i].start && r.end == l[i].end
    ensures LaidOut(l[i := r], lo, hi) && LaidOut(Settle(l[i := r], i), lo, hi) && AllHeld(Settle(l[i := r], i))
  {
    var m := Settle(l[i := r], i);
    if Idle(r) {
      assert forall j :: 0 <= j < |m| ==> m[j] == l[if j < i then j else j + 1];
    }
  }

  lemma InsertKeeps(a: seq<Range>, r: Range, b: seq<Range>, lo: nat, hi: nat)
    requires LaidOut(a + b, lo, hi) && Placed(r, lo, hi)
    requires forall i :: 0 <= i < |a| ==> a[i].end <= r.start
    requires forall i :: 0 <= i < |b| ==> r.end <= b[i].start
    ensures LaidOut(a + [r] + b, lo, hi)
  {
    var l, m := a + b, a + [r] + b;
    assert forall j :: 0 <= j < |a| ==> l[j] == a[j];
    assert forall j :: 0 <= j < |b| ==> l[|a| + j] == b[j];
    PartsLaidOut(l, |a|, lo, hi);
    assert l[..|a|] == a && l[|a|..] == b;
    forall i, j | 0 <= i < |a| && 0 <= j < |b|
      ensures a[i].end <= b[j].start
    {
      assert l[i].end <= l[|a| + j].start;
    }
    Joined(a, [r], lo, hi);
    forall i, j | 0 <= i < |a + [r]| && 0 <= j < |b|
      ensures (a + [r])[i].end <= b[j].start
    {
      if i < |a| { assert (a + [r])[i] == a[i]; }
    }
    Joined(a + [r], b, lo, hi);
  }

  lemma PartsLaidOut(l: seq<Range>, k: nat, lo: nat, hi: nat)
    requires LaidOut(l, lo, hi) && k <= |l|
    ensures LaidOut(l[..k], lo, hi) && LaidOut(l[k..], lo, hi)
  {
  }

  lemma Joined(a: seq<Range>, b: seq<Range>, lo: nat, hi: nat)
    requires LaidOut(a, lo, hi) && LaidOut(b, lo, hi)
    requires forall i, j :: 0 <= i < |a| && 0 <= j < |b| ==> a[i].end <= b[j].start
    ensures LaidOut(a + b, lo, hi)
  {
    var l := a + b;
    hide Placed;
    assert forall i :: 0 <= i < |l| ==> l[i] == if i < |a| then a[i] else b[i - |a|];
    forall i, j | 0 <= i < j < |l|
      ensures l[i].end <= l[j].start
    {
    }
  }

  /** What a fork does: the child gets what its parent has. */
  function ForkRange(r: Range, parent: nat, child: nat): Range {
    if parent in r.refs then r.(refs := r.refs + {child}) else r
  }

  function Forked(l: seq<Range>, parent: nat, child: nat): (m: seq<Range>)
    ensures |m| == |l| && forall i :: 0 <= i < |l| ==> m[i] == ForkRange(l[i], parent, child)
  {
    seq(|l|, i requires 0 <= i < |l| => ForkRange(l[i], parent, child))
  }

  /** What a reap leaves. */
  function Reaped(l: seq<Range>, pid: nat): seq<Range> {
    if l == [] then []
    else if pid !in l[0].refs then [l[0]] + Reaped(l[1..], pid)
    else if Idle(l[0].(refs := l[0].refs - {pid})) then Reaped(l[1..], pid)
    else [l[0].(refs := l[0].refs - {pid})] + Reaped(l[1..], pid)
  }

  lemma ForkKeeps(l: seq<Range>, parent: nat, child: nat, lo: nat, hi: nat)
    requires LaidOut(l, lo, hi) && AllHeld(l)
    ensures LaidOut(Forked(l, parent, child), lo, hi) && AllHeld(Forked(l, parent, child))
  {
  }

  // ---------------------------------------------------------------------------
  // Addresses
  // ---------------------------------------------------------------------------

  ghost predicate Mapped(l: seq<Range>, a: nat) {
    exists i :: 0 <= i < |l| && Covers(l[i], a)
  }

  /** The processes that have the byte at `a` mapped. */
  ghost function UsersAt(l: seq<Range>, a: nat): set<nat> {
    if l == [] then {} else if Covers(l[0], a) then l[0].refs else UsersAt(l[1..], a)
  }

  /** How often the kernel holds the byte at `a`. */
  ghost function KernelAt(l: seq<Range>, a: nat): nat {
    if l == [] then 0 else if Covers(l[0], a) then l[0].kernelRefs else KernelAt(l[1..], a)
  }

  lemma {:induction false} AtIndex(l: seq<Range>, lo: nat, hi: nat, i: nat, a: nat)
    requires LaidOut(l, lo, hi) && i < |l| && Covers(l[i], a)
    ensures UsersAt(l, a) == l[i].refs && KernelAt(l, a) == l[i].kernelRefs
  {
    if i > 0 {
      assert l[0].end <= l[i].start;
      TailLaidOut(l, lo, hi);
      AtIndex(l[1..], lo, hi, i - 1, a);
    }
  }

  lemma {:induction false} AtNoIndex(l: seq<Range>, a: nat)
    requires !Mapped(l, a)
    ensures UsersAt(l, a) == {} && KernelAt(l, a) == 0
  {
    if l != [] {
      assert !Covers(l[0], a);
      assert forall i :: 0 <= i < |l[1..]| ==> l[1..][i] == l[i + 1];
      AtNoIndex(l[1..], a);
    }
  }

  lemma TailLaidOut(l: seq<Range>, lo: nat, hi: nat)
    requires LaidOut(l, lo, hi) && l != []
    ensures LaidOut(l[1..], lo, hi) && (AllHeld(l) ==> AllHeld(l[1..]))
  {
    assert forall i :: 0 <= i < |l[1..]| ==> l[1..][i] == l[i + 1];
  }

  /** A byte is mapped exactly while somebody holds its range. */
  lemma MappedWhileHeld(l: seq<Range>, lo: nat, hi: nat, a: nat)
    requires LaidOut(l, lo, hi) && AllHeld(l)
    ensures Mapped(l, a) <==> KernelAt(l, a) > 0 || UsersAt(l, a) != {}
  {
    if Mapped(l, a) {
      var i :| 0 <= i < |l| && Covers(l[i], a);
      AtIndex(l, lo, hi, i, a);
      assert !Idle(l[i]);
    } else {
      AtNoIndex(l, a);
    }
  }

  /** No byte lies in two ranges. */
  lemma OneRange(l: seq<Range>, lo: nat, hi: nat, i: nat, j: nat, a: nat)
    requires LaidOut(l, lo, hi) && i < |l| && j < |l| && Covers(l[i], a) && Covers(l[j], a)
    ensures i == j
  {
  }

  /** Whatever becomes of the counts of one range, they are what is seen at its bytes, and nothing changes elsewhere. */
  lemma SettledAt(l: seq<Range>, i: nat, r: Range, lo: nat, hi: nat, a: nat)
    requires LaidOut(l, lo, hi) && AllHeld(l) && i < |l| && r.start == l[i].start && r.end == l[i].end
    ensures var m := Settle(l[i := r], i);
      && UsersAt(m, a) == (if Covers(r, a) then r.refs else UsersAt(l, a))
      && KernelAt(m, a) == (if Covers(r, a) then r.kernelRefs else KernelAt(l, a))
  {
    SettleKeeps(l, i, r, lo, hi);
    if Idle(r) { GoneAt(l, i, lo, hi, a); } else { ChangedAt(l, i, r, lo, hi, a); }
  }

  lemma ChangedAt(l: seq<Range>, i: nat, r: Range, lo: nat, hi: nat, a: nat)
    requires i < |l| && LaidOut(l, lo, hi) && LaidOut(l[i := r], lo, hi) && r.start == l[i].start && r.end == l[i].end
    ensures UsersAt(l[i := r], a) == (if Covers(r, a) then r.refs else UsersAt(l, a))
    ensures KernelAt(l[i := r], a) == (if Covers(r, a) then r.kernelRefs else KernelAt(l, a))
  {
    var m := l[i := r];
    hide UsersAt, KernelAt, LaidOut;
    if Covers(r, a) {
      AtIndex(m, lo, hi, i, a);
    } else if Mapped(l, a) {
      var j :| 0 <= j < |l| && Covers(l[j], a);
      AtIndex(l, lo, hi, j, a);
      AtIndex(m, lo, hi, j, a);
    } else {
      AtNoIndex(l, a);
      AtNoIndex(m, a);
    }
  }

  lemma GoneAt(l: seq<Range>, i: nat, lo: nat, hi: nat, a: nat)
    requires LaidOut(l, lo, hi) && i < |l| && LaidOut(l[..i] + l[i + 1..], lo, hi)
    ensures UsersAt(l[..i] + l[i + 1..], a) == (if Covers(l[i], a) then {} else UsersAt(l, a))
    ensures KernelAt(l[..i] + l[i + 1..], a) == (if Covers(l[i], a) then 0 else KernelAt(l, a))
  {
    var m := l[..i] + l[i + 1..];
    forall j | 0 <= j < |m|
      ensures m[j] == l[if j < i then j else j + 1]
    {
    }
    if Covers(l[i], a) {
      forall j | 0 <= j < |m|
        ensures !Covers(m[j], a)
      {
        if Covers(m[j], a) { OneRange(l, lo, hi, i, if j < i then j else j + 1, a); }
      }
      AtNoIndex(m, a);
    } else if Mapped(l, a) {
      hide UsersAt, KernelAt, LaidOut;
      var j :| 0 <= j < |l| && Covers(l[j], a);
      AtIndex(l, lo, hi, j, a);
      var j' := if j > i then j - 1 else j;
      assert m[j'] == l[j];
      AtIndex(m, lo, hi, j', a);
    } else {
      AtNoIndex(l, a);
      assert !Mapped(m, a);
      AtNoIndex(m, a);
    }
  }

  lemma {:induction false} ForkedAt(l: seq<Range>, parent: nat, child: nat, a: nat)
    ensures UsersAt(Forked(l, parent, child), a)
      == (if parent in UsersAt(l, a) then UsersAt(l, a) + {child} else UsersAt(l, a))
    ensures KernelAt(Forked(l, parent, child), a) == KernelAt(l, a)
  {
    if l != [] {
      ForkedAt(l[1..], parent, child, a);
      assert Forked(l, parent, child)[1..] == Forked(l[1..], parent, child);
    }
  }

  /** After a reap the process has nothing, everybody else what they had, and only what nobody holds is gone. */
  lemma {:induction false} ReapedAt(l: seq<Range>, pid: nat, lo: nat, hi: nat, a: nat)
    requires LaidOut(l, lo, hi) && AllHeld(l)
    ensures UsersAt(Reaped(l, pid), a) == UsersAt(l, a) - {pid} && KernelAt(Reaped(l, pid), a) == KernelAt(l, a)
    ensures LaidOut(Reaped(l, pid), lo, hi) && AllHeld(Reaped(l, pid))
    ensures l != [] ==> forall i :: 0 <= i < |Reaped(l, pid)| ==> l[0].start <= Reaped(l, pid)[i].start
  {
    if l != [] {
      TailLaidOut(l, lo, hi);
      ReapedAt(l[1..], pid, lo, hi, a);
      var h, t := l[0].(refs := l[0].refs - {pid}), Reaped(l[1..], pid);
      TailAbove(l, t, lo, hi);
      if pid !in l[0].refs {
        ConsKeeps(l[0], t, lo, hi);
      } else if !Idle(h) {
        ConsKeeps(h, t, lo, hi);
      } else if Covers(l[0], a) {
        AtNoIndex(t, a);
      }
    }
  }

  /** A child that is reaped leaves the ranges as they were before the fork. */
  lemma {:induction false} ForkThenReap(l: seq<Range>, parent: nat, child: nat)
    requires AllHeld(l) && parent != child && forall i :: 0 <= i < |l| ==> child !in l[i].refs
    ensures Reaped(Forked(l, parent, child), child) == l
  {
    if l != [] {
      var f := Forked(l, parent, child);
      assert f[1..] == Forked(l[1..], parent, child);
      ForkThenReap(l[1..], parent, child);
      assert l[0].refs + {child} - {child} == l[0].refs;
      assert !Idle(l[0]);
      assert l == [l[0]] + l[1..];
    }
  }

  /** A new range is what is seen at its bytes, and nothing changes elsewhere. */
  lemma InsertedAt(l: seq<Range>, i: nat, x: Range, lo: nat, hi: nat, a: nat)
    requires i <= |l| && LaidOut(l, lo, hi) && LaidOut(l[..i] + [x] + l[i..], lo, hi)
    ensures var m := l[..i] + [x] + l[i..];
      && UsersAt(m, a) == (if Covers(x, a) then x.refs else UsersAt(l, a))
      && KernelAt(m, a) == (if Covers(x, a) then x.kernelRefs else KernelAt(l, a))
  {
    var m := l[..i] + [x] + l[i..];
    assert m[..i] + m[i + 1..] == l && m[i] == x;
    GoneAt(m, i, lo, hi, a);
    if Covers(x, a) { AtIndex(m, lo, hi, i, a); }
  }

  lemma TailAbove(l: seq<Range>, t: seq<Range>, lo: nat, hi: nat)
    requires LaidOut(l, lo, hi) && l != []
    requires if l[1..] == [] then t == [] else forall i :: 0 <= i < |t| ==> l[1..][0].start <= t[i].start
    ensures forall i :: 0 <= i < |t| ==> l[0].end <= t[i].start
  {
  }

  lemma ConsKeeps(h: Range, t: seq<Range>, lo: nat, hi: nat)
    requires Placed(h, lo, hi) && !Idle(h) && LaidOut(t, lo, hi) && AllHeld(t)
    requires forall i :: 0 <= i < |t| ==> h.end <= t[i].start
    ensures LaidOut([h] + t, lo, hi) && AllHeld([h] + t) && ([h] + t)[1..] == t
  {
  }
}
