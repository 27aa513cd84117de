/**
  The timed wait queue: sleepers ordered by the time they still have to wait, on a 32-bit clock
  that wraps around.
 */
module TimedQueue {
  import opened Scheduling

  /** abs_wait_time: ticks from `now` until the clock shows `wake`. */
  function Remaining(now: U32, wake: U32): (r: U32) {
    if now <= wake then wake - now else (0xFFFFFFFF - now) + 1 + wake
  }

  /** Waiting `r` ticks ends at `wake` on the wrapping clock for that one `r` only. */
  lemma RemainingUnique(now: U32, wake: U32, r: U32)
    ensures (now + r) % 0x1_0000_0000 == wake <==> r == Remaining(now, wake)
  {
  }

  ghost predicate Sorted(now: U32, l: seq<Waiter>) {
    forall i, j :: 0 <= i < j < |l| ==> Remaining(now, l[i].wake) <= Remaining(now, l[j].wake)
  }

  /** Behind everyone who waits at most as long. */
  function InsertTimed(now: U32, l: seq<Waiter>, w: Waiter): (r: seq<Waiter>) {
    if l == [] then [w]
    else if Remaining(now, w.wake) < Remaining(now, l[0].wake) then [w] + l
    else [l[0]] + InsertTimed(now, l[1..], w)
  }

  lemma {:induction false} InsertShape(now: U32, l: seq<Waiter>, w: Waiter) returns (i: nat)
    ensures i <= |l| && InsertTimed(now, l, w) == l[..i] + [w] + l[i..]
    ensures forall k :: 0 <= k < i ==> Remaining(now, l[k].wake) <= Remaining(now, w.wake)
    ensures i < |l| ==> Remaining(now, w.wake) < Remaining(now, l[i].wake)
  {
    hide Remaining;
    if l == [] || Remaining(now, w.wake) < Remaining(now, l[0].wake) {
      i := 0;
    } else {
      var t := l[1..];
      var j := InsertShape(now, t, w);
      i := j + 1;
      assert l[..i] == [l[0]] + t[..j] && l[i..] == t[j..];
      forall k | 0 <= k < i
        ensures Remaining(now, l[k].wake) <= Remaining(now, w.wake)
      {
        assert k > 0 ==> l[k] == t[k - 1];
      }
    }
  }

  /** First in, first out among equal wake times: `i` waiters wait at most as long, all others longer. */
  lemma InsertPosition(now: U32, l: seq<Waiter>, w: Waiter) returns (i: nat)
    requires Sorted(now, l)
    ensures i <= |l| && InsertTimed(now, l, w) == l[..i] + [w] + l[i..]
    ensures forall k :: 0 <= k < |l| ==> (k < i <==> Remaining(now, l[k].wake) <= Remaining(now, w.wake))
    ensures Sorted(now, InsertTimed(now, l, w))
  {
    hide Remaining, InsertTimed;
    i := InsertShape(now, l, w);
  }

  /** How many sleepers are due once `passed` ticks have gone by: those before the first that is not. */
  function Due(now: U32, l: seq<Waiter>, passed: U32): (n: nat)
    ensures n <= |l|
  {
    if l == [] || Remaining(now, l[0].wake) > passed then 0 else 1 + Due(now, l[1..], passed)
  }

  /**
    Nobody oversleeps and nobody is woken early: exactly the sleepers whose remaining time has passed
    are due, and the others are still in order on the new clock, even when the clock wraps.
   */
  lemma {:induction false} DueExactly(now: U32, l: seq<Waiter>, passed: U32, later: U32)
    requires Sorted(now, l) && passed == Remaining(now, later)
    ensures var n := Due(now, l, passed);
      && (forall k :: 0 <= k < |l| ==> (k < n <==> Remaining(now, l[k].wake) <= passed))
      && (forall k :: n <= k < |l| ==>
          Remaining(later, l[k].wake) == Remaining(now, l[k].wake) - passed && l[k].wake != later)
      && Sorted(later, l[n..])
  {
    var n := Due(now, l, passed);
    DueSplit(now, l, passed);
    forall k | n <= k < |l|
      ensures Remaining(later, l[k].wake) == Remaining(now, l[k].wake) - passed
    {
    }
  }

  lemma {:induction false} DueSplit(now: U32, l: seq<Waiter>, passed: U32)
    requires Sorted(now, l)
    ensures forall k :: 0 <= k < |l| ==> (k < Due(now, l, passed) <==> Remaining(now, l[k].wake) <= passed)
  {
    if l != [] && Remaining(now, l[0].wake) <= passed {
      DueSplit(now, l[1..], passed);
      assert forall k :: 1 <= k < |l| ==> l[k] == l[1..][k - 1];
    }
  }

  lemma {:induction false} WithoutSorted(now: U32, l: seq<Waiter>, xs: set<Thr>)
    requires Sorted(now, l)
    ensures Sorted(now, WithoutWaiter(l, xs))
  {
    if l != [] {
      assert forall k :: 1 <= k < |l| ==> l[k] == l[1..][k - 1];
      WithoutSorted(now, l[1..], xs);
      WithoutWaiterFacts(l[1..], xs);
      var t := WithoutWaiter(l[1..], xs);
      forall k | 0 <= k < |t|
        ensures Remaining(now, l[0].wake) <= Remaining(now, t[k].wake)
      {
        assert t[k] in t;
      }
    }
  }

  function Threads(l: seq<Waiter>): (r: seq<Thr>)
    ensures |r| == |l| && forall k :: 0 <= k < |l| ==> r[k] == l[k].thr
  {
    if l == [] then [] else [l[0].thr] + Threads(l[1..])
  }

  lemma {:induction false} ThreadsNext(l: seq<Waiter>, n: nat)
    requires n < |l|
    ensures Threads(l[..n + 1]) == Threads(l[..n]) + [l[n].thr]
  {
    assert forall k :: 0 <= k < n ==> l[..n + 1][k] == l[..n][k];
  }

  /** The scan of twq_enqueue for the place of `w`. */
  method FirstLater(now: U32, l: seq<Waiter>, w: Waiter) returns (i: nat)
    requires Sorted(now, l)
    ensures i <= |l| && InsertTimed(now, l, w) == l[..i] + [w] + l[i..] && Sorted(now, l[..i] + [w] + l[i..])
  {
    ghost var at := InsertPosition(now, l, w);
    i := 0;
    while i < |l| && Remaining(now, w.wake) >= Remaining(now, l[i].wake)
      invariant 0 <= i <= at
    {
      i := i + 1;
    }
  }

  /** Every waiter of the thread is popped from the list. */
  method RemoveWaiters(l: seq<Waiter>, thr: Thr) returns (r: seq<Waiter>)
    ensures r == WithoutWaiter(l, {thr})
  {
    r := l;
    var i := 0;
    while i < |r|
      invariant 0 <= i <= |r|
      invariant WithoutWaiter(l, {thr}) == r[..i] + WithoutWaiter(r[i..], {thr})
      decreases |r| - i
    {
      ghost var tail := WithoutWaiter(r[i..][1..], {thr});
      assert r[i..][1..] == r[i + 1..];
      if r[i].thr == thr {
        assert [] + tail == tail;
        r := r[..i] + r[i + 1..];
      } else {
        assert r[..i] + ([r[i]] + tail) == r[..i + 1] + tail;
        i := i + 1;
      }
    }
    assert r[..i] + [] == r;
  }

  method RemoveThreads(l: seq<Thr>, thr: Thr) returns (r: seq<Thr>)
    ensures r == WithoutThr(l, {thr})
  {
    r := l;
    var i := 0;
    while i < |r|
      invariant 0 <= i <= |r|
      invariant WithoutThr(l, {thr}) == r[..i] + WithoutThr(r[i..], {thr})
      decreases |r| - i
    {
      ghost var tail := WithoutThr(r[i..][1..], {thr});
      assert r[i..][1..] == r[i + 1..];
      if r[i] == thr {
        assert [] + tail == tail;
        r := r[..i] + r[i + 1..];
      } else {
        assert r[..i] + ([r[i]] + tail) == r[..i + 1] + tail;
        i := i + 1;
      }
    }
    assert r[..i] + [] == r;
  }

  /** The linked lists of the timed queue. */
  class TimedWaitQueue {
    var time: U32
    var wait: seq<Waiter>
    var ready: seq<Thr>

    ghost predicate Valid()
      reads this
    {
      Sorted(time, wait) && forall w :: w in wait ==> w.wake != time
    }

    constructor ()
      ensures Valid() && time == 0 && wait == [] && ready == []
    {
      time, wait, ready := 0, [], [];
    }

    method Enqueue(thr: Thr, wt: U32)
      requires Valid()
      modifies this
      ensures Valid() && time == old(time)
      ensures wt == time ==> ready == old(ready) + [thr] && wait == old(wait)
      ensures wt != time ==> ready == old(ready) && wait == InsertTimed(time, old(wait), Waiter(thr, {}, wt))
    {
      if wt == time {
        ready := ready + [thr];
        return;
      }
      var w := Waiter(thr, {}, wt);
      var i := FirstLater(time, wait, w);
      ghost var was := wait;
      wait := wait[..i] + [w] + wait[i..];
      forall v | v in wait
        ensures v.wake != time
      {
        assert v in was || v == w;
      }
    }

    method Notify(curr: U32)
      requires Valid()
      modifies this
      ensures Valid() && time == curr
      ensures var n := Due(old(time), old(wait), Remaining(old(time), curr));
        && wait == old(wait)[n..]
        && ready == old(ready) + Threads(old(wait)[..n])
    {
      hide Remaining, Sorted;
      var passed := Remaining(time, curr);
      ghost var was, woken := wait, 0;
      DueExactly(time, wait, passed, curr);
      while |wait| > 0 && Remaining(time, wait[0].wake) <= passed
        invariant 0 <= woken <= |was| && wait == was[woken..]
        invariant woken + Due(time, wait, passed) == Due(time, was, passed)
        invariant ready == old(ready) + Threads(was[..woken])
        invariant time == old(time)
        decreases |wait|
      {
        ready := ready + [wait[0].thr];
        ThreadsNext(was, woken);
        wait := wait[1..];
        woken := woken + 1;
      }
      time := curr;
      forall w | w in wait
        ensures w.wake != curr
      {
        var k :| 0 <= k < |wait| && wait[k] == w;
        assert w == was[woken + k];
      }
    }

    method Pop() returns (thr: Thr, ok: bool)
      requires Valid()
      modifies this
      ensures Valid() && time == old(time) && wait == old(wait)
      ensures ok <==> old(ready) != []
      ensures if ok then old(ready) == [thr] + ready else ready == old(ready)
    {
      if ready == [] {
        return Thr(0, 0), false;
      }
      thr, ok := ready[0], true;
      ready := ready[1..];
    }

    /** Every occurrence of the thread goes, from both lists. */
    method Remove(thr: Thr)
      requires Valid()
      modifies this
      ensures Valid() && time == old(time)
      ensures wait == WithoutWaiter(old(wait), {thr}) && ready == WithoutThr(old(ready), {thr})
    {
      WithoutSorted(time, wait, {thr});
      WithoutWaiterFacts(wait, {thr});
      wait := RemoveWaiters(wait, thr);
      ready := RemoveThreads(ready, thr);
    }
  }
}
