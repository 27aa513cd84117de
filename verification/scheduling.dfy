/**
  Threads, the run ring and the wait queues: which thread is where.

  A thread's state names the wait queue it sleeps in, as thr->wq does. The ring is the cyclic
  list read from its head, so the current thread is its first element.
 */
module Scheduling {

  /** A 32-bit tick count. */
  type U32 = x: int | 0 <= x < 0x1_0000_0000

  datatype Thr = Thr(pid: nat, tid: nat)
  datatype QName = JoinQ(pid: nat) | SignalQ(pid: nat) | SleepQ | BasicQ(id: nat)
  datatype TState = Detached | Scheduled | Waiting(q: QName) | Exited

  /** An entry of a wait queue. `mask` is used by the vector queues, `wake` by the timed one. */
  datatype Waiter = Waiter(thr: Thr, mask: set<nat>, wake: U32)

  datatype Sched = Sched(threads: map<Thr, TState>, queues: map<QName, seq<Waiter>>, ring: seq<Thr>)

  function Queue(s: Sched, q: QName): seq<Waiter> {
    if q in s.queues then s.queues[q] else []
  }

  ghost predicate InQueue(l: seq<Waiter>, x: Thr) {
    exists i :: 0 <= i < |l| && l[i].thr == x
  }

  ghost predicate DistinctRing(l: seq<Thr>) {
    forall i, j :: 0 <= i < j < |l| ==> l[i] != l[j]
  }

  ghost predicate DistinctQueue(l: seq<Waiter>) {
    forall i, j :: 0 <= i < j < |l| ==> l[i].thr != l[j].thr
  }

  /** Thread `x` is exactly where its state says. */
  ghost predicate PlaceOk(s: Sched, x: Thr) {
    && (x in s.ring <==> x in s.threads && s.threads[x] == Scheduled)
    && (forall q :: InQueue(Queue(s, q), x) <==> x in s.threads && s.threads[x] == Waiting(q))
  }

  /** Every thread is in the ring, in exactly its own wait queue, or in neither, and there only once. */
  ghost predicate SchedInv(s: Sched) {
    && DistinctRing(s.ring)
    && (forall q :: DistinctQueue(Queue(s, q)))
    && (forall x {:trigger PlaceOk(s, x)} :: PlaceOk(s, x))
  }

  // ---------------------------------------------------------------------------
  // Removing threads from ring and queues
  // ---------------------------------------------------------------------------

  function WithoutThr(l: seq<Thr>, xs: set<Thr>): (r: seq<Thr>) {
    if l == [] then [] else (if l[0] in xs then [] else [l[0]]) + WithoutThr(l[1..], xs)
  }

  function WithoutWaiter(l: seq<Waiter>, xs: set<Thr>): (r: seq<Waiter>) {
    if l == [] then [] else (if l[0].thr in xs then [] else [l[0]]) + WithoutWaiter(l[1..], xs)
  }

  lemma {:induction false} WithoutThrFacts(l: seq<Thr>, xs: set<Thr>)
    ensures forall x :: x in WithoutThr(l, xs) <==> x in l && x !in xs
    ensures DistinctRing(l) ==> DistinctRing(WithoutThr(l, xs))
  {
    if l != [] {
      WithoutThrFacts(l[1..], xs);
      var t := WithoutThr(l[1..], xs);
      assert forall x :: x in l <==> x == l[0] || x in l[1..];
      if DistinctRing(l) && l[0] !in xs {
        assert l[0] !in l[1..];
        var r := [l[0]] + t;
        forall i, j | 0 <= i < j < |r|
          ensures r[i] != r[j]
        {
          assert r[j] == t[j - 1] && t[j - 1] in t;
          if i > 0 { assert r[i] == t[i - 1]; }
        }
      }
    }
  }

  lemma {:induction false} WithoutWaiterFacts(l: seq<Waiter>, xs: set<Thr>)
    ensures forall w :: w in WithoutWaiter(l, xs) <==> w in l && w.thr !in xs
    ensures DistinctQueue(l) ==> DistinctQueue(WithoutWaiter(l, xs))
  {
    if l != [] {
      WithoutWaiterFacts(l[1..], xs);
      var t := WithoutWaiter(l[1..], xs);
      assert forall w :: w in l <==> w == l[0] || w in l[1..];
      if DistinctQueue(l) && l[0].thr !in xs {
        var r := [l[0]] + t;
        forall i, j | 0 <= i < j < |r|
          ensures r[i].thr != r[j].thr
        {
          assert r[j] == t[j - 1] && t[j - 1] in t;
          if i > 0 {
            assert r[i] == t[i - 1];
          } else {
            var k :| 0 <= k < |l[1..]| && l[1..][k] == r[j];
            assert l[k + 1] == r[j];
          }
        }
      }
    }
  }

  lemma InQueueWithout(l: seq<Waiter>, xs: set<Thr>, x: Thr)
    ensures InQueue(WithoutWaiter(l, xs), x) <==> InQueue(l, x) && x !in xs
  {
    WithoutWaiterFacts(l, xs);
    var r := WithoutWaiter(l, xs);
    if InQueue(l, x) && x !in xs {
      var i :| 0 <= i < |l| && l[i].thr == x;
      assert l[i] in r;
    }
    if InQueue(r, x) {
      var i :| 0 <= i < |r| && r[i].thr == x;
      assert r[i] in l;
    }
  }

  lemma {:induction false} WithoutAbsentThr(l: seq<Thr>, xs: set<Thr>)
    requires forall x :: x in xs ==> x !in l
    ensures WithoutThr(l, xs) == l
  {
    if l != [] {
      assert l[0] in l;
      WithoutAbsentThr(l[1..], xs);
    }
  }

  lemma {:induction false} WithoutAbsentWaiter(l: seq<Waiter>, xs: set<Thr>)
    requires forall x :: x in xs ==> !InQueue(l, x)
    ensures WithoutWaiter(l, xs) == l
  {
    if l != [] {
      assert l[0].thr !in xs;
      forall x | x in xs
        ensures !InQueue(l[1..], x)
      {
        assert !InQueue(l, x);
      }
      WithoutAbsentWaiter(l[1..], xs);
    }
  }

  function DetachedState(t: TState): TState {
    if t == Scheduled || t.Waiting? then Detached else t
  }

  /** Every thread of `xs` leaves the ring or its queue; exited ones stay exited. */
  function DetachAll(s: Sched, xs: set<Thr>): Sched {
    Sched(
      map x | x in s.threads :: if x in xs then DetachedState(s.threads[x]) else s.threads[x],
      map q | q in s.queues :: WithoutWaiter(s.queues[q], xs),
      WithoutThr(s.ring, xs))
  }

  lemma DetachAllKeeps(s: Sched, xs: set<Thr>)
    requires SchedInv(s)
    ensures SchedInv(DetachAll(s, xs))
  {
    var s' := DetachAll(s, xs);
    WithoutThrFacts(s.ring, xs);
    forall q
      ensures Queue(s', q) == WithoutWaiter(Queue(s, q), xs) && DistinctQueue(Queue(s', q))
    {
      WithoutWaiterFacts(Queue(s, q), xs);
    }
    forall x
      ensures PlaceOk(s', x)
    {
      assert PlaceOk(s, x);
      forall q
        ensures InQueue(Queue(s', q), x) <==> x in s'.threads && s'.threads[x] == Waiting(q)
      {
        InQueueWithout(Queue(s, q), xs, x);
      }
    }
  }

  /** thread_detach: only the thread's own queue, or the ring, is touched. */
  function DetachOne(s: Sched, x: Thr): Sched
    requires x in s.threads
  {
    match s.threads[x]
    case Waiting(q) => s.(queues := s.queues[q := WithoutWaiter(Queue(s, q), {x})], threads := s.threads[x := Detached])
    case Scheduled => s.(ring := WithoutThr(s.ring, {x}), threads := s.threads[x := Detached])
    case _ => s
  }

  /** Because a thread is in one place only, detaching it there removes it everywhere. */
  lemma DetachOneIsDetachAll(s: Sched, x: Thr)
    requires SchedInv(s) && x in s.threads
    ensures DetachOne(s, x) == DetachAll(s, {x})
  {
    assert PlaceOk(s, x);
    var s1, s2 := DetachOne(s, x), DetachAll(s, {x});
    assert s1.threads == s2.threads;
    if s.threads[x] != Scheduled { WithoutAbsentThr(s.ring, {x}); }
    forall q | q in s.queues && s.threads[x] != Waiting(q)
      ensures WithoutWaiter(s.queues[q], {x}) == s.queues[q]
    {
      assert Queue(s, q) == s.queues[q];
      WithoutAbsentWaiter(s.queues[q], {x});
    }
    if s.threads[x].Waiting? {
      assert InQueue(Queue(s, s.threads[x].q), x);
      assert s.threads[x].q in s.queues;
    }
    assert s1.queues == s2.queues;
  }

  lemma {:induction false} WithoutThrTwice(l: seq<Thr>, xs: set<Thr>, ys: set<Thr>)
    ensures WithoutThr(WithoutThr(l, xs), ys) == WithoutThr(l, xs + ys)
  {
    if l != [] {
      WithoutThrTwice(l[1..], xs, ys);
      var t := WithoutThr(l[1..], xs);
      if l[0] in xs { assert [] + t == t; } else { assert ([l[0]] + t)[1..] == t; }
    }
  }

  lemma {:induction false} WithoutWaiterTwice(l: seq<Waiter>, xs: set<Thr>, ys: set<Thr>)
    ensures WithoutWaiter(WithoutWaiter(l, xs), ys) == WithoutWaiter(l, xs + ys)
  {
    if l != [] {
      WithoutWaiterTwice(l[1..], xs, ys);
      var t := WithoutWaiter(l[1..], xs);
      if l[0].thr in xs { assert [] + t == t; } else { assert ([l[0]] + t)[1..] == t; }
    }
  }

  lemma DetachAllTwice(s: Sched, xs: set<Thr>, ys: set<Thr>)
    ensures DetachAll(DetachAll(s, xs), ys) == DetachAll(s, xs + ys)
  {
    WithoutThrTwice(s.ring, xs, ys);
    var a, b := DetachAll(DetachAll(s, xs), ys), DetachAll(s, xs + ys);
    forall q | q in s.queues
      ensures a.queues[q] == b.queues[q]
    {
      WithoutWaiterTwice(s.queues[q], xs, ys);
    }
    assert a.queues == b.queues;
    assert a.threads == b.threads;
  }

  lemma DetachNone(s: Sched)
    ensures DetachAll(s, {}) == s
  {
    WithoutAbsentThr(s.ring, {});
    forall q | q in s.queues
      ensures WithoutWaiter(s.queues[q], {}) == s.queues[q]
    {
      WithoutAbsentWaiter(s.queues[q], {});
    }
    assert DetachAll(s, {}).queues == s.queues;
    assert DetachAll(s, {}).threads == s.threads;
  }

  // ---------------------------------------------------------------------------
  // Scheduling, sleeping, waking
  // ---------------------------------------------------------------------------

  /** thread_schedule of a detached thread: it goes right behind the head, which is the end of the cyclic list. */
  function ScheduleOne(s: Sched, x: Thr): Sched {
    s.(ring := s.ring + [x], threads := s.threads[x := Scheduled])
  }

  lemma ScheduleKeeps(s: Sched, x: Thr)
    requires SchedInv(s) && (x !in s.threads || s.threads[x] == Detached)
    ensures SchedInv(ScheduleOne(s, x))
  {
    var s' := ScheduleOne(s, x);
    assert PlaceOk(s, x);
    assert forall q :: Queue(s', q) == Queue(s, q);
    forall y
      ensures PlaceOk(s', y)
    {
      assert PlaceOk(s, y);
    }
  }

  /** The running thread `x` goes to sleep in queue `q`, which becomes `l`. */
  function Enter(s: Sched, x: Thr, q: QName, l: seq<Waiter>): Sched {
    Sched(s.threads[x := Waiting(q)], s.queues[q := l], WithoutThr(s.ring, {x}))
  }

  lemma InQueueConcat(a: seq<Waiter>, b: seq<Waiter>, x: Thr)
    ensures InQueue(a + b, x) <==> InQueue(a, x) || InQueue(b, x)
  {
    if InQueue(a, x) {
      var i :| 0 <= i < |a| && a[i].thr == x;
      assert (a + b)[i].thr == x;
    }
    if InQueue(b, x) {
      var i :| 0 <= i < |b| && b[i].thr == x;
      assert (a + b)[|a| + i].thr == x;
    }
  }

  /** The thread may be put anywhere in the queue. */
  lemma EnterKeeps(s: Sched, q: QName, i: nat, w: Waiter)
    requires SchedInv(s) && w.thr in s.threads && s.threads[w.thr] == Scheduled && i <= |Queue(s, q)|
    ensures SchedInv(Enter(s, w.thr, q, Queue(s, q)[..i] + [w] + Queue(s, q)[i..]))
  {
    var x, l := w.thr, Queue(s, q);
    var l' := l[..i] + [w] + l[i..];
    var s' := Enter(s, x, q, l');
    WithoutThrFacts(s.ring, {x});
    assert PlaceOk(s, x);
    assert forall r :: Queue(s', r) == if r == q then l' else Queue(s, r);
    assert DistinctQueue(l') by {
      assert !InQueue(l, x);
      assert forall j :: 0 <= j < |l'| && j != i ==> l'[j] == l[if j < i then j else j - 1];
    }
    forall y
      ensures PlaceOk(s', y)
    {
      assert PlaceOk(s, y);
      InQueueInserted(l, i, w, y);
    }
  }

  lemma InQueueInserted(l: seq<Waiter>, i: nat, w: Waiter, x: Thr)
    requires i <= |l|
    ensures InQueue(l[..i] + [w] + l[i..], x) <==> InQueue(l, x) || x == w.thr
  {
    var a, b := l[..i], l[i..];
    assert a + b == l;
    InQueueConcat(a, b, x);
    InQueueConcat(a + [w], b, x);
    InQueueConcat(a, [w], x);
    assert InQueue([w], x) <==> x == w.thr by {
      assert [w][0].thr == w.thr;
    }
  }

  /** The waiter at position `i` of queue `q` leaves it and is scheduled. */
  function WakeAt(s: Sched, q: QName, i: nat): Sched
    requires i < |Queue(s, q)|
  {
    var l := Queue(s, q);
    ScheduleOne(s.(queues := s.queues[q := l[..i] + l[i + 1..]], threads := s.threads[l[i].thr := Detached]), l[i].thr)
  }

  lemma {:induction false} WithoutIsCut(l: seq<Waiter>, i: nat)
    requires i < |l| && DistinctQueue(l)
    ensures WithoutWaiter(l, {l[i].thr}) == l[..i] + l[i + 1..]
  {
    if i == 0 {
      assert !InQueue(l[1..], l[0].thr);
      WithoutAbsentWaiter(l[1..], {l[0].thr});
    } else {
      assert l[0].thr != l[i].thr;
      WithoutIsCut(l[1..], i - 1);
      assert l[..i] + l[i + 1..] == [l[0]] + (l[1..][..i - 1] + l[1..][i..]);
    }
  }

  /** Waking a waiter is detaching and scheduling its thread. */
  lemma WakeKeeps(s: Sched, q: QName, i: nat)
    requires SchedInv(s) && i < |Queue(s, q)|
    ensures Queue(s, q)[i].thr in s.threads && s.threads[Queue(s, q)[i].thr] == Waiting(q)
    ensures WakeAt(s, q, i) == ScheduleOne(DetachAll(s, {Queue(s, q)[i].thr}), Queue(s, q)[i].thr)
    ensures SchedInv(WakeAt(s, q, i))
  {
    var x := Queue(s, q)[i].thr;
    assert InQueue(Queue(s, q), x);
    assert PlaceOk(s, x);
    DetachOneIsDetachAll(s, x);
    WithoutIsCut(Queue(s, q), i);
    DetachAllKeeps(s, {x});
    ScheduleKeeps(DetachAll(s, {x}), x);
  }

  /** The position of the first waiter whose mask holds `id`, or the length of the queue. */
  function FirstMatch(l: seq<Waiter>, id: nat): (i: nat)
    ensures i <= |l|
    ensures forall k :: 0 <= k < i ==> id !in l[k].mask
    ensures i < |l| ==> id in l[i].mask
  {
    if l == [] then 0 else if id in l[0].mask then 0 else 1 + FirstMatch(l[1..], id)
  }
}
