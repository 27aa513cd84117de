/**
  Every transition keeps the kernel invariant, and with it every run does.
 */
module KernelRuns {
  import opened ProcessTree
  import opened Scheduling
  import opened TimedQueue
  import opened KernelModel
  import opened KernelKeeps
  import opened KernelCalls

  /** The thread at the head of the ring runs, and its process is alive. */
  lemma HeadRuns(k: KState)
    requires Inv(k, {})
    ensures CanRun(k)
    ensures k.sched.ring != [] ==> var x := k.sched.ring[0];
      && x in k.sched.ring && k.sched.threads[x] == Scheduled && !k.tree[x.pid].exited
      && MainOk(k, x.pid) && SignalsOk(k, x.pid)
  {
    forall x | x in k.sched.ring
      ensures x in k.sched.threads && x.pid in k.tree && k.sched.threads[x] == Scheduled && !k.tree[x.pid].exited
    {
      assert PlaceOk(k.sched, x) && OwnerOk(k, x);
    }
    if k.sched.ring != [] {
      var x := k.sched.ring[0];
      assert x in k.sched.ring && ProcOk(k, x.pid) && SignalsOk(k, x.pid);
    }
  }

  // ---------------------------------------------------------------------------
  // Going to sleep
  // ---------------------------------------------------------------------------

  /** What the mask of a new waiter in `q` must satisfy. */
  ghost predicate Welcome(k: KState, q: QName, w: Waiter) {
    match q
    case JoinQ(p) => w.thr.pid == p && forall t :: t in w.mask && Thr(p, t) in k.sched.threads ==>
      k.sched.threads[Thr(p, t)] != Exited
    case SignalQ(p) => w.thr.pid == p && p in k.signals && w.mask !! k.signals[p].pending
    case _ => true
  }

  lemma EnterInv(k: KState, q: QName, i: nat, w: Waiter)
    requires Inv(k, {}) && i <= |Queue(k.sched, q)| && Welcome(k, q, w)
    requires w.thr in k.sched.threads && k.sched.threads[w.thr] == Scheduled
    requires q == SleepQ ==> Sorted(k.now, Queue(k.sched, q)[..i] + [w] + Queue(k.sched, q)[i..])
    ensures Inv(k.(sched := Enter(k.sched, w.thr, q, Queue(k.sched, q)[..i] + [w] + Queue(k.sched, q)[i..])), {})
  {
    hide SchedInv, Sorted, TreeInv, Enter;
    var k' := k.(sched := Enter(k.sched, w.thr, q, Queue(k.sched, q)[..i] + [w] + Queue(k.sched, q)[i..]));
    EnterKeeps(k.sched, q, i, w);
    EnterQueues(k.sched, q, i, w);
    forall x
      ensures OwnerOk(k', x)
    {
      assert OwnerOk(k, x) && OwnerOk(k, w.thr);
    }
    forall p
      ensures ProcOk(k', p) && SignalsOk(k', p)
    {
      assert ProcOk(k, p) && SignalsOk(k, p);
      assert MainOk(k', p) && QueuesOwn(k', p) && JoinsOk(k', p);
    }
  }

  lemma EnterQueues(s: Sched, q: QName, i: nat, w: Waiter)
    requires i <= |Queue(s, q)|
    ensures var t := Enter(s, w.thr, q, Queue(s, q)[..i] + [w] + Queue(s, q)[i..]);
      && t.threads == s.threads[w.thr := Waiting(q)]
      && (forall r :: r != q ==> Queue(t, r) == Queue(s, r))
      && Queue(t, q) == Queue(s, q)[..i] + [w] + Queue(s, q)[i..]
      && (forall v, r :: v in Queue(t, r) <==> v in Queue(s, r) || (r == q && v == w))
  {
    var t := Enter(s, w.thr, q, Queue(s, q)[..i] + [w] + Queue(s, q)[i..]);
    forall v
      ensures v in Queue(t, q) <==> v in Queue(s, q) || v == w
    {
      assert Queue(s, q) == Queue(s, q)[..i] + Queue(s, q)[i..];
    }
  }

  lemma EnterLastInv(k: KState, q: QName, x: Thr, mask: set<nat>)
    requires Inv(k, {}) && x in k.sched.threads && k.sched.threads[x] == Scheduled
    requires q != SleepQ && Welcome(k, q, Waiter(x, mask, 0))
    ensures Inv(EnterLast(k, x, q, mask), {})
  {
    hide Inv;
    var l := Queue(k.sched, q);
    assert l[..|l|] + [Waiter(x, mask, 0)] + l[|l|..] == l + [Waiter(x, mask, 0)];
    EnterInv(k, q, |l|, Waiter(x, mask, 0));
  }

  lemma SleepInv(k: KState, x: Thr, ticks: U32)
    requires Inv(k, {}) && x in k.sched.threads && k.sched.threads[x] == Scheduled
    ensures Inv(SleepCall(k, x, ticks), {})
  {
    hide SchedInv, TreeInv, Enter, InsertTimed, OwnerOk, ProcOk, SignalsOk;
    var w := Waiter(x, {}, Plus(k.now, ticks));
    var i := InsertPosition(k.now, Queue(k.sched, SleepQ), w);
    EnterInv(k, SleepQ, i, w);
  }

  // ---------------------------------------------------------------------------
  // Threads that come and go
  // ---------------------------------------------------------------------------

  lemma AddThreadInv(k: KState, x: Thr)
    requires Inv(k, {}) && x !in k.sched.threads && x.pid in k.tree && !k.tree[x.pid].exited
    ensures Inv(k.(sched := ScheduleOne(k.sched, x)), {})
  {
    hide SchedInv, TreeInv, Sorted;
    var k' := k.(sched := ScheduleOne(k.sched, x));
    ScheduleKeeps(k.sched, x);
    assert forall q :: Queue(k'.sched, q) == Queue(k.sched, q);
    forall y
      ensures OwnerOk(k', y)
    {
      assert OwnerOk(k, y);
    }
    forall p
      ensures ProcOk(k', p) && SignalsOk(k', p)
    {
      assert ProcOk(k, p) && SignalsOk(k, p);
      assert MainOk(k', p) && QueuesOwn(k', p) && JoinsOk(k', p);
    }
  }

  lemma DeleteThreadInv(k: KState, x: Thr)
    requires Inv(k, {}) && x in k.sched.threads && k.sched.threads[x] == Exited
    ensures Inv(k.(sched := DeleteThread(k.sched, x)), {})
  {
    hide TreeInv, Sorted;
    var k' := k.(sched := DeleteThread(k.sched, x));
    assert forall q :: Queue(k'.sched, q) == Queue(k.sched, q);
    forall y
      ensures OwnerOk(k', y)
      ensures PlaceOk(k'.sched, y)
    {
      assert OwnerOk(k, y) && PlaceOk(k.sched, y);
    }
    forall p
      ensures ProcOk(k', p) && SignalsOk(k', p)
    {
      assert ProcOk(k, p) && SignalsOk(k, p);
      assert MainOk(k', p) && QueuesOwn(k', p) && JoinsOk(k', p);
    }
  }

  /** A thread stops for good that nobody waits for. */
  lemma StopThreadInv(k: KState, x: Thr)
    requires Inv(k, {}) && x in k.sched.threads && k.sched.threads[x] == Scheduled && x.pid in k.mains
    requires x.tid != k.mains[x.pid]
    requires forall w :: w in Queue(k.sched, JoinQ(x.pid)) ==> x.tid !in w.mask
    ensures Inv(k.(sched := k.sched.(ring := WithoutThr(k.sched.ring, {x}), threads := k.sched.threads[x := Exited])),
      {})
  {
    hide TreeInv, Sorted;
    var k' := k.(sched := k.sched.(ring := WithoutThr(k.sched.ring, {x}), threads := k.sched.threads[x := Exited]));
    WithoutThrFacts(k.sched.ring, {x});
    assert forall q :: Queue(k'.sched, q) == Queue(k.sched, q);
    assert OwnerOk(k, x) && PlaceOk(k.sched, x);
    forall y
      ensures OwnerOk(k', y)
      ensures PlaceOk(k'.sched, y)
    {
      assert OwnerOk(k, y) && PlaceOk(k.sched, y);
    }
    forall p
      ensures ProcOk(k', p) && SignalsOk(k', p)
    {
      assert ProcOk(k, p) && SignalsOk(k, p);
      assert MainOk(k', p) && QueuesOwn(k', p) && JoinsOk(k', p);
    }
  }

  /** A thread disappears without a trace. */
  lemma DropThreadInv(k: KState, x: Thr)
    requires Inv(k, {}) && x in k.sched.threads && k.sched.threads[x] == Scheduled && x.pid in k.mains
    requires x.tid != k.mains[x.pid]
    ensures Inv(k.(sched := DeleteThread(k.sched.(ring := WithoutThr(k.sched.ring, {x})), x)), {})
  {
    hide TreeInv, Sorted;
    var k' := k.(sched := DeleteThread(k.sched.(ring := WithoutThr(k.sched.ring, {x})), x));
    WithoutThrFacts(k.sched.ring, {x});
    assert forall q :: Queue(k'.sched, q) == Queue(k.sched, q);
    forall y
      ensures OwnerOk(k', y)
      ensures PlaceOk(k'.sched, y)
    {
      assert OwnerOk(k, y) && PlaceOk(k.sched, y);
    }
    assert OwnerOk(k, x);
    forall p
      ensures ProcOk(k', p) && SignalsOk(k', p)
    {
      assert ProcOk(k, p) && SignalsOk(k, p);
      assert MainOk(k', p) && QueuesOwn(k', p) && JoinsOk(k', p);
    }
  }

  lemma WakeInv(k: KState, q: QName, i: nat)
    requires Inv(k, {}) && i < |Queue(k.sched, q)|
    ensures Inv(k.(sched := WakeAt(k.sched, q, i)), {})
  {
    WakeKeeps(k.sched, q, i);
    WakeCalmer(k.sched, q, i);
    CalmerKeeps(k, WakeAt(k.sched, q, i), {});
  }

  lemma ExitThreadInv(k: KState, x: Thr)
    requires Inv(k, {}) && x in k.sched.threads && k.sched.threads[x] == Scheduled && x.pid in k.mains
    requires x.tid != k.mains[x.pid]
    ensures Inv(k.(sched := ExitedThread(k.sched, x)), {})
  {
    hide Inv, WakeAt;
    var l := Queue(k.sched, JoinQ(x.pid));
    var i := FirstMatch(l, x.tid);
    if i == |l| {
      StopThreadInv(k, x);
    } else {
      DropThreadInv(k, x);
      WakeInv(k.(sched := DeleteThread(k.sched.(ring := WithoutThr(k.sched.ring, {x})), x)), JoinQ(x.pid), i);
    }
  }

  // ---------------------------------------------------------------------------
  // Processes that come and go
  // ---------------------------------------------------------------------------

  /** An unused process ID has left nothing behind. */
  lemma UnknownProcess(k: KState, c: Pid)
    requires Inv(k, {}) && c !in k.tree
    ensures forall x :: x in k.sched.threads ==> x.pid != c
    ensures Queue(k.sched, JoinQ(c)) == [] && Queue(k.sched, SignalQ(c)) == []
  {
    hide TreeInv, Sorted;
    forall x | x in k.sched.threads
      ensures x.pid != c
    {
      assert OwnerOk(k, x);
    }
    assert ProcOk(k, c) && QueuesOwn(k, c);
    NobodyIn(k, JoinQ(c), c);
    NobodyIn(k, SignalQ(c), c);
  }

  lemma NobodyIn(k: KState, q: QName, c: Pid)
    requires SchedInv(k.sched)
    requires forall x :: x in k.sched.threads && k.sched.threads[x] == Waiting(q) ==> x.pid != c
    requires forall w :: w in Queue(k.sched, q) ==> w.thr.pid == c
    ensures Queue(k.sched, q) == []
  {
    var l := Queue(k.sched, q);
    if l != [] {
      assert l[0] in l && InQueue(l, l[0].thr) && PlaceOk(k.sched, l[0].thr);
    }
  }

  lemma ForkInv(k: KState, x: Thr, c: Pid)
    requires Inv(k, {}) && x.pid in k.tree && !k.tree[x.pid].exited && c !in k.tree
    ensures Inv(ForkP(k, x, c), {})
  {
    hide TreeInv, Sorted, SchedInv, ProcessTree.Forked;
    var k' := ForkP(k, x, c);
    UnknownProcess(k, c);
    ForkKeepsTree(k.tree, k.root, x.pid, c);
    ForkShape(k.tree, x.pid, c);
    ScheduleKeeps(k.sched, Thr(c, x.tid));
    assert forall q :: Queue(k'.sched, q) == Queue(k.sched, q);
    forall y
      ensures OwnerOk(k', y)
    {
      assert OwnerOk(k, y);
    }
    forall p
      ensures ProcOk(k', p) && SignalsOk(k', p)
    {
      assert ProcOk(k, p) && SignalsOk(k, p);
      assert MainOk(k', p) && QueuesOwn(k', p) && JoinsOk(k', p);
    }
  }

  lemma ForkShape(t: Tree, p: Pid, c: Pid)
    requires p in t && c !in t
    ensures var t' := ProcessTree.Forked(t, p, c);
      t'.Keys == t.Keys + {c} && !t'[c].exited && forall q :: q in t ==> t'[q].exited == t[q].exited
  {
  }

  lemma ReapInv(k: KState, p: Pid, z: Pid)
    requires Inv(k, {}) && p in k.tree && z in k.tree[p].zombies
    ensures Inv(ReapP(k, p, z), {})
  {
    hide TreeInv, Sorted, SchedInv, Reaped;
    var k' := ReapP(k, p, z);
    ReapKeepsTree(k.tree, k.root, p, z);
    ReapShape(k.tree, p, z);
    ReapSched(k, p, z);
    forall y
      ensures OwnerOk(k', y)
    {
      assert OwnerOk(k, y);
    }
    forall q
      ensures ProcOk(k', q) && SignalsOk(k', q)
    {
      assert ProcOk(k, q) && SignalsOk(k, q);
      assert MainOk(k', q) && QueuesOwn(k', q) && JoinsOk(k', q);
    }
  }

  lemma ReapShape(t: Tree, p: Pid, z: Pid)
    requires p in t && z != p
    ensures var t' := Reaped(t, p, z);
      t'.Keys == t.Keys - {z} && forall q :: q in t && q != z ==> t'[q].exited == t[q].exited
  {
  }

  /** A zombie's threads are in neither ring nor queue, so deleting them leaves everybody else in place. */
  lemma ReapSched(k: KState, p: Pid, z: Pid)
    requires Inv(k, {}) && p in k.tree && z in k.tree && k.tree[z].exited
    ensures var s := ReapP(k, p, z).sched;
      && SchedInv(s)
      && s.threads.Keys == (set x | x in k.sched.threads && x.pid != z)
      && (forall x :: x in s.threads ==> s.threads[x] == k.sched.threads[x])
      && (forall q :: Queue(s, q) == Queue(k.sched, q))
      && Sorted(k.now, Queue(s, SleepQ))
  {
    hide TreeInv, Sorted;
    var s := ReapP(k, p, z).sched;
    assert ProcOk(k, z) && QueuesOwn(k, z);
    forall x | x in k.sched.threads && x.pid == z
      ensures k.sched.threads[x] == Detached || k.sched.threads[x] == Exited
    {
      assert OwnerOk(k, x);
    }
    NobodyIn(k, JoinQ(z), z);
    NobodyIn(k, SignalQ(z), z);
    assert forall q :: Queue(s, q) == Queue(k.sched, q);
    forall x
      ensures PlaceOk(s, x)
    {
      assert PlaceOk(k.sched, x);
    }
  }

  // ---------------------------------------------------------------------------
  // Waking many, and the clock
  // ---------------------------------------------------------------------------

  lemma WakeHead(s: Sched, q: QName)
    requires SchedInv(s) && Queue(s, q) != []
    ensures var t, x := WakeAt(s, q, 0), Queue(s, q)[0].thr;
      && SchedInv(t) && x in s.threads && s.threads[x] == Waiting(q)
      && Queue(t, q) == Queue(s, q)[1..]
      && (forall r :: r != q ==> Queue(t, r) == Queue(s, r))
      && t.ring == s.ring + [x] && t.threads == s.threads[x := Scheduled]
  {
    hide SchedInv;
    WakeKeeps(s, q, 0);
    var l := Queue(s, q);
    assert l[..0] + l[1..] == l[1..];
  }

  /** The first `n` sleepers run in their order behind everybody in the ring; nobody else moves. */
  lemma {:induction false} WakeFirstFacts(s: Sched, q: QName, n: nat)
    requires SchedInv(s) && n <= |Queue(s, q)|
    ensures var t := WakeFirst(s, q, n);
      && SchedInv(t)
      && Queue(t, q) == Queue(s, q)[n..]
      && t.ring == s.ring + Threads(Queue(s, q)[..n])
      && (forall r :: r != q ==> Queue(t, r) == Queue(s, r))
      && t.threads.Keys == s.threads.Keys
      && (forall x :: x in s.threads && s.threads[x] != Waiting(q) ==> t.threads[x] == s.threads[x])
    decreases n
  {
    hide SchedInv, WakeAt, Queue;
    if n > 0 {
      var l := Queue(s, q);
      WakeHead(s, q);
      var u := WakeAt(s, q, 0);
      WakeFirstFacts(u, q, n - 1);
      assert l[1..][n - 1..] == l[n..] && l[..n][0] == l[0] && l[..n][1..] == l[1..][..n - 1];
    }
  }

  lemma {:induction false} WakeFirstInv(k: KState, q: QName, n: nat)
    requires Inv(k, {}) && n <= |Queue(k.sched, q)|
    ensures Inv(k.(sched := WakeFirst(k.sched, q, n)), {})
    decreases n
  {
    hide Inv, SchedInv;
    if n == 0 {
      assert k.(sched := k.sched) == k;
    } else {
      WakeInv(k, q, 0);
      var k1 := k.(sched := WakeAt(k.sched, q, 0));
      WakeFirstInv(k1, q, n - 1);
      assert k1.(sched := WakeFirst(k1.sched, q, n - 1)) == k.(sched := WakeFirst(k.sched, q, n));
    }
  }

  lemma AdvanceMembers(ring: seq<Thr>)
    ensures forall x :: x in Advance(ring) <==> x in ring
    ensures DistinctRing(ring) ==> DistinctRing(Advance(ring))
  {
    if ring != [] {
      assert ring == [ring[0]] + ring[1..];
    }
  }

  lemma AdvanceInv(k: KState)
    requires Inv(k, {})
    ensures Inv(k.(sched := k.sched.(ring := Advance(k.sched.ring))), {})
  {
    hide TreeInv, Sorted, Advance;
    var t := k.sched.(ring := Advance(k.sched.ring));
    AdvanceMembers(k.sched.ring);
    assert forall q :: Queue(t, q) == Queue(k.sched, q);
    forall x
      ensures PlaceOk(t, x)
    {
      assert PlaceOk(k.sched, x);
    }
    CalmerKeeps(k, t, {});
  }

  /** After the wake-up, the clock moves on and the rest of the sleepers are still in order. */
  lemma ClockInv(k: KState, now: U32)
    requires Inv(k, {}) && Sorted(now, Queue(k.sched, SleepQ))
    ensures Inv(k.(now := now), {})
  {
    hide TreeInv, Sorted, SchedInv;
    var k' := k.(now := now);
    forall x
      ensures OwnerOk(k', x)
    {
      assert OwnerOk(k, x);
    }
    forall p
      ensures ProcOk(k', p) && SignalsOk(k', p)
    {
      assert ProcOk(k, p) && SignalsOk(k, p);
      assert MainOk(k', p) && QueuesOwn(k', p) && JoinsOk(k', p);
    }
  }

  lemma OneTick(now: U32)
    ensures Remaining(now, Plus(now, 1)) == 1
  {
  }

  /** From `k` to `t` the first `n` sleepers, those with at most one tick to go, come to run, and one tick passes. */
  ghost predicate Ticked(k: KState, t: KState, n: nat) {
    var l := Queue(k.sched, SleepQ);
    && n <= |l| && Queue(t.sched, SleepQ) == l[n..]
    && (forall i :: 0 <= i < |l| ==> (i < n <==> Remaining(k.now, l[i].wake) <= 1))
    && (forall i :: n <= i < |l| ==> Remaining(t.now, l[i].wake) == Remaining(k.now, l[i].wake) - 1)
    && var ring := k.sched.ring + Threads(l[..n]); t.sched.ring == if k.sched.ring == [] then ring else Advance(ring)
  }

  /**
    A tick wakes exactly the sleepers with at most one tick to go, in order; for the others one tick
    has passed.
   */
  lemma TickWakes(k: KState)
    requires Inv(k, {})
    ensures exists n :: Ticked(k, TickP(k), n)
  {
    hide SchedInv, TreeInv, Sorted, OwnerOk, ProcOk, SignalsOk, WakeFirst, Advance, Remaining, Plus;
    var l, now := Queue(k.sched, SleepQ), Plus(k.now, 1);
    OneTick(k.now);
    DueExactly(k.now, l, 1, now);
    var n := Due(k.now, l, 1);
    WakeFirstFacts(k.sched, SleepQ, n);
    assert Ticked(k, TickP(k), n);
  }

  lemma TickInv(k: KState)
    requires Inv(k, {})
    ensures Inv(TickP(k), {})
  {
    hide SchedInv, TreeInv, Sorted, OwnerOk, ProcOk, SignalsOk, WakeFirst, Advance, Remaining, Plus;
    var l, now := Queue(k.sched, SleepQ), Plus(k.now, 1);
    OneTick(k.now);
    DueExactly(k.now, l, 1, now);
    var n := Due(k.now, l, 1);
    WakeFirstFacts(k.sched, SleepQ, n);
    WakeFirstInv(k, SleepQ, n);
    var k1 := k.(sched := WakeFirst(k.sched, SleepQ, n));
    ClockInv(k1, now);
    AdvanceInv(k1.(now := now));
  }

  // ---------------------------------------------------------------------------
  // All of it
  // ---------------------------------------------------------------------------

  /** A process that has exited keeps signals it allows, ignores pending ones, and makes any other fatal. */
  lemma SignalZombie(k: KState, z: Pid, sid: nat)
    requires Inv(k, {}) && z in k.tree && k.tree[z].exited && sid < NUM_SIGNALS && !k.down
    ensures var r := SignalP(k, z, sid);
      && (r.ok <==> sid in k.signals[z].pending + k.signals[z].allowed)
      && (r.ok ==> r.k.down == k.down && Inv(r.k, {}))
  {
    hide TreeInv, SchedInv, Sorted;
    InvParts(k, {});
    if sid !in k.signals[z].pending {
      var k1 := SetPending(k, z, k.signals[z].pending + {sid});
      if sid in k.signals[z].allowed {
        assert ProcOk(k, z) && QueuesOwn(k, z);
        forall x | x in k.sched.threads && k.sched.threads[x] == Waiting(SignalQ(z))
          ensures x.pid != z
        {
          assert OwnerOk(k, x);
        }
        NobodyIn(k, SignalQ(z), z);
        assert {} + {z} == {z};
        Excuse(k, {z});
        SetPendingKeeps(k, z, k1.signals[z].pending, {});
      } else {
        ExitZombie(k1, z, PROC_ES_SIGNAL);
      }
    }
  }

  lemma Excuse(k: KState, doomed: set<Pid>)
    requires Inv(k, {})
    ensures Inv(k, doomed)
  {
    hide TreeInv, SchedInv, Sorted, OwnerOk, ProcOk;
    forall p
      ensures p !in doomed ==> SignalsOk(k, p)
    {
      assert p !in {} ==> SignalsOk(k, p);
    }
  }

  /** Nobody exits twice: the process is no longer among its parent's children. */
  lemma ExitZombie(k: KState, z: Pid, status: int)
    requires Shaped(k) && z in k.tree && k.tree[z].exited && !k.down
    ensures !ExitProcP(k, z, status).ok
  {
    hide SchedInv, DetachAll, Adopted, Live, SignalP;
    ExitedHaveNoChildren(k.tree, k.root, z);
    DisownedShaped(k, z);
    ListedIffLive(Disowned(k, z), z);
  }

  /**
    Signalling fails, and so shuts the system down, exactly for a signal ID out of range and for a
    process that has exited and neither has the signal pending nor allows it.
   */
  lemma SignalFails(k: KState, p: Pid, sid: nat)
    requires Inv(k, {}) && p in k.tree && !k.down
    ensures SignalP(k, p, sid).ok <==>
      sid < NUM_SIGNALS && (k.tree[p].exited ==> sid in k.signals[p].pending + k.signals[p].allowed)
    ensures var r := SignalP(k, p, sid); r.ok ==> r.k.down || Inv(r.k, {})
  {
    hide TreeInv, SchedInv, Sorted, OwnerOk, ProcOk, SignalsOk, SignalP;
    InvParts(k, {});
    if sid < NUM_SIGNALS {
      if k.tree[p].exited {
        SignalZombie(k, p, sid);
      } else {
        SignalKeeps(k, p, sid, {});
      }
    } else {
      SignalOutOfRange(k, p, sid);
    }
  }

  lemma SignalOutOfRange(k: KState, p: Pid, sid: nat)
    requires Shaped(k) && p in k.tree && sid >= NUM_SIGNALS
    ensures !SignalP(k, p, sid).ok
  {
  }

  lemma ExitInv(k: KState, p: Pid, status: int)
    requires Inv(k, {p}) && p in k.tree && !k.tree[p].exited
    ensures var r := Settle(ExitProcP(k, p, status), NoReply); r.k.down || Inv(r.k, {})
  {
    ExitKeeps(k, p, status);
  }

  lemma AllowInv(k: KState, p: Pid, v: set<nat>)
    requires Inv(k, {}) && p in k.tree && !k.tree[p].exited
    ensures var r := AllowCall(k, p, v); r.k.down || Inv(r.k, {})
  {
    hide TreeInv, SchedInv, Sorted, ExitProcP;
    var k1 := k.(signals := k.signals[p := k.signals[p].(allowed := v)]);
    forall x
      ensures OwnerOk(k1, x)
    {
      assert OwnerOk(k, x);
    }
    forall q
      ensures ProcOk(k1, q) && (q != p || k.signals[p].pending <= v ==> SignalsOk(k1, q))
    {
      assert ProcOk(k, q) && SignalsOk(k, q);
      assert MainOk(k1, q) && QueuesOwn(k1, q) && JoinsOk(k1, q);
    }
    assert Inv(k1, {p});
    if !(k.signals[p].pending <= v) { ExitInv(k1, p, PROC_ES_SIGNAL); }
  }

  lemma ClearInv(k: KState, p: Pid, pending: set<nat>)
    requires Inv(k, {}) && p in k.tree && pending <= k.signals[p].pending
    ensures Inv(SetPending(k, p, pending), {})
  {
    hide TreeInv, SchedInv, Sorted, OwnerOk, ProcOk;
    Excuse(k, {p});
    assert {} + {p} == {p};
    assert SignalsOk(k, p);
    SetPendingKeeps(k, p, pending, {});
  }

  lemma WaitInv(k: KState, x: Thr, v: set<nat>)
    requires Inv(k, {}) && x in k.sched.threads && k.sched.threads[x] == Scheduled && x.pid in k.tree
    requires forall i :: i in v ==> i < 32
    ensures Inv(WaitCall(k, x, v).k, {})
  {
    hide Inv, TreeInv, SchedInv, EnterLast;
    InvParts(k, {});
    var both := v * k.signals[x.pid].pending;
    var s := Lowest(both, 0);
    if s < 32 {
      ClearInv(k, x.pid, k.signals[x.pid].pending - {s});
    } else if v != {} {
      assert forall i :: i in both ==> i in v && i < s;
      forall i | i in v
        ensures i !in k.signals[x.pid].pending
      {
        assert i in both <==> i in k.signals[x.pid].pending;
      }
      assert Welcome(k, SignalQ(x.pid), Waiter(x, v, 0));
      EnterLastInv(k, SignalQ(x.pid), x, v);
    }
  }

  lemma JoinInv(k: KState, x: Thr, v: set<nat>)
    requires Inv(k, {}) && x in k.sched.threads && k.sched.threads[x] == Scheduled
    requires forall i :: i in v ==> i < 32
    ensures Inv(JoinCall(k, x, v).k, {})
  {
    hide Inv, TreeInv, SchedInv, EnterLast;
    var ready := Joinable(k.sched, x.pid, v);
    var t := Lowest(ready, 0);
    if t < 32 {
      DeleteThreadInv(k, Thr(x.pid, t));
    } else if v != {} && v != {x.tid} {
      assert forall i :: i in v ==> i < t && i !in ready;
      EnterLastInv(k, JoinQ(x.pid), x, v);
    }
  }

  /** Reaping is never fatal: a process that has exited is among its parent's zombies. */
  lemma ReapCallInv(k: KState, p: Pid, z: Pid)
    requires Inv(k, {}) && p in k.tree
    ensures var r := ReapCall(k, p, z); Inv(r.k, {}) && r.k.down == k.down
    ensures ReapCall(k, p, z).reply.Dead? <==> z in k.tree[p].zombies
  {
    hide SchedInv, Sorted, OwnerOk, ProcOk, SignalsOk, ReapP;
    if z in k.tree && z != k.root { assert Placed(k.tree, z); }
    assert ListsSound(k.tree, k.root, p);
    if z in k.tree[p].zombies {
      ReapInv(k, p, z);
      ReapLeavesUp(k, p, z);
    }
  }

  lemma ReapLeavesUp(k: KState, p: Pid, z: Pid)
    requires p in k.tree
    ensures ReapP(k, p, z).down == k.down
  {
  }

  lemma CallKeeps(k: KState, x: Thr, e: Event)
    requires Inv(k, {}) && !k.down && Fits(k, e) && !e.Tick? && !e.WakeAll?
    requires k.sched.ring != [] && x == k.sched.ring[0] && x in k.sched.threads && x.pid in k.tree
    ensures var r := Call(k, x, e); r.k.down || Inv(r.k, {})
  {
    hide Inv, Shaped, TreeInv, SchedInv, EnterLast, ForkP, ReapCall, SignalP, AllowCall, ExitProcP, ExitedThread,
      WaitCall, JoinCall, SleepCall, SpawnP, MainOk, SignalsOk, SetPending;
    HeadRuns(k);
    InvParts(k, {});
    match e
    case Fork(Some(c)) => ForkInv(k, x, c);
    case ExitProcess(status) => Excuse(k, {x.pid}); ExitInv(k, x.pid, status);
    case ReapAny => if k.tree[x.pid].zombies != [] { ReapCallInv(k, x.pid, k.tree[x.pid].zombies[0]); }
    case Reap(z) => ReapCallInv(k, x.pid, z);
    case SignalParent(sid) =>
      if x.pid != k.root && k.tree[x.pid].parent in k.tree { SignalFails(k, k.tree[x.pid].parent, sid); }
    case Signal(q, sid) => if q in k.tree { SignalFails(k, q, sid); }
    case AllowSignals(v) => AllowInv(k, x.pid, v);
    case WaitSignal(v) => WaitInv(k, x, v);
    case ClearSignals(v) => ClearInv(k, x.pid, k.signals[x.pid].pending - v);
    case Sleep(ticks) => SleepInv(k, x, ticks);
    case Spawn(Some(t)) => SpawnInv(k, x.pid, t);
    case ExitThread(value) => ExitThreadCallInv(k, x, value);
    case Join(v) => JoinInv(k, x, v);
    case Block(q) => EnterLastInv(k, BasicQ(q), x, {});
    case _ =>
  }

  lemma SpawnInv(k: KState, p: Pid, t: nat)
    requires Inv(k, {}) && p in k.tree && !k.tree[p].exited && Thr(p, t) !in k.sched.threads
    ensures Inv(SpawnP(k, p, t), {})
  {
    AddThreadInv(k, Thr(p, t));
  }

  lemma ExitThreadCallInv(k: KState, x: Thr, value: int)
    requires Inv(k, {}) && x in k.sched.threads && k.sched.threads[x] == Scheduled && x.pid in k.tree
    requires !k.tree[x.pid].exited
    ensures var r := Settle(ExitThreadCall(k, x, value), NoReply); r.k.down || Inv(r.k, {})
  {
    hide Inv, Shaped, ExitProcP, ExitedThread;
    MainsKnown(k);
    if x.tid == k.mains[x.pid] {
      Excuse(k, {x.pid});
      ExitInv(k, x.pid, value);
    } else {
      ExitThreadInv(k, x);
    }
  }

  lemma MainsKnown(k: KState)
    requires Inv(k, {})
    ensures Shaped(k) && k.mains.Keys == k.tree.Keys
  {
  }

  /** Whatever system call comes, or the clock ticks, the invariant is kept or the system is down. */
  lemma StepKeeps(k: KState, e: Event)
    requires Inv(k, {}) && !k.down && Fits(k, e)
    ensures CanRun(k) && (Step(k, e).k.down || Inv(Step(k, e).k, {}))
  {
    hide Inv, Shaped, TreeInv, SchedInv, Call, TickP, WakeFirst, MainOk, SignalsOk;
    HeadRuns(k);
    match e
    case Tick => TickInv(k);
    case WakeAll(q) => WakeFirstInv(k, BasicQ(q), |Queue(k.sched, BasicQ(q))|);
    case _ => if k.sched.ring != [] { CallKeeps(k, k.sched.ring[0], e); }
  }

  /** The kernel with its root process, whose only thread is about to run. */
  function Boot(root: Pid, tid: nat): (k: KState) {
    KState(root, false, 0, map[root := Family(root, false, 0, [], [])], map[root := Signals({}, {})], map[root := tid],
      Sched(map[Thr(root, tid) := Scheduled], map[], [Thr(root, tid)]))
  }

  lemma BootInv(root: Pid, tid: nat)
    ensures Inv(Boot(root, tid), {})
  {
    var k := Boot(root, tid);
    var rank: map<Pid, nat> := map[root := 0];
    assert ListsSound(k.tree, root, root) && Ranked(k.tree, root, rank);
    forall x
      ensures PlaceOk(k.sched, x) && OwnerOk(k, x)
    {
    }
    forall p
      ensures ProcOk(k, p) && SignalsOk(k, p)
    {
    }
  }

  ghost predicate Next(k: KState, k': KState) {
    !k.down && CanRun(k) && exists e {:trigger Fits(k, e)} :: Fits(k, e) && k' == Step(k, e).k
  }

  /** Each state follows from the one before by one event; nothing happens after the system has gone down. */
  ghost predicate Run(run: seq<KState>, root: Pid, tid: nat) {
    && run != [] && run[0] == Boot(root, tid)
    && forall i {:trigger run[i]} :: 0 < i < |run| ==> Next(run[i - 1], run[i])
  }

  /** In every run every state but a final, shut down one keeps the invariant. */
  lemma {:induction false} RunsKeep(run: seq<KState>, root: Pid, tid: nat, n: nat)
    requires Run(run, root, tid) && n < |run|
    ensures run[n].down || Inv(run[n], {})
    decreases n
  {
    hide Inv, Step, Fits, Boot;
    if n == 0 {
      BootInv(root, tid);
    } else {
      RunsKeep(run, root, tid, n - 1);
      assert Next(run[n - 1], run[n]);
      var e :| Fits(run[n - 1], e) && run[n] == Step(run[n - 1], e).k;
      StepKeeps(run[n - 1], e);
    }
  }
}
