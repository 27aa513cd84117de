/**
  What holds over whole runs: exit statuses that reach the parent, signals that stay pending, and how long a
  thread sleeps.
 */
module KernelHistories {
  import opened ProcessTree
  import opened Scheduling
  import opened TimedQueue
  import opened KernelModel
  import opened KernelKeeps
  import opened KernelCalls
  import opened KernelRuns
  import opened KernelSignals
  import opened KernelJoins
  import opened KernelEvents

  /** The step from `run[i]` keeps all that is known of one. */
  lemma StepOf(run: seq<KState>, evs: seq<Event>, root: Pid, tid: nat, i: nat)
    requires RunBy(run, evs, root, tid) && i < |evs|
    ensures !run[i].down && CanRun(run[i]) && Fits(run[i], evs[i]) && run[i + 1] == Step(run[i], evs[i]).k
    ensures Inv(run[i], {})
  {
    hide Inv, Step, Fits, Boot;
    var e := evs[i];
    assert !run[i].down;
    RunByKeeps(run, evs, root, tid, i);
  }

  // ---------------------------------------------------------------------------
  // Exit statuses
  // ---------------------------------------------------------------------------

  /** In step `m` process `z` exits with that status. */
  ghost predicate DiesAt(run: seq<KState>, evs: seq<Event>, m: nat, z: Pid, status: int)
    requires |run| == |evs| + 1
  {
    && m < |evs| && z in run[m].tree && !run[m].tree[z].exited && z in run[m + 1].tree
    && run[m + 1].tree[z].exited && run[m + 1].tree[z].status == status
    && run[m].sched.ring != [] && EndsWith(run[m].sched.ring[0], evs[m], z, status)
  }

  /** An exited process of a run has exited in some step, with the status that is recorded. */
  lemma {:induction false} DiedBefore(run: seq<KState>, evs: seq<Event>, root: Pid, tid: nat, n: nat, z: Pid)
    returns (m: nat)
    requires RunBy(run, evs, root, tid) && n < |run| && !run[n].down && z in run[n].tree && run[n].tree[z].exited
    ensures m < n && DiesAt(run, evs, m, z, run[n].tree[z].status)
    ensures forall i :: m < i <= n ==> z in run[i].tree && run[i].tree[z].exited
    decreases n
  {
    hide Inv, Step, Fits, EndsWith, RunBy, DiesAt;
    if n == 0 {
      NoneDeadAtBoot(run, evs, root, tid, z);
    } else {
      OneBack(run, evs, root, tid, n, z);
      if run[n - 1].tree[z].exited {
        m := DiedBefore(run, evs, root, tid, n - 1, z);
      } else {
        m := n - 1;
      }
    }
  }

  lemma NoneDeadAtBoot(run: seq<KState>, evs: seq<Event>, root: Pid, tid: nat, z: Pid)
    requires RunBy(run, evs, root, tid)
    ensures |run| > 0 && (z in run[0].tree ==> !run[0].tree[z].exited)
  {
  }

  lemma OneBack(run: seq<KState>, evs: seq<Event>, root: Pid, tid: nat, n: nat, z: Pid)
    requires RunBy(run, evs, root, tid) && 0 < n < |run| && !run[n].down && z in run[n].tree && run[n].tree[z].exited
    ensures z in run[n - 1].tree && !run[n - 1].down
    ensures if run[n - 1].tree[z].exited then run[n - 1].tree[z].status == run[n].tree[z].status
      else DiesAt(run, evs, n - 1, z, run[n].tree[z].status)
  {
    hide Inv, Step, Fits, EndsWith, RunBy;
    LengthOf(run, evs, root, tid);
    StepOf(run, evs, root, tid, n - 1);
    StatusStays(run[n - 1], evs[n - 1], z);
    ExitedBack(run[n - 1], evs[n - 1], z);
  }

  lemma LengthOf(run: seq<KState>, evs: seq<Event>, root: Pid, tid: nat)
    requires RunBy(run, evs, root, tid)
    ensures |run| == |evs| + 1
  {
  }

  /** Whoever has exited after a step had exited before, or does so in the step. */
  lemma ExitedBack(k: KState, e: Event, z: Pid)
    requires CanRun(k) && ExitStep(k, e, z) && z in Step(k, e).k.tree && Step(k, e).k.tree[z].exited
    ensures z in k.tree
    ensures if k.tree[z].exited then Step(k, e).k.tree[z].status == k.tree[z].status
      else k.sched.ring != [] && EndsWith(k.sched.ring[0], e, z, Step(k, e).k.tree[z].status)
  {
    hide Step, EndsWith;
  }

  /** The status that a parent gets of a child is the one with which the child has exited. */
  lemma ReapedStatus(run: seq<KState>, evs: seq<Event>, root: Pid, tid: nat, n: nat, z: Pid, status: int)
    requires RunBy(run, evs, root, tid) && n < |evs| && CanRun(run[n])
    requires Step(run[n], evs[n]).reply == Dead(z, status) && !run[n + 1].down
    ensures z in run[n].tree && z !in run[n + 1].tree && run[n].sched.ring != []
    ensures run[n].tree[z].parent == run[n].sched.ring[0].pid
    ensures exists m :: 0 <= m < n && DiesAt(run, evs, m, z, status)
  {
    hide Inv, Step, Fits, Boot, DiesAt;
    StepOf(run, evs, root, tid, n);
    StatusStays(run[n], evs[n], z);
    var m := DiedBefore(run, evs, root, tid, n, z);
  }

  // ---------------------------------------------------------------------------
  // Pending signals
  // ---------------------------------------------------------------------------

  /** In step `i` a thread of `p` consumes or clears signal `b`. */
  ghost predicate TakenAt(run: seq<KState>, evs: seq<Event>, i: nat, p: Pid, b: nat)
    requires i < |evs| && |run| == |evs| + 1 && CanRun(run[i])
  {
    run[i].sched.ring != [] && Takes(run[i].sched.ring[0], evs[i], Step(run[i], evs[i]).reply, p, b)
  }

  /** A signal stays pending as long as its process is there and no thread of it takes it. */
  lemma {:induction false} NoSignalLost(
      run: seq<KState>, evs: seq<Event>, root: Pid, tid: nat, n: nat, m: nat, p: Pid, b: nat)
    requires RunBy(run, evs, root, tid) && n <= m <= |evs| && !run[m].down
    requires p in run[n].signals && b in run[n].signals[p].pending
    requires forall i :: n <= i <= m ==> p in run[i].signals
    requires forall i :: n <= i < m ==> CanRun(run[i]) && !TakenAt(run, evs, i, p, b)
    ensures b in run[m].signals[p].pending
    decreases m
  {
    if n < m {
      hide Inv, Step, Fits, Boot, Takes;
      StepOf(run, evs, root, tid, m - 1);
      NoSignalLost(run, evs, root, tid, n, m - 1, p, b);
      PendingStays(run[m - 1], evs[m - 1], p, b);
      assert !TakenAt(run, evs, m - 1, p, b);
    }
  }

  // ---------------------------------------------------------------------------
  // Sleeping
  // ---------------------------------------------------------------------------

  /** The thread sleeps and has `r` ticks to go. */
  ghost predicate Asleep(k: KState, x: Thr, r: int) {
    exists w :: w in Queue(k.sched, SleepQ) && w.thr == x && Remaining(k.now, w.wake) == r
  }

  /** The process is there and has not exited. */
  ghost predicate Alive(k: KState, p: Pid) {
    p in k.tree && !k.tree[p].exited
  }

  /** A thread that goes to sleep has as many ticks to go as it asked for. */
  lemma FallsAsleep(k: KState, x: Thr, ticks: U32)
    requires Inv(k, {})
    ensures Asleep(SleepCall(k, x, ticks), x, ticks)
  {
    hide SchedInv, TreeInv, InsertTimed;
    var w := Waiter(x, {}, Plus(k.now, ticks));
    RemainingUnique(k.now, w.wake, ticks);
    var i := InsertPosition(k.now, Queue(k.sched, SleepQ), w);
    assert Queue(SleepCall(k, x, ticks).sched, SleepQ)[i] == w;
  }

  /** At a tick a sleeper runs if it has at most one to go, and has one less to go otherwise. */
  lemma TickPasses(k: KState, x: Thr, r: int)
    requires Inv(k, {}) && Asleep(k, x, r)
    ensures if r <= 1 then x in TickP(k).sched.ring else Asleep(TickP(k), x, r - 1)
  {
    hide Inv, TickP, Ticked;
    TickWakes(k);
    var n :| Ticked(k, TickP(k), n);
    AfterTick(k, TickP(k), n, x, r);
  }

  lemma AfterTick(k: KState, t: KState, n: nat, x: Thr, r: int)
    requires Ticked(k, t, n) && Asleep(k, x, r)
    ensures if r <= 1 then x in t.sched.ring else Asleep(t, x, r - 1)
  {
    hide Remaining, Advance;
    var l := Queue(k.sched, SleepQ);
    var w :| w in l && w.thr == x && Remaining(k.now, w.wake) == r;
    var i :| 0 <= i < |l| && l[i] == w;
    AdvanceMembers(k.sched.ring + Threads(l[..n]));
    if i < n {
      assert Threads(l[..n])[i] == x;
    } else {
      assert l[n..][i - n] == w;
    }
  }

  /** No call of another thread disturbs a sleeper whose process lives on. */
  lemma SleepsOn(k: KState, e: Event, x: Thr, r: int)
    requires Inv(k, {}) && !k.down && Fits(k, e) && Asleep(k, x, r) && !e.Tick?
    ensures CanRun(k)
    ensures var k' := Step(k, e).k; k'.down || !Alive(k', x.pid) || Asleep(k', x, r)
  {
    HeadRuns(k);
    MainsKnown(k);
    hide Inv, Call, WakeFirst, Remaining;
    var w :| w in Queue(k.sched, SleepQ) && w.thr == x && Remaining(k.now, w.wake) == r;
    if e.WakeAll? {
      InvParts(k, {});
      WakeFirstFacts(k.sched, BasicQ(e.queue), |Queue(k.sched, BasicQ(e.queue))|);
    } else if k.sched.ring != [] {
      CallSleeps(k, k.sched.ring[0], e, w);
    }
  }

  /** The sleeper is still in the queue, by the same clock. */
  ghost predicate StillAsleep(k: KState, k': KState, w: Waiter) {
    k'.now == k.now && (w in Queue(k'.sched, SleepQ) || !Alive(k', w.thr.pid))
  }

  lemma CallSleeps(k: KState, x: Thr, e: Event, w: Waiter)
    requires Calls(k, x, e) && Fits(k, e) && Shaped(k) && w in Queue(k.sched, SleepQ)
    ensures var k' := Call(k, x, e).k; k'.down || StillAsleep(k, k', w)
  {
    hide Inv, TreeInv, SignalP, ExitProcP, ExitedThread, Follows, SleepCall, EnterLast, ReapP, StillAsleep;
    SameQueue(k, k, w);
    match e
    case ExitProcess(status) => ExitSleeps(k, x.pid, status, w);
    case ExitThread(value) =>
      if IsMain(k, x) { ExitSleeps(k, x.pid, value, w); } else { EndSleeps(k, x, w); }
    case AllowSignals(v) => MaskSleeps(k, x.pid, v, w);
    case SignalParent(sid) =>
      if x.pid != k.root && k.tree[x.pid].parent in k.tree { SignalSleeps(k, k.tree[x.pid].parent, sid, w); }
    case Signal(q, sid) => if q in k.tree { SignalSleeps(k, q, sid, w); }
    case Reap(q) => ReapSleeps(k, x.pid, q, w);
    case ReapAny => if k.tree[x.pid].zombies != [] { ReapSleeps(k, x.pid, k.tree[x.pid].zombies[0], w); }
    case WaitSignal(v) =>
      SameQueue(k, SetPending(k, x.pid, k.signals[x.pid].pending - {Lowest(v * k.signals[x.pid].pending, 0)}), w);
      EnterSleeps(k, x, SignalQ(x.pid), v, w);
    case Join(v) =>
      SameQueue(k, k.(sched := DeleteThread(k.sched, Thr(x.pid, Lowest(Joinable(k.sched, x.pid, v), 0)))), w);
      EnterSleeps(k, x, JoinQ(x.pid), v, w);
    case Block(q) => EnterSleeps(k, x, BasicQ(q), {}, w);
    case Sleep(ticks) => OtherSleeps(k, x, ticks, w);
    case Fork(c) => SameQueue(k, Call(k, x, e).k, w);
    case Spawn(t) => SameQueue(k, Call(k, x, e).k, w);
    case ClearSignals(v) => SameQueue(k, Call(k, x, e).k, w);
  }

  lemma SameQueue(k: KState, k': KState, w: Waiter)
    requires w in Queue(k.sched, SleepQ) && Queue(k'.sched, SleepQ) == Queue(k.sched, SleepQ) && k'.now == k.now
    ensures StillAsleep(k, k', w)
  {
  }

  lemma FollowSleeps(k: KState, k': KState, news: set<(Pid, nat)>, ends: set<(Pid, int)>, w: Waiter)
    requires Follows(k, k', news, ends, {}) && w in Queue(k.sched, SleepQ)
    ensures StillAsleep(k, k', w)
  {
    hide SignalsFollow, ExitsFollow;
    assert w in Queue(k'.sched, SleepQ) || Leaves(k'.tree, {}, w.thr.pid);
  }

  lemma ExitSleeps(k: KState, p: Pid, status: int, w: Waiter)
    requires Shaped(k) && p in k.tree && w in Queue(k.sched, SleepQ)
    ensures var r := ExitProcP(k, p, status); r.ok && !r.k.down ==> StillAsleep(k, r.k, w)
  {
    hide Shaped, ExitProcP, Follows, StillAsleep;
    ExitFollows(k, p, status);
    var r := ExitProcP(k, p, status);
    if r.ok && !r.k.down { FollowSleeps(k, r.k, {}, {(p, status)}, w); }
  }

  lemma SignalSleeps(k: KState, p: Pid, sid: nat, w: Waiter)
    requires Shaped(k) && p in k.tree && w in Queue(k.sched, SleepQ)
    ensures var r := SignalP(k, p, sid); r.ok && !r.k.down ==> StillAsleep(k, r.k, w)
  {
    hide Shaped, SignalP, Follows, StillAsleep;
    SignalFollows(k, p, sid);
    var r := SignalP(k, p, sid);
    if r.ok && !r.k.down { FollowSleeps(k, r.k, {(p, sid)}, {}, w); }
  }

  lemma MaskSleeps(k: KState, p: Pid, v: set<nat>, w: Waiter)
    requires Inv(k, {}) && p in k.tree && Shaped(k) && w in Queue(k.sched, SleepQ)
    ensures var r := AllowCall(k, p, v); r.k.down || StillAsleep(k, r.k, w)
  {
    hide Inv, TreeInv, ExitProcP;
    AllowStart(k, p, v);
    ExitSleeps(k.(signals := k.signals[p := k.signals[p].(allowed := v)]), p, PROC_ES_SIGNAL, w);
  }

  lemma EndSleeps(k: KState, x: Thr, w: Waiter)
    requires x in k.sched.threads && w in Queue(k.sched, SleepQ)
    ensures StillAsleep(k, k.(sched := ExitedThread(k.sched, x)), w)
  {
  }

  lemma ReapSleeps(k: KState, p: Pid, q: Pid, w: Waiter)
    requires p in k.tree && w in Queue(k.sched, SleepQ)
    ensures StillAsleep(k, ReapCall(k, p, q).k, w)
  {
  }

  lemma EnterSleeps(k: KState, x: Thr, q: QName, mask: set<nat>, w: Waiter)
    requires q != SleepQ && w in Queue(k.sched, SleepQ)
    ensures StillAsleep(k, EnterLast(k, x, q, mask), w)
  {
  }

  lemma OtherSleeps(k: KState, x: Thr, ticks: U32, w: Waiter)
    requires Inv(k, {}) && w in Queue(k.sched, SleepQ)
    ensures StillAsleep(k, SleepCall(k, x, ticks), w)
  {
    hide SchedInv, TreeInv, InsertTimed;
    var l, v := Queue(k.sched, SleepQ), Waiter(x, {}, Plus(k.now, ticks));
    var i := InsertPosition(k.now, l, v);
    assert l == l[..i] + l[i..];
    assert Queue(SleepCall(k, x, ticks).sched, SleepQ) == l[..i] + [v] + l[i..];
  }

  /** The ticks from event `n` up to event `m`. */
  function Ticks(evs: seq<Event>, n: nat, m: nat): nat
    requires m <= |evs|
  {
    if m <= n then 0 else Ticks(evs, n, m - 1) + if evs[m - 1].Tick? then 1 else 0
  }

  /**
    A thread that sleeps for `ticks` ticks, while its process lives, sleeps as long as less have passed, and runs at
    the tick that makes them full; none at all count as one.
   */
  lemma {:induction false} SleepsExactly(
      run: seq<KState>, evs: seq<Event>, root: Pid, tid: nat, n: nat, ticks: U32, m: nat, x: Thr)
    requires RunBy(run, evs, root, tid) && n < m <= |evs| && evs[n] == Sleep(ticks)
    requires run[n].sched.ring != [] && run[n].sched.ring[0] == x
    requires forall i :: n < i <= m ==> !run[i].down && Alive(run[i], x.pid)
    requires Ticks(evs, n + 1, m - 1) < (if ticks == 0 then 1 else ticks)
    ensures if Ticks(evs, n + 1, m) < (if ticks == 0 then 1 else ticks) then
        Asleep(run[m], x, ticks - Ticks(evs, n + 1, m))
      else x in run[m].sched.ring
    decreases m
  {
    hide Inv, Fits, Step, RunBy, SleepCall, TickP, Asleep, Alive;
    LengthOf(run, evs, root, tid);
    StepOf(run, evs, root, tid, m - 1);
    if m - 1 == n {
      FallsAsleep(run[n], x, ticks);
      GoesToSleep(run[n], x, ticks);
    } else {
      SleepsExactly(run, evs, root, tid, n, ticks, m - 1, x);
      OneMoreEvent(run, evs, root, tid, m, x, ticks - Ticks(evs, n + 1, m - 1));
    }
  }

  lemma OneMoreEvent(run: seq<KState>, evs: seq<Event>, root: Pid, tid: nat, m: nat, x: Thr, r: int)
    requires RunBy(run, evs, root, tid) && 0 < m <= |evs| < |run| && !run[m].down && Alive(run[m], x.pid)
    requires Asleep(run[m - 1], x, r)
    ensures if !evs[m - 1].Tick? then Asleep(run[m], x, r)
      else if r <= 1 then x in run[m].sched.ring else Asleep(run[m], x, r - 1)
  {
    hide Inv, Fits, RunBy, Call, TickP, Asleep, Alive, WakeFirst;
    StepOf(run, evs, root, tid, m - 1);
    if evs[m - 1].Tick? {
      TickPasses(run[m - 1], x, r);
    } else {
      SleepsOn(run[m - 1], evs[m - 1], x, r);
    }
  }

  // ---------------------------------------------------------------------------
  // Turns
  // ---------------------------------------------------------------------------

  /** The ring after `n` ticks that wake nobody. */
  function Turned(ring: seq<Thr>, n: nat): seq<Thr>
    decreases n
  {
    if n == 0 then ring else Advance(Turned(ring, n - 1))
  }

  /** Everybody in the ring has a turn: the `n`-th thread is at its head after `n` ticks, and all return in order. */
  lemma {:induction false} TurnsComeRound(ring: seq<Thr>, n: nat)
    requires n <= |ring|
    ensures Turned(ring, n) == ring[n..] + ring[..n]
    decreases n
  {
    if n > 0 {
      TurnsComeRound(ring, n - 1);
      assert ring[n - 1..] == [ring[n - 1]] + ring[n..] && ring[..n] == ring[..n - 1] + [ring[n - 1]];
    }
  }

  lemma GoesToSleep(k: KState, x: Thr, ticks: U32)
    requires CanRun(k) && k.sched.ring != [] && k.sched.ring[0] == x
    ensures Step(k, Sleep(ticks)).k == SleepCall(k, x, ticks)
  {
  }
}
