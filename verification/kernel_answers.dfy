/**
  What a thread gets for each of its calls.
 */
module KernelAnswers {
  import opened ProcessTree
  import opened Scheduling
  import opened KernelModel
  import opened KernelKeeps
  import opened KernelCalls
  import opened KernelRuns
  import opened KernelSignals
  import opened KernelJoins
  import opened KernelEvents
  import opened KernelHistories

  /** The caller sleeps last in queue `q` and nothing else changes. */
  ghost predicate Waits(k: KState, r: After, x: Thr, q: QName, mask: set<nat>) {
    var s, t := k.sched, r.k.sched;
    && r.reply == NoReply && r.k == k.(sched := t) && t.threads == s.threads[x := Waiting(q)] && x !in t.ring
    && Queue(t, q) == Queue(s, q) + [Waiter(x, mask, 0)] && forall p :: p != q ==> Queue(t, p) == Queue(s, p)
  }

  ghost predicate Ended(k: KState, p: Pid, status: int) {
    p in k.tree && k.tree[p].exited && k.tree[p].status == status
  }

  /** The signal is pending already, or becomes so, or wakes the first that waits for it, or ends the process. */
  ghost predicate Reached(k: KState, k': KState, q: Pid, sid: nat) {
    && q in k.signals && sid < NUM_SIGNALS
    && if sid in k.signals[q].pending then k' == k
       else if sid !in k.signals[q].allowed then q in k'.tree && k'.tree[q].exited
       else Delivered(k, k', q, sid)
  }

  ghost predicate Delivered(k: KState, k': KState, q: Pid, sid: nat)
    requires q in k.signals
  {
    var l := Queue(k.sched, SignalQ(q));
    && k' == k.(signals := k'.signals, sched := k'.sched)
    && if forall w :: w in l ==> sid !in w.mask then
         k'.sched == k.sched
         && k'.signals == k.signals[q := Signals(k.signals[q].pending + {sid}, k.signals[q].allowed)]
       else
         k'.signals == k.signals && exists i :: FirstFor(l, sid, i) && Woken(k.sched, k'.sched, SignalQ(q), i)
  }

  ghost predicate SentTo(k: KState, r: After, x: Thr, target: Option<Pid>, sid: nat) {
    if target == None || target.value !in k.tree then r == After(k, Mismatch)
    else Reached(k, r.k, target.value, sid) && r.reply == if Alive(r.k, x.pid) then Success else NoReply
  }

  /** The lowest of the wanted threads that have exited is joined and gone. */
  ghost predicate Joins(k: KState, r: After, x: Thr, v: set<nat>) {
    && r.reply.Joined? && r.reply.tid in v && ExitedIn(k, Thr(x.pid, r.reply.tid))
    && (forall t :: 0 <= t < r.reply.tid && t in v ==> !ExitedIn(k, Thr(x.pid, t)))
    && r.k == k.(sched := k.sched.(threads := k.sched.threads - {Thr(x.pid, r.reply.tid)}))
  }

  /** What the call `e` of thread `x` does and answers, as long as the system stays up. */
  ghost predicate Serves(k: KState, x: Thr, e: Event, r: After)
    requires x.pid in k.tree && x.pid in k.signals
  {
    var p := x.pid;
    match e
    case Fork(None) => r == After(k, NoMem)
    case Fork(Some(c)) => r.reply == Reply.Forked(c) && IsChild(k, r.k, x, c)
    case ExitProcess(status) => r.reply == NoReply && Ended(r.k, p, status)
    case ReapAny =>
      if k.tree[p].zombies == [] then r == After(k, Empty)
      else r.reply.Dead? && r.reply.pid == k.tree[p].zombies[0] && r.reply.pid !in r.k.tree
    case Reap(z) =>
      if z in k.tree[p].zombies then r.reply.Dead? && r.reply.pid == z && z !in r.k.tree
      else r == After(k, if z in k.tree[p].children then Empty else Mismatch)
    case SignalParent(sid) => SentTo(k, r, x, if p == k.root then None else Some(k.tree[p].parent), sid)
    case Signal(q, sid) => SentTo(k, r, x, Some(q), sid)
    case AllowSignals(v) =>
      if k.signals[p].pending <= v then r.reply == OldMask(k.signals[p].allowed)
      else r.reply == NoReply && Ended(r.k, p, PROC_ES_SIGNAL)
    case WaitSignal(v) =>
      if v == {} then r == After(k, BadArgs)
      else if v !! k.signals[p].pending then Waits(k, r, x, SignalQ(p), v) else r.reply.Signalled?
    case ClearSignals(v) =>
      r == After(k.(signals := k.signals[p := Signals(k.signals[p].pending - v, k.signals[p].allowed)]), NoReply)
    case Sleep(ticks) => r.reply == NoReply && Asleep(r.k, x, ticks) && x !in r.k.sched.ring
    case Spawn(None) => r == After(k, Unknown)
    case Spawn(Some(t)) => r.reply == Spawned(t) && Starts(k, r.k, Thr(p, t))
    case ExitThread(value) => r.reply == NoReply && if IsMain(k, x) then Ended(r.k, p, value) else x !in r.k.sched.ring
    case Join(v) =>
      if v == {} || v == {x.tid} then r == After(k, BadArgs)
      else if forall t :: t in v ==> !ExitedIn(k, Thr(p, t)) then Waits(k, r, x, JoinQ(p), v)
      else Joins(k, r, x, v)
    case Block(q) => Waits(k, r, x, BasicQ(q), {})
    case _ => true
  }

  /** Every call of the running thread is served, or takes the system down. */
  lemma Served(k: KState, e: Event)
    requires Inv(k, {}) && !k.down && Fits(k, e) && !e.Tick? && !e.WakeAll? && k.sched.ring != []
    ensures CanRun(k) && k.sched.ring[0].pid in k.tree && k.sched.ring[0].pid in k.signals
    ensures Step(k, e).k.down || Serves(k, k.sched.ring[0], e, Step(k, e))
  {
    HeadRuns(k);
    MainsKnown(k);
    hide Inv, Call, Serves;
    CallServed(k, k.sched.ring[0], e);
  }

  lemma CallServed(k: KState, x: Thr, e: Event)
    requires Calls(k, x, e) && Fits(k, e) && Shaped(k)
    ensures x.pid in k.signals && (Call(k, x, e).k.down || Serves(k, x, e, Call(k, x, e)))
  {
    hide Inv, TreeInv, Call, SchedInv, Waits, Joins, SentTo, Asleep, IsChild, Ended, ExitedIn, IsMain;
    match e
    case Fork(c) => ForkServed(k, x, c);
    case ExitProcess(status) => EndServed(k, x, e, status);
    case ReapAny => ReapServed(k, x, e);
    case Reap(z) => ReapServed(k, x, e);
    case SignalParent(sid) => SignalServed(k, x, e);
    case Signal(q, sid) => SignalServed(k, x, e);
    case AllowSignals(v) => MaskServed(k, x, v);
    case WaitSignal(v) => WaitServed(k, x, v);
    case ClearSignals(v) => ClearServed(k, x, v);
    case Sleep(ticks) => SleepServed(k, x, ticks);
    case Spawn(t) => SpawnServed(k, x, t);
    case ExitThread(value) =>
      if IsMain(k, x) { EndServed(k, x, e, value); } else { ThreadServed(k, x, value); }
    case Join(v) => JoinServed(k, x, v);
    case Block(q) => EnterServed(k, x, BasicQ(q), {}); BlockServed(k, x, q);
  }

  lemma ForkServed(k: KState, x: Thr, c: Option<Pid>)
    requires Calls(k, x, Fork(c)) && Fits(k, Fork(c)) && Shaped(k)
    ensures x.pid in k.signals && Serves(k, x, Fork(c), Call(k, x, Fork(c)))
  {
    hide Inv, TreeInv, IsChild, ForkP;
    if c.Some? { ForkedChild(k, x, c.value); }
  }

  lemma EndServed(k: KState, x: Thr, e: Event, status: int)
    requires Calls(k, x, e) && Shaped(k) && (e == ExitProcess(status) || (e == ExitThread(status) && IsMain(k, x)))
    ensures x.pid in k.signals && (Call(k, x, e).k.down || Serves(k, x, e, Call(k, x, e)))
  {
    hide Inv, TreeInv, ExitProcP, Follows, ExitedThread;
    ExitFollows(k, x.pid, status);
  }

  lemma ReapServed(k: KState, x: Thr, e: Event)
    requires Calls(k, x, e) && (e.Reap? || e.ReapAny?) && Shaped(k)
    ensures x.pid in k.signals && Serves(k, x, e, Call(k, x, e))
  {
    hide Inv, SchedInv, Ranked;
    var p := x.pid;
    assert ListsSound(k.tree, k.root, p);
    if e.Reap? {
      if e.pid in k.tree && e.pid != k.root { assert Placed(k.tree, e.pid); }
    } else if k.tree[p].zombies != [] {
      assert k.tree[p].zombies[0] in k.tree[p].zombies && Placed(k.tree, k.tree[p].zombies[0]);
    }
  }

  lemma SignalServed(k: KState, x: Thr, e: Event)
    requires Calls(k, x, e) && (e.Signal? || e.SignalParent?) && Shaped(k)
    ensures x.pid in k.signals && (Call(k, x, e).k.down || Serves(k, x, e, Call(k, x, e)))
  {
    hide Inv, TreeInv, SignalP, Reached, Alive;
    var q := if e.Signal? then e.pid else k.tree[x.pid].parent;
    if q in k.tree {
      SignalReaches(k, q, e.sid);
      CallerAfter(k, SignalP(k, q, e.sid).k, x.pid);
    }
  }

  lemma CallerAfter(k: KState, k': KState, p: Pid)
    requires p in k.tree && Onward(k.tree, k'.tree)
    ensures Alive(k', p) <==> !k'.tree[p].exited
  {
  }

  lemma SignalReaches(k: KState, q: Pid, sid: nat)
    requires Shaped(k) && q in k.tree
    ensures var o := SignalP(k, q, sid); o.ok && !o.k.down ==> Reached(k, o.k, q, sid)
  {
    hide TreeInv, ExitProcP, NotifySignal, Delivered, Follows;
    if sid < NUM_SIGNALS && sid !in k.signals[q].pending {
      if sid in k.signals[q].allowed {
        IsDelivered(k, q, sid);
      } else {
        ExitFollows(SetPending(k, q, k.signals[q].pending + {sid}), q, PROC_ES_SIGNAL);
      }
    }
  }

  lemma IsDelivered(k: KState, q: Pid, sid: nat)
    requires Shaped(k) && q in k.tree && sid < NUM_SIGNALS
    requires sid !in k.signals[q].pending && sid in k.signals[q].allowed
    ensures Delivered(k, SignalP(k, q, sid).k, q, sid)
  {
    hide TreeInv, SignalP, Woken;
    SignalDelivered(k, q, sid);
  }

  lemma MaskServed(k: KState, x: Thr, v: Bits)
    requires Calls(k, x, AllowSignals(v)) && Shaped(k)
    ensures var r := Call(k, x, AllowSignals(v));
      x.pid in k.signals && (r.k.down || Serves(k, x, AllowSignals(v), r))
  {
    hide Inv, TreeInv, ExitProcP, Follows;
    AllowStart(k, x.pid, v);
    ExitFollows(k.(signals := k.signals[x.pid := k.signals[x.pid].(allowed := v)]), x.pid, PROC_ES_SIGNAL);
  }

  lemma EnterServed(k: KState, x: Thr, q: QName, mask: set<nat>)
    ensures Waits(k, After(EnterLast(k, x, q, mask), NoReply), x, q, mask)
  {
    WithoutThrFacts(k.sched.ring, {x});
  }

  lemma WaitServed(k: KState, x: Thr, v: Bits)
    requires Calls(k, x, WaitSignal(v)) && Shaped(k)
    ensures x.pid in k.signals && Serves(k, x, WaitSignal(v), Call(k, x, WaitSignal(v)))
  {
    hide Inv, TreeInv, EnterLast, Waits;
    var m := v * k.signals[x.pid].pending;
    EnterServed(k, x, SignalQ(x.pid), v);
    if Lowest(m, 0) < 32 {
      assert Lowest(m, 0) in m;
    } else {
      forall b | b in v
        ensures b !in k.signals[x.pid].pending
      {
        assert b < Lowest(m, 0) && b !in m;
      }
    }
  }

  lemma ClearServed(k: KState, x: Thr, v: Bits)
    requires Calls(k, x, ClearSignals(v)) && Shaped(k)
    ensures x.pid in k.signals && Serves(k, x, ClearSignals(v), Call(k, x, ClearSignals(v)))
  {
    hide Inv, TreeInv;
  }

  lemma SleepServed(k: KState, x: Thr, ticks: U32)
    requires Calls(k, x, Sleep(ticks)) && Shaped(k)
    ensures x.pid in k.signals && Serves(k, x, Sleep(ticks), Call(k, x, Sleep(ticks)))
  {
    hide Inv, TreeInv, Asleep;
    FallsAsleep(k, x, ticks);
    WithoutThrFacts(k.sched.ring, {x});
  }

  lemma SpawnServed(k: KState, x: Thr, t: Option<nat>)
    requires Calls(k, x, Spawn(t)) && Fits(k, Spawn(t)) && Shaped(k)
    ensures x.pid in k.signals && Serves(k, x, Spawn(t), Call(k, x, Spawn(t)))
  {
    hide Inv, TreeInv;
  }

  lemma ThreadServed(k: KState, x: Thr, value: int)
    requires Calls(k, x, ExitThread(value)) && Shaped(k) && !IsMain(k, x)
    ensures x.pid in k.signals && Serves(k, x, ExitThread(value), Call(k, x, ExitThread(value)))
  {
    OthersWait(k, x);
    hide Inv, TreeInv, ExitedThread;
    NotInRing(k, x);
  }

  /** Nobody waits to join a thread that is itself. */
  lemma OthersWait(k: KState, x: Thr)
    requires Inv(k, {}) && x in k.sched.threads && k.sched.threads[x] == Scheduled
    ensures forall w :: w in Queue(k.sched, JoinQ(x.pid)) ==> w.thr != x
  {
    hide TreeInv;
    forall w | w in Queue(k.sched, JoinQ(x.pid))
      ensures w.thr != x
    {
      var l := Queue(k.sched, JoinQ(x.pid));
      var i :| 0 <= i < |l| && l[i] == w;
      assert InQueue(l, w.thr) && PlaceOk(k.sched, w.thr);
    }
  }

  lemma NotInRing(k: KState, x: Thr)
    requires x in k.sched.threads && forall w :: w in Queue(k.sched, JoinQ(x.pid)) ==> w.thr != x
    ensures x !in ExitedThread(k.sched, x).ring
  {
    WithoutThrFacts(k.sched.ring, {x});
    var l := Queue(k.sched, JoinQ(x.pid));
    var i := FirstMatch(l, x.tid);
    if i < |l| { assert l[i] in l; }
  }

  lemma JoinServed(k: KState, x: Thr, v: Bits)
    requires Calls(k, x, Join(v)) && Shaped(k)
    ensures x.pid in k.signals && Serves(k, x, Join(v), Call(k, x, Join(v)))
  {
    hide Inv, TreeInv, EnterLast, Waits;
    var m := Joinable(k.sched, x.pid, v);
    EnterServed(k, x, JoinQ(x.pid), v);
    assert forall t :: t in m <==> t in v && ExitedIn(k, Thr(x.pid, t));
    if Lowest(m, 0) < 32 {
      assert Lowest(m, 0) in m;
    } else {
      forall t | t in v
        ensures !ExitedIn(k, Thr(x.pid, t))
      {
        assert t < Lowest(m, 0);
      }
    }
  }

  lemma BlockServed(k: KState, x: Thr, q: nat)
    requires Calls(k, x, Block(q)) && Shaped(k)
    requires Waits(k, After(EnterLast(k, x, BasicQ(q), {}), NoReply), x, BasicQ(q), {})
    ensures x.pid in k.signals && Serves(k, x, Block(q), Call(k, x, Block(q)))
  {
    hide Inv, TreeInv, EnterLast, Waits;
  }
}
