/**
  What becomes of exited threads: each is handed to one joiner at most, whatever else happens.
 */
module KernelJoins {
  import opened ProcessTree
  import opened Scheduling
  import opened TimedQueue
  import opened KernelModel
  import opened KernelKeeps
  import opened KernelCalls
  import opened KernelSpares
  import opened KernelRuns

  ghost predicate ExitedIn(k: KState, x: Thr) {
    x in k.sched.threads && k.sched.threads[x] == Exited
  }

  /** The same threads have exited and wait to be joined. */
  ghost predicate SameExited(k: KState, k': KState) {
    forall x {:trigger ExitedIn(k', x)} {:trigger ExitedIn(k, x)} :: ExitedIn(k', x) <==> ExitedIn(k, x)
  }

  /** And there are the same threads. */
  ghost predicate Kept(k: KState, k': KState) {
    SameExited(k, k') && k'.sched.threads.Keys == k.sched.threads.Keys
  }

  lemma SameTwice(a: KState, b: KState, c: KState)
    requires Kept(a, b) && Kept(b, c)
    ensures Kept(a, c)
  {
    forall x
      ensures ExitedIn(c, x) <==> ExitedIn(a, x)
    {
      assert ExitedIn(b, x) <==> ExitedIn(a, x);
    }
  }

  lemma KeptMeans(k: KState, k': KState)
    requires Kept(k, k')
    ensures SameExited(k, k') && k'.sched.threads.Keys == k.sched.threads.Keys
  {
  }

  // ---------------------------------------------------------------------------
  // Signals and exits
  // ---------------------------------------------------------------------------

  lemma NotifySame(k: KState, p: Pid, sid: nat)
    requires Shaped(k) && SchedInv(k.sched) && p in k.tree
    ensures Kept(k, NotifySignal(k, p, sid))
  {
    hide SchedInv, TreeInv;
    var l := Queue(k.sched, SignalQ(p));
    var i := FirstMatch(l, sid);
    if i < |l| {
      WakeKeeps(k.sched, SignalQ(p), i);
    }
  }

  lemma DisownedSame(k: KState, p: Pid)
    requires k.root in k.tree && p in k.tree
    ensures Kept(k, Disowned(k, p))
  {
  }

  lemma {:induction false} SignalSame(k: KState, p: Pid, sid: nat, doomed: set<Pid>)
    requires Inv(k, doomed) && p in k.tree && !k.tree[p].exited && sid < NUM_SIGNALS
    requires k.root !in doomed && (p == k.root || doomed == {})
    ensures Kept(k, SignalP(k, p, sid).k)
    decreases |Live(k.tree)|, if p == k.root then 0 else 1, 1
  {
    hide TreeInv, SchedInv, NotifySignal, Live;
    InvParts(k, doomed);
    if sid !in k.signals[p].pending {
      var k1 := SetPending(k, p, k.signals[p].pending + {sid});
      assert Kept(k, k1);
      if sid in k.signals[p].allowed {
        NotifySame(k1, p, sid);
        SameTwice(k, k1, NotifySignal(k1, p, sid));
      } else {
        SetPendingKeepsFor(k, p, sid, doomed);
        ExitSame(k1, p, PROC_ES_SIGNAL);
        SameTwice(k, k1, ExitProcP(k1, p, PROC_ES_SIGNAL).k);
      }
    }
  }

  lemma {:induction false} ExitSame(k: KState, p: Pid, status: int)
    requires Shaped(k) && (p == k.root || Inv(k, {p})) && p in k.tree && !k.tree[p].exited
    ensures Kept(k, ExitProcP(k, p, status).k)
    decreases |Live(k.tree)|, if p == k.root then 0 else 1, 0
  {
    hide Inv, Shaped, Kept, Stopped, QueuesOwn, SchedInv, SignalP, BuryP, Live, DetachAll, Adopted;
    if p == k.root {
      RootExitSame(k, status);
    } else {
      InvParts(k, {p});
      DisownedShaped(k, p);
      DisownedKeeps(k, p, {p});
      DisownedSame(k, p);
      var k1 := Disowned(k, p);
      var o := Outcome(k1, true);
      if k.tree[p].zombies != [] {
        o := SignalP(k1, k.root, FSIG_CHLD);
        InvParts(k1, {p});
        SignalRootLeavesStopped(k1, p);
        SignalKeeps(k1, k.root, FSIG_CHLD, {p});
        SignalSame(k1, k1.root, FSIG_CHLD, {p});
        SameTwice(k, k1, o.k);
      }
      if !o.k.down {
        BurySame(o.k, p, status);
        SameTwice(k, o.k, BuryP(o.k, p, status).k);
      }
    }
  }

  lemma RootExitSame(k: KState, status: int)
    requires Shaped(k) && k.root in k.tree
    ensures Kept(k, ExitProcP(k, k.root, status).k)
  {
    assert ExitProcP(k, k.root, status).k == k.(down := true);
  }

  lemma {:induction false} BurySame(k: KState, p: Pid, status: int)
    requires Inv(k, {p}) && p in k.tree && p != k.root && !k.tree[p].exited && Stopped(k, p)
    requires k.tree[p].children == [] && k.tree[p].zombies == []
    ensures Kept(k, BuryP(k, p, status).k)
    decreases |Live(k.tree)|, 0, 0
  {
    hide SchedInv, TreeInv;
    ListedIffLive(k, p);
    BuriedShaped(k, p, status);
    BuryKeepsInv(k, p, status);
    var q := k.tree[p].parent;
    assert Kept(k, BuriedK(k, p, status));
    SignalSame(BuriedK(k, p, status), q, FSIG_CHLD, {});
    SameTwice(k, BuriedK(k, p, status), SignalP(BuriedK(k, p, status), q, FSIG_CHLD).k);
  }

  // ---------------------------------------------------------------------------
  // One thread
  // ---------------------------------------------------------------------------

  /** The thread `x` is taken by the waiter at position `i`, the first that waits for it. */
  ghost predicate GoesTo(s: Sched, t: Sched, x: Thr, i: nat) {
    var l := Queue(s, JoinQ(x.pid));
    && i < |l| && x.tid in l[i].mask && (forall j :: 0 <= j < i ==> x.tid !in l[j].mask) && l[i].thr != x
    && Queue(t, JoinQ(x.pid)) == l[..i] + l[i + 1..] && t.ring == WithoutThr(s.ring, {x}) + [l[i].thr]
  }

  /**
    An exiting thread goes to the first thread that waits for it, which runs again while all others wait on, and is
    gone; when nobody waits for it, it stays until it is joined.
   */
  lemma HandedToOne(k: KState, x: Thr)
    requires Inv(k, {}) && x in k.sched.threads && k.sched.threads[x] == Scheduled
    ensures var l, t := Queue(k.sched, JoinQ(x.pid)), ExitedThread(k.sched, x);
      if forall w :: w in l ==> x.tid !in w.mask then
        Queue(t, JoinQ(x.pid)) == l && x in t.threads && t.threads[x] == Exited && x !in t.ring
      else
        && x !in t.threads
        && exists i :: 0 <= i < |l| && GoesTo(k.sched, t, x, i)
    ensures forall y :: y in k.sched.threads && y != x && k.sched.threads[y] == Exited ==>
      y in ExitedThread(k.sched, x).threads && ExitedThread(k.sched, x).threads[y] == Exited
    ensures var t := ExitedThread(k.sched, x).threads;
      forall y :: y != x && y in t && t[y] == Exited ==> y in k.sched.threads && k.sched.threads[y] == Exited
  {
    hide TreeInv, SchedInv;
    var q := JoinQ(x.pid);
    var l := Queue(k.sched, q);
    var i := FirstMatch(l, x.tid);
    WithoutThrFacts(k.sched.ring, {x});
    if i < |l| {
      WakeKeeps(k.sched, q, i);
      assert l[i] in l;
      var s1 := DeleteThread(k.sched.(ring := WithoutThr(k.sched.ring, {x})), x);
      assert Queue(s1, q) == l && ExitedThread(k.sched, x) == WakeAt(s1, q, i);
      assert GoesTo(k.sched, ExitedThread(k.sched, x), x, i);
    }
  }

  /** A thread is joined: the caller's join finds it, or its own exit finds one that waits. */
  ghost predicate Delivers(k: KState, e: Event, x: Thr)
    requires CanRun(k)
  {
    && k.sched.ring != []
    && if k.sched.ring[0] == x then e.ExitThread? && x !in Step(k, e).k.sched.threads
       else e.Join? && Step(k, e).reply == Joined(x.tid) && k.sched.ring[0].pid == x.pid
  }

  ghost predicate Exits(k: KState, e: Event, x: Thr) {
    k.sched.ring != [] && k.sched.ring[0] == x && e.ExitThread?
  }

  ghost predicate Reaps(k: KState, e: Event, x: Thr)
    requires CanRun(k)
  {
    Step(k, e).reply.Dead? && Step(k, e).reply.pid == x.pid
  }

  /**
    An exited thread stays until it is joined or its process is reaped, is gone once it is joined, and is only
    joined when it has exited.
   */
  lemma ExitedStays(k: KState, e: Event, x: Thr)
    requires Inv(k, {}) && !k.down && Fits(k, e)
    ensures CanRun(k)
    ensures Step(k, e).k.down || ExitedStep(k, e, x)
  {
    HeadRuns(k);
    hide Inv, TickP, WakeFirst, SameExited, Call;
    if e.Tick? {
      TickSame(k);
      SameAt(k, TickP(k), x);
    } else if e.WakeAll? {
      WakeSame(k, BasicQ(e.queue), |Queue(k.sched, BasicQ(e.queue))|);
      SameAt(k, Step(k, e).k, x);
    } else if k.sched.ring != [] {
      CallExited(k, k.sched.ring[0], e, x);
    }
  }

  lemma TickSame(k: KState)
    requires Inv(k, {})
    ensures Kept(k, TickP(k))
  {
    hide Inv, Remaining, Plus, WakeFirst, Due;
    WakeSame(k, SleepQ, Due(k.now, Queue(k.sched, SleepQ), Remaining(k.now, Plus(k.now, 1))));
  }

  lemma {:induction false} WakeSame(k: KState, q: QName, n: nat)
    requires Inv(k, {}) && n <= |Queue(k.sched, q)|
    ensures Kept(k, k.(sched := WakeFirst(k.sched, q, n)))
    decreases n
  {
    if n > 0 {
      WakeOneSame(k, q);
      WakeInv(k, q, 0);
      hide Inv, Kept;
      var k1 := k.(sched := WakeAt(k.sched, q, 0));
      WakeSame(k1, q, n - 1);
      SameTwice(k, k1, k1.(sched := WakeFirst(k1.sched, q, n - 1)));
    }
  }

  lemma WakeOneSame(k: KState, q: QName)
    requires Inv(k, {}) && Queue(k.sched, q) != []
    ensures Kept(k, k.(sched := WakeAt(k.sched, q, 0)))
    ensures |Queue(WakeAt(k.sched, q, 0), q)| == |Queue(k.sched, q)| - 1
  {
    hide TreeInv, SchedInv;
    WakeKeeps(k.sched, q, 0);
  }

  /** Signalling any process, dead or alive. */
  lemma SignalAnySame(k: KState, p: Pid, sid: nat)
    requires Inv(k, {}) && p in k.tree && !k.down
    ensures SignalP(k, p, sid).ok ==> Kept(k, SignalP(k, p, sid).k)
  {
    hide TreeInv, SchedInv, Live, NotifySignal, Kept;
    InvParts(k, {});
    if sid < NUM_SIGNALS {
      if !k.tree[p].exited {
        SignalSame(k, p, sid, {});
      } else if sid in k.signals[p].pending {
        Unchanged(k);
      } else {
        var k1 := SetPending(k, p, k.signals[p].pending + {sid});
        NotifySame(k1, p, sid);
        PendingSame(k, p, k1.signals[p].pending);
        SameTwice(k, k1, NotifySignal(k1, p, sid));
        if sid !in k.signals[p].allowed { ExitZombie(k1, p, PROC_ES_SIGNAL); }
      }
    }
  }

  lemma Unchanged(k: KState)
    ensures Kept(k, k)
  {
  }

  lemma PendingSame(k: KState, p: Pid, pending: set<nat>)
    requires p in k.signals
    ensures Kept(k, SetPending(k, p, pending))
  {
  }

  lemma AllowSame(k: KState, p: Pid, v: set<nat>)
    requires Inv(k, {}) && p in k.tree && !k.tree[p].exited
    ensures Kept(k, AllowCall(k, p, v).k)
  {
    hide TreeInv, SchedInv, Live, ExitProcP;
    var k1 := k.(signals := k.signals[p := k.signals[p].(allowed := v)]);
    assert Kept(k, k1);
    if !(k.signals[p].pending <= v) {
      AllowStart(k, p, v);
      ExitSame(k1, p, PROC_ES_SIGNAL);
      SameTwice(k, k1, ExitProcP(k1, p, PROC_ES_SIGNAL).k);
    }
  }

  lemma AllowStart(k: KState, p: Pid, v: set<nat>)
    requires Inv(k, {}) && p in k.tree
    ensures var k1 := k.(signals := k.signals[p := k.signals[p].(allowed := v)]); Shaped(k1) && Inv(k1, {p})
  {
    var k1 := k.(signals := k.signals[p := k.signals[p].(allowed := v)]);
    hide TreeInv, SchedInv, Sorted;
    forall y
      ensures OwnerOk(k1, y)
    {
      assert OwnerOk(k, y);
    }
    forall q
      ensures ProcOk(k1, q) && (q != p ==> SignalsOk(k1, q))
    {
      assert ProcOk(k, q) && SignalsOk(k, q);
      assert MainOk(k1, q) && QueuesOwn(k1, q) && JoinsOk(k1, q);
    }
  }

  lemma EnterSame(k: KState, x: Thr, q: QName, l: seq<Waiter>)
    requires x in k.sched.threads && k.sched.threads[x] == Scheduled
    ensures Kept(k, k.(sched := Enter(k.sched, x, q, l)))
  {
  }

  lemma ForkSame(k: KState, x: Thr, c: Pid)
    requires Inv(k, {}) && x.pid in k.tree && c !in k.tree
    ensures SameExited(k, ForkP(k, x, c))
  {
    hide TreeInv, SchedInv;
    assert OwnerOk(k, Thr(c, x.tid));
  }

  lemma SpawnSame(k: KState, p: Pid, t: nat)
    requires Thr(p, t) !in k.sched.threads
    ensures SameExited(k, SpawnP(k, p, t))
  {
  }

  /** Calls that neither reap nor join nor end a thread. */
  lemma CallSame(k: KState, x: Thr, e: Event)
    requires Inv(k, {}) && !k.down && Fits(k, e) && !e.Tick? && !e.WakeAll? && !e.ExitThread? && !e.Join? && !e.Reap?
    requires !e.ReapAny?
    requires k.sched.ring != [] && x == k.sched.ring[0] && x in k.sched.threads && x.pid in k.tree && Shaped(k)
    ensures var r := Call(k, x, e); r.k.down || SameExited(k, r.k)
    ensures !Call(k, x, e).reply.Dead? && !Call(k, x, e).reply.Joined?
  {
    hide Inv, Shaped, TreeInv, SchedInv, EnterLast, ForkP, SignalP, ExitProcP, SpawnP, MainOk, SignalsOk, SetPending,
      SameExited;
    HeadRuns(k);
    InvParts(k, {});
    Unchanged(k);
    match e
    case Fork(Some(c)) => ForkSame(k, x, c);
    case ExitProcess(status) => Excuse(k, {x.pid}); ExitSame(k, x.pid, status);
    case SignalParent(sid) =>
      if x.pid != k.root && k.tree[x.pid].parent in k.tree { SignalAnySame(k, k.tree[x.pid].parent, sid); }
    case Signal(q, sid) => if q in k.tree { SignalAnySame(k, q, sid); }
    case AllowSignals(v) => AllowSame(k, x.pid, v);
    case WaitSignal(v) =>
      PendingSame(k, x.pid, k.signals[x.pid].pending - {Lowest(v * k.signals[x.pid].pending, 0)});
      EnterLastSame(k, x, SignalQ(x.pid), v);
    case ClearSignals(v) => PendingSame(k, x.pid, k.signals[x.pid].pending - v);
    case Sleep(ticks) => SleepSame(k, x, ticks);
    case Spawn(Some(t)) => SpawnSame(k, x.pid, t);
    case Block(q) => EnterLastSame(k, x, BasicQ(q), {});
    case _ =>
  }

  lemma EnterLastSame(k: KState, x: Thr, q: QName, mask: set<nat>)
    requires x in k.sched.threads && k.sched.threads[x] == Scheduled
    ensures Kept(k, EnterLast(k, x, q, mask))
  {
    EnterSame(k, x, q, Queue(k.sched, q) + [Waiter(x, mask, 0)]);
  }

  lemma SleepSame(k: KState, x: Thr, ticks: U32)
    requires x in k.sched.threads && k.sched.threads[x] == Scheduled
    ensures Kept(k, SleepCall(k, x, ticks))
  {
  }

  /** What a step may do to one thread `y` that has exited or does so. */
  ghost predicate ExitedStep(k: KState, e: Event, y: Thr)
    requires CanRun(k)
  {
    var k' := Step(k, e).k;
    && (Delivers(k, e, y) ==> !ExitedIn(k', y) && (ExitedIn(k, y) || Exits(k, e, y)))
    && (ExitedIn(k', y) ==> ExitedIn(k, y) || (Exits(k, e, y) && !Delivers(k, e, y)))
    && (ExitedIn(k, y) ==> !Exits(k, e, y) && (ExitedIn(k', y) || Delivers(k, e, y) || Reaps(k, e, y)))
  }

  /** The thread at the head of the ring makes the call `e`. */
  ghost predicate Calls(k: KState, x: Thr, e: Event) {
    && Inv(k, {}) && !k.down && CanRun(k) && k.sched.ring != [] && x == k.sched.ring[0] && !e.Tick? && !e.WakeAll?
    && x in k.sched.threads && k.sched.threads[x] == Scheduled && x.pid in k.tree && !k.tree[x.pid].exited
  }

  lemma ExitThreadStep(k: KState, x: Thr, e: Event, y: Thr)
    requires Calls(k, x, e) && e.ExitThread?
    ensures Step(k, e).k.down || ExitedStep(k, e, y)
  {
    MainsKnown(k);
    hide Inv, Shaped, SchedInv, Kept, ExitProcP, ExitedThread;
    if x.tid == k.mains[x.pid] {
      Excuse(k, {x.pid});
      ExitSame(k, x.pid, e.value);
      KeptMeans(k, ExitProcP(k, x.pid, e.value).k);
      SameAt(k, ExitProcP(k, x.pid, e.value).k, y);
    } else {
      HandedToOne(k, x);
    }
  }

  lemma JoinStep(k: KState, x: Thr, e: Event, y: Thr)
    requires Calls(k, x, e) && e.Join?
    ensures ExitedStep(k, e, y)
  {
    hide Inv, Shaped, SchedInv, Kept, EnterLast;
    EnterLastSame(k, x, JoinQ(x.pid), e.v);
    SameAt(k, EnterLast(k, x, JoinQ(x.pid), e.v), y);
  }

  lemma ReapStep(k: KState, x: Thr, e: Event, y: Thr)
    requires Calls(k, x, e) && (e.Reap? || e.ReapAny?)
    ensures Step(k, e).k.down || ExitedStep(k, e, y)
  {
    hide Inv, Shaped, SchedInv, ReapP, ReapCall;
    if e.Reap? {
      ReapExited(k, x.pid, e.pid, y);
    } else if k.tree[x.pid].zombies != [] {
      ReapExited(k, x.pid, k.tree[x.pid].zombies[0], y);
    }
  }

  /** Every call, seen from one thread `y`. */
  lemma CallExited(k: KState, x: Thr, e: Event, y: Thr)
    requires Calls(k, x, e) && Fits(k, e)
    ensures Step(k, e).k.down || ExitedStep(k, e, y)
  {
    MainsKnown(k);
    hide Inv, Shaped, TreeInv, SchedInv, Kept, Call;
    match e
    case ExitThread(value) => ExitThreadStep(k, x, e, y);
    case Join(v) => JoinStep(k, x, e, y);
    case Reap(z) => ReapStep(k, x, e, y);
    case ReapAny => ReapStep(k, x, e, y);
    case _ => OtherStep(k, x, e, y);
  }

  lemma OtherStep(k: KState, x: Thr, e: Event, y: Thr)
    requires Calls(k, x, e) && Fits(k, e) && !e.ExitThread? && !e.Join? && !e.Reap? && !e.ReapAny?
    ensures Step(k, e).k.down || ExitedStep(k, e, y)
  {
    MainsKnown(k);
    hide Inv, Shaped, TreeInv, SchedInv, SameExited, Call;
    CallSame(k, x, e);
    if SameExited(k, Call(k, x, e).k) { SameAt(k, Call(k, x, e).k, y); }
  }

  lemma SameAt(k: KState, k': KState, y: Thr)
    requires SameExited(k, k')
    ensures ExitedIn(k', y) <==> ExitedIn(k, y)
  {
  }

  lemma ReapExited(k: KState, p: Pid, z: Pid, y: Thr)
    requires p in k.tree
    ensures var r := ReapCall(k, p, z);
      && (ExitedIn(r.k, y) ==> ExitedIn(k, y))
      && (ExitedIn(k, y) ==> ExitedIn(r.k, y) || (r.reply.Dead? && r.reply.pid == y.pid))
  {
  }

  // ---------------------------------------------------------------------------
  // Whole runs
  // ---------------------------------------------------------------------------

  /** `evs[i]` leads from `run[i]` to the next state. */
  ghost predicate RunBy(run: seq<KState>, evs: seq<Event>, root: Pid, tid: nat) {
    && |run| == |evs| + 1 && run[0] == Boot(root, tid)
    && forall i {:trigger evs[i]} :: 0 <= i < |evs| ==>
        !run[i].down && CanRun(run[i]) && Fits(run[i], evs[i]) && run[i + 1] == Step(run[i], evs[i]).k
  }

  /** How often the thread ended in the first `n` steps. */
  ghost function ExitsOf(run: seq<KState>, evs: seq<Event>, x: Thr, n: nat): nat
    requires n <= |evs| < |run|
  {
    if n == 0 then 0 else ExitsOf(run, evs, x, n - 1) + if Exits(run[n - 1], evs[n - 1], x) then 1 else 0
  }

  /** And how often it was handed to a joiner. */
  ghost function JoinsOf(run: seq<KState>, evs: seq<Event>, x: Thr, n: nat): nat
    requires n <= |evs| < |run|
  {
    if n == 0 then 0
    else JoinsOf(run, evs, x, n - 1) + if CanRun(run[n - 1]) && Delivers(run[n - 1], evs[n - 1], x) then 1 else 0
  }

  lemma {:induction false} RunByKeeps(run: seq<KState>, evs: seq<Event>, root: Pid, tid: nat, n: nat)
    requires RunBy(run, evs, root, tid) && n < |run|
    ensures run[n].down || Inv(run[n], {})
    decreases n
  {
    hide Inv, Step, Fits, Boot;
    if n == 0 {
      BootInv(root, tid);
    } else {
      RunByKeeps(run, evs, root, tid, n - 1);
      assert run[n] == Step(run[n - 1], evs[n - 1]).k;
      StepKeeps(run[n - 1], evs[n - 1]);
    }
  }

  /** In every run a thread is joined at most once for each time that it ends. */
  lemma {:induction false} JoinedOnce(run: seq<KState>, evs: seq<Event>, root: Pid, tid: nat, x: Thr, n: nat)
    requires RunBy(run, evs, root, tid) && n <= |evs| && !run[n].down
    ensures JoinsOf(run, evs, x, n) + (if ExitedIn(run[n], x) then 1 else 0) <= ExitsOf(run, evs, x, n)
    decreases n
  {
    if n == 0 {
      assert run[0] == Boot(root, tid);
    } else {
      hide Inv, Step, Fits, Boot, ExitedIn, Delivers, Exits;
      var e := evs[n - 1];
      assert run[n - 1 + 1] == run[n];
      assert !run[n - 1].down && run[n] == Step(run[n - 1], e).k;
      JoinedOnce(run, evs, root, tid, x, n - 1);
      RunByKeeps(run, evs, root, tid, n - 1);
      ExitedStays(run[n - 1], evs[n - 1], x);
    }
  }
}
