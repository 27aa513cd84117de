/**
  When the system goes down: exits and signals may set off further exits, up to the one of the root.
 */
module KernelFalls {
  import opened ProcessTree
  import opened Scheduling
  import opened KernelModel
  import opened KernelCalls
  import opened KernelRuns
  import opened KernelSignals
  import opened KernelEvents
  import opened KernelJoins

  /** A child that has ended does not force the process to exit. */
  ghost predicate Bears(k: KState, p: Pid) {
    p in k.signals && FSIG_CHLD in k.signals[p].pending + k.signals[p].allowed
  }

  /** The exit of `p` is the root's own, or reaches a root that does not bear it. */
  ghost predicate Topples(k: KState, p: Pid) {
    p == k.root || (p in k.tree && !Bears(k, k.root) && (k.tree[p].zombies != [] || !Bears(k, k.tree[p].parent)))
  }

  lemma TellRoot(k: KState)
    requires Shaped(k) && !k.down
    ensures var r := SignalP(k, k.root, FSIG_CHLD);
      && r.ok && (r.k.down <==> !Bears(k, k.root))
      && (!r.k.down ==> r.k.tree == k.tree && forall q :: Bears(r.k, q) == Bears(k, q))
  {
    hide TreeInv, WakeAt, Live, Onward, FirstMatch;
    RootThere(k);
  }

  /** A process with a zombie is told, and so may be forced to exit, and that may force the root. */
  lemma {:induction false} TellFalls(k: KState, p: Pid)
    requires Shaped(k) && !k.down && p in k.tree && !k.tree[p].exited && (p == k.root || k.tree[p].zombies != [])
    ensures var r := SignalP(k, p, FSIG_CHLD); r.ok && (r.k.down <==> !Bears(k, p) && !Bears(k, k.root))
    decreases |Live(k.tree)|, if p == k.root then 0 else 1, 1
  {
    hide TreeInv, Live, ExitProcP, WakeAt;
    TellRoot(k);
    if p != k.root && !Bears(k, p) {
      ExitFalls(SetPending(k, p, k.signals[p].pending + {FSIG_CHLD}), p, PROC_ES_SIGNAL);
    }
  }

  /** The exit of a live process takes the system down exactly when it reaches a root that does not bear it. */
  lemma {:induction false} ExitFalls(k: KState, p: Pid, status: int)
    requires Shaped(k) && !k.down && p in k.tree && !k.tree[p].exited
    ensures var r := ExitProcP(k, p, status); r.ok && (r.k.down <==> Topples(k, p))
    decreases |Live(k.tree)|, if p == k.root then 0 else 1, 0
  {
    hide TreeInv, Live, SignalP, BuryP, Adopted, DetachAll;
    if p != k.root {
      RootThere(k);
      DisownedShaped(k, p);
      TellRoot(Disowned(k, p));
      var o := Outcome(Disowned(k, p), true);
      if k.tree[p].zombies != [] { o := SignalP(o.k, k.root, FSIG_CHLD); }
      if !o.k.down { BuryFalls(o.k, p, status); }
    }
  }

  lemma {:induction false} BuryFalls(k: KState, p: Pid, status: int)
    requires Shaped(k) && !k.down && p in k.tree && p != k.root && !k.tree[p].exited
    requires k.tree[p].children == [] && k.tree[p].zombies == []
    ensures var r := BuryP(k, p, status); r.ok && (r.k.down <==> !Bears(k, k.tree[p].parent) && !Bears(k, k.root))
    decreases |Live(k.tree)|, 0, 0
  {
    hide TreeInv, Live, SignalP;
    ListedIffLive(k, p);
    BuriedShaped(k, p, status);
    assert Placed(k.tree, p);
    TellFalls(BuriedK(k, p, status), k.tree[p].parent);
  }

  /** A signal that does not fail takes the system down exactly by an exit that it forces. */
  lemma SignalFalls(k: KState, p: Pid, sid: nat)
    requires Shaped(k) && !k.down && p in k.tree && sid < NUM_SIGNALS && !k.tree[p].exited
    ensures var r := SignalP(k, p, sid);
      r.ok && (r.k.down <==> sid !in k.signals[p].pending + k.signals[p].allowed && Topples(k, p))
  {
    hide TreeInv, ExitProcP, WakeAt;
    OwnMask(k, p, k.signals[p].(pending := k.signals[p].pending + {sid}));
    if sid !in k.signals[p].pending + k.signals[p].allowed {
      ExitFalls(SetPending(k, p, k.signals[p].pending + {sid}), p, PROC_ES_SIGNAL);
    }
  }

  /** What a process bears itself does not matter for its exit. */
  lemma OwnMask(k: KState, p: Pid, s: Signals)
    requires Shaped(k) && p in k.tree
    ensures var k1 := k.(signals := k.signals[p := s]); Shaped(k1) && (Topples(k1, p) <==> Topples(k, p))
  {
    if p != k.root { assert Placed(k.tree, p); }
  }

  // ---------------------------------------------------------------------------
  // Every event
  // ---------------------------------------------------------------------------

  /** The signal cannot be sent, or forces an exit that reaches the root. */
  ghost predicate SignalTopples(k: KState, p: Pid, sid: nat) {
    p in k.tree && p in k.signals
      && (sid >= NUM_SIGNALS
        || (sid !in k.signals[p].pending + k.signals[p].allowed && (k.tree[p].exited || Topples(k, p))))
  }

  /** The call `e` of thread `x` takes the system down. */
  ghost predicate Fatal(k: KState, x: Thr, e: Event)
    requires x.pid in k.tree && x.pid in k.signals
  {
    var p := x.pid;
    match e
    case ExitProcess(_) => Topples(k, p)
    case ExitThread(_) => IsMain(k, x) && Topples(k, p)
    case AllowSignals(v) => !(k.signals[p].pending <= v) && Topples(k, p)
    case Signal(q, sid) => SignalTopples(k, q, sid)
    case SignalParent(sid) => p != k.root && SignalTopples(k, k.tree[p].parent, sid)
    case _ => false
  }

  /** The system goes down exactly by a fatal call, or by a call when no thread runs. */
  lemma DownExactly(k: KState, e: Event)
    requires Inv(k, {}) && !k.down && Fits(k, e)
    ensures CanRun(k)
    ensures Step(k, e).k.down <==>
      !e.Tick? && !e.WakeAll? && (k.sched.ring == [] || Fatal(k, k.sched.ring[0], e))
  {
    HeadRuns(k);
    MainsKnown(k);
    hide Inv, TickP, WakeFirst, Call, Fatal;
    if e.Tick? {
      TickIsQuiet(k);
    } else if !e.WakeAll? && k.sched.ring != [] {
      CallFalls(k, k.sched.ring[0], e);
    }
  }

  lemma CallFalls(k: KState, x: Thr, e: Event)
    requires Calls(k, x, e) && Fits(k, e) && Shaped(k) && !k.down
    ensures Call(k, x, e).k.down <==> Fatal(k, x, e)
  {
    hide Inv, TreeInv, Topples, ExitProcP, SignalP, ExitedThread, ReapCall;
    var p := x.pid;
    match e
    case ExitProcess(status) => ExitFalls(k, p, status);
    case ExitThread(status) => if IsMain(k, x) { ExitFalls(k, p, status); }
    case AllowSignals(v) => MaskFalls(k, p, v);
    case Signal(q, sid) => if q in k.tree { SendFalls(k, q, sid); }
    case SignalParent(sid) => if p != k.root { ParentThere(k, p); SendFalls(k, k.tree[p].parent, sid); }
    case ReapAny => if k.tree[p].zombies != [] { ReapCallInv(k, p, k.tree[p].zombies[0]); }
    case Reap(z) => ReapCallInv(k, p, z);
    case Join(v) => JoinIsQuiet(k, x, v);
    case Sleep(ticks) => SleepIsQuiet(k, x, ticks);
    case _ =>
  }

  lemma ParentThere(k: KState, p: Pid)
    requires Shaped(k) && p in k.tree && p != k.root
    ensures k.tree[p].parent in k.tree
  {
    assert Placed(k.tree, p);
  }

  lemma MaskFalls(k: KState, p: Pid, v: set<nat>)
    requires Shaped(k) && !k.down && p in k.tree && !k.tree[p].exited
    ensures AllowCall(k, p, v).k.down <==> !(k.signals[p].pending <= v) && Topples(k, p)
  {
    hide TreeInv, ExitProcP, Topples;
    OwnMask(k, p, k.signals[p].(allowed := v));
    ExitFalls(k.(signals := k.signals[p := k.signals[p].(allowed := v)]), p, PROC_ES_SIGNAL);
  }

  lemma SendFalls(k: KState, p: Pid, sid: nat)
    requires Inv(k, {}) && !k.down && p in k.tree
    ensures Shaped(k)
    ensures Settle(SignalP(k, p, sid), NoReply).k.down <==> SignalTopples(k, p, sid)
  {
    hide TreeInv, SchedInv, OwnerOk, ProcOk, SignalsOk, SignalP, Topples;
    SignalFails(k, p, sid);
    if sid < NUM_SIGNALS && !k.tree[p].exited { SignalFalls(k, p, sid); }
    if k.tree[p].exited && sid in k.signals[p].pending + k.signals[p].allowed { ZombieQuiet(k, p, sid); }
  }

  lemma ZombieQuiet(k: KState, p: Pid, sid: nat)
    requires Shaped(k) && !k.down && p in k.tree && sid in k.signals[p].pending + k.signals[p].allowed
    ensures !SignalP(k, p, sid).k.down
  {
    hide TreeInv, WakeAt;
  }
}
