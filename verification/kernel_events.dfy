/**
  What each event does, seen from one process: its signals, its end, and what its parent gets to know.
 */
module KernelEvents {
  import opened Sequences
  import opened ProcessTree
  import opened Scheduling
  import opened KernelModel
  import opened KernelKeeps
  import opened KernelCalls
  import opened KernelRuns
  import opened KernelSignals
  import opened KernelJoins

  // ---------------------------------------------------------------------------
  // Signals
  // ---------------------------------------------------------------------------

  /** The thread takes its process along when it ends. */
  ghost predicate IsMain(k: KState, x: Thr) {
    x.pid in k.mains && x.tid == k.mains[x.pid]
  }

  /** The caller `x`, which gets the reply `r` to `e`, consumes signal `b` of `p`, or clears it. */
  ghost predicate Takes(x: Thr, e: Event, r: Reply, p: Pid, b: nat) {
    x.pid == p && ((e.WaitSignal? && r == Signalled(b)) || (e.ClearSignals? && b in e.v))
  }

  /** Signal `b` is sent to `p`; a process that exits tells its parent, and its zombies the root. */
  ghost predicate Sends(k: KState, x: Thr, e: Event, p: Pid, b: nat) {
    || b == FSIG_CHLD || (e.Signal? && e.pid == p && e.sid == b)
    || (e.SignalParent? && e.sid == b && x.pid in k.tree && k.tree[x.pid].parent == p)
  }

  /** What is pending stays so until it is taken, what is taken is gone, and what is new was sent. */
  ghost predicate SignalChange(k: KState, k': KState, x: Thr, e: Event, r: Reply, p: Pid, b: nat) {
    p in k.signals && p in k'.signals ==>
      && k'.signals[p].allowed == (if x.pid == p && e.AllowSignals? then e.v else k.signals[p].allowed)
      && (b in k.signals[p].pending ==> b in k'.signals[p].pending || Takes(x, e, r, p, b))
      && (b in k'.signals[p].pending ==> (b in k.signals[p].pending || Sends(k, x, e, p, b)) && !Takes(x, e, r, p, b))
  }

  /** The thread at the head of the ring, if there is one, is the caller; nobody calls at a tick. */
  ghost predicate SignalStep(k: KState, e: Event, p: Pid, b: nat)
    requires CanRun(k)
  {
    var r := Step(k, e);
    if e.Tick? || e.WakeAll? then r.k.signals == k.signals
    else k.sched.ring != [] && SignalChange(k, r.k, k.sched.ring[0], e, r.reply, p, b)
  }

  /** In every step, whatever chain of signals and exits runs. */
  lemma PendingStays(k: KState, e: Event, p: Pid, b: nat)
    requires Inv(k, {}) && !k.down && Fits(k, e)
    ensures CanRun(k) && (Step(k, e).k.down || SignalStep(k, e, p, b))
  {
    HeadRuns(k);
    MainsKnown(k);
    hide Inv, TickP, WakeFirst, Call, SignalChange;
    if e.Tick? {
      TickIsQuiet(k);
    } else if !e.WakeAll? && k.sched.ring != [] {
      CallSignals(k, k.sched.ring[0], e, p, b);
    }
  }

  lemma TickIsQuiet(k: KState)
    ensures TickP(k).signals == k.signals && TickP(k).tree == k.tree && TickP(k).down == k.down
  {
  }

  lemma CallSignals(k: KState, x: Thr, e: Event, p: Pid, b: nat)
    requires Calls(k, x, e) && Fits(k, e) && Shaped(k)
    ensures var r := Call(k, x, e); r.k.down || SignalChange(k, r.k, x, e, r.reply, p, b)
  {
    hide Inv, Shaped, Call, SignalChange;
    match e
    case ExitProcess(status) => ExitSignals(k, x, e, status, p, b);
    case ExitThread(value) =>
      if IsMain(k, x) { ExitSignals(k, x, e, value, p, b); } else { OtherSignals(k, x, e, p, b); }
    case AllowSignals(v) => MaskSignals(k, x, e, p, b);
    case SignalParent(sid) => SentSignals(k, x, e, p, b);
    case Signal(q, sid) => SentSignals(k, x, e, p, b);
    case _ => OtherSignals(k, x, e, p, b);
  }

  /** What a chain of signals and exits does to the signals of `p`. */
  lemma FollowedAt(
      k: KState, k': KState, x: Thr, e: Event, r: Reply, news: set<(Pid, nat)>, ends: set<(Pid, int)>, p: Pid, b: nat)
    requires Follows(k, k', news, ends, {}) && !e.WaitSignal? && !e.ClearSignals? && !e.AllowSignals?
    requires (p, b) in news ==> Sends(k, x, e, p, b)
    ensures SignalChange(k, k', x, e, r, p, b)
  {
    hide ExitsFollow, ThreadsFollow;
  }

  lemma ExitSignals(k: KState, x: Thr, e: Event, status: int, p: Pid, b: nat)
    requires Calls(k, x, e) && Shaped(k) && (e == ExitProcess(status) || (e == ExitThread(status) && IsMain(k, x)))
    ensures var r := Call(k, x, e); r.k.down || SignalChange(k, r.k, x, e, r.reply, p, b)
  {
    hide Inv, Shaped, ExitProcP, ExitedThread, Follows, SignalChange, Sends;
    ExitFollows(k, x.pid, status);
    var r := ExitProcP(k, x.pid, status);
    if r.ok && !r.k.down { FollowedAt(k, r.k, x, e, NoReply, {}, {(x.pid, status)}, p, b); }
  }

  lemma MaskSignals(k: KState, x: Thr, e: Event, p: Pid, b: nat)
    requires Calls(k, x, e) && e.AllowSignals? && Shaped(k)
    ensures var r := Call(k, x, e); r.k.down || SignalChange(k, r.k, x, e, r.reply, p, b)
  {
    hide Inv, TreeInv, ExitProcP, Follows;
    AllowStart(k, x.pid, e.v);
    var k1 := k.(signals := k.signals[x.pid := k.signals[x.pid].(allowed := e.v)]);
    ExitFollows(k1, x.pid, PROC_ES_SIGNAL);
    var r := ExitProcP(k1, x.pid, PROC_ES_SIGNAL);
    if r.ok && !r.k.down {
      FollowedAt(k1, r.k, x, ExitProcess(PROC_ES_SIGNAL), NoReply, {}, {(x.pid, PROC_ES_SIGNAL)}, p, b);
    }
  }

  lemma SentSignals(k: KState, x: Thr, e: Event, p: Pid, b: nat)
    requires Calls(k, x, e) && (e.Signal? || e.SignalParent?) && Shaped(k)
    ensures var r := Call(k, x, e); r.k.down || SignalChange(k, r.k, x, e, r.reply, p, b)
  {
    hide Inv, Shaped, SignalP, Follows, SignalChange;
    NothingSent(k, x, e, p, b);
    var q := if e.Signal? then e.pid else k.tree[x.pid].parent;
    if q in k.tree {
      SignalFollows(k, q, e.sid);
      var o, reply := SignalP(k, q, e.sid), Call(k, x, e).reply;
      if o.ok && !o.k.down { FollowedAt(k, o.k, x, e, reply, {(q, e.sid)}, {}, p, b); }
    }
  }

  lemma NothingSent(k: KState, x: Thr, e: Event, p: Pid, b: nat)
    requires e.Signal? || e.SignalParent?
    ensures SignalChange(k, k, x, e, Mismatch, p, b)
  {
  }

  lemma OtherSignals(k: KState, x: Thr, e: Event, p: Pid, b: nat)
    requires Calls(k, x, e) && Fits(k, e) && Shaped(k) && !e.ExitProcess? && (e.ExitThread? ==> !IsMain(k, x))
    requires !e.AllowSignals? && !e.Signal? && !e.SignalParent?
    ensures var r := Call(k, x, e); SignalChange(k, r.k, x, e, r.reply, p, b)
  {
    hide Inv, TreeInv, JoinCall, SleepCall, Enter, ScheduleOne, ExitedThread;
    if e.Join? { JoinIsQuiet(k, x, e.v); }
    if e.Sleep? { SleepIsQuiet(k, x, e.ticks); }
    if e.WaitSignal? { WaitTakes(k, x, e.v, b); }
  }

  lemma JoinIsQuiet(k: KState, x: Thr, v: set<nat>)
    ensures JoinCall(k, x, v).k.signals == k.signals && JoinCall(k, x, v).k.tree == k.tree
    ensures !JoinCall(k, x, v).k.down == !k.down && !JoinCall(k, x, v).reply.Signalled?
    ensures !JoinCall(k, x, v).reply.Dead? && !JoinCall(k, x, v).reply.OldMask?
  {
  }

  lemma SleepIsQuiet(k: KState, x: Thr, ticks: U32)
    ensures SleepCall(k, x, ticks).signals == k.signals && SleepCall(k, x, ticks).tree == k.tree
    ensures SleepCall(k, x, ticks).down == k.down
  {
  }

  /** The lowest signal that is waited for and pending is taken; otherwise the thread sleeps. */
  lemma WaitTakes(k: KState, x: Thr, v: set<nat>, b: nat)
    requires x.pid in k.signals && forall i :: i in v ==> i < 32
    ensures var r := WaitCall(k, x, v); var old_ := k.signals[x.pid];
      && (r.reply == Signalled(b) <==>
            b in v && b in old_.pending && forall c :: 0 <= c < b && c in v ==> c !in old_.pending)
      && (r.reply == Signalled(b) ==>
            r.k == k.(signals := k.signals[x.pid := Signals(old_.pending - {b}, old_.allowed)]))
      && (!r.reply.Signalled? ==> r.k.signals == k.signals)
      && r.k.tree == k.tree && r.k.down == k.down
  {
    var m := v * k.signals[x.pid].pending;
    var s := Lowest(m, 0);
    assert s < 32 ==> s in m;
    assert b in v && b in k.signals[x.pid].pending ==> b in m && s <= b;
    assert forall c :: c in m <==> c in v && c in k.signals[x.pid].pending;
  }

  /** A signal is handed out only when it is pending, the lowest of those that are waited for, and is gone then. */
  lemma SignalTaken(k: KState, e: Event, b: nat)
    requires Inv(k, {}) && !k.down && Fits(k, e) && CanRun(k) && Step(k, e).reply == Signalled(b)
    ensures k.sched.ring != [] && e.WaitSignal? && b in e.v
    ensures var p := k.sched.ring[0].pid;
      && p in k.signals && b in k.signals[p].pending
      && (forall c :: 0 <= c < b && c in e.v ==> c !in k.signals[p].pending)
      && Step(k, e).k == k.(signals := k.signals[p := Signals(k.signals[p].pending - {b}, k.signals[p].allowed)])
  {
    HeadRuns(k);
    MainsKnown(k);
    hide Inv, TickP, WakeFirst, SignalP, ExitProcP, ExitedThread, EnterLast, WaitCall, ReapP;
    if e.WaitSignal? && k.sched.ring != [] { WaitTakes(k, k.sched.ring[0], e.v, b); }
  }

  /** The mask that is replaced is the answer, and nothing but the mask changes then. */
  lemma MaskReplaced(k: KState, e: Event, m: set<nat>)
    requires Inv(k, {}) && !k.down && Fits(k, e) && CanRun(k) && Step(k, e).reply == OldMask(m)
    ensures k.sched.ring != [] && e.AllowSignals?
    ensures var p := k.sched.ring[0].pid;
      && p in k.signals && m == k.signals[p].allowed && k.signals[p].pending <= e.v
      && Step(k, e).k == k.(signals := k.signals[p := Signals(k.signals[p].pending, e.v)])
  {
    HeadRuns(k);
    MainsKnown(k);
    hide Inv, TickP, WakeFirst, SignalP, ExitProcP, ExitedThread, EnterLast;
  }

  // ---------------------------------------------------------------------------
  // Exits and zombies
  // ---------------------------------------------------------------------------

  /** The status is that of a forced exit, or the one that the process gives with its own exit. */
  ghost predicate EndsWith(x: Thr, e: Event, z: Pid, status: int) {
    status == PROC_ES_SIGNAL || (x.pid == z && (e == ExitProcess(status) || e == ExitThread(status)))
  }

  /**
    An exited process keeps its status until its parent gets it, and is gone then; a live one stays, unless it exits
    with its own status or by a signal.
   */
  ghost predicate ExitChange(k: KState, k': KState, x: Thr, e: Event, r: Reply, z: Pid) {
    && (z in k.tree && !k.tree[z].exited ==>
         z in k'.tree && (k'.tree[z].exited ==> EndsWith(x, e, z, k'.tree[z].status)))
    && (z in k.tree && k.tree[z].exited ==>
         if r.Dead? && r.pid == z then z !in k'.tree && r.status == k.tree[z].status && k.tree[z].parent == x.pid
         else z in k'.tree && k'.tree[z].exited && k'.tree[z].status == k.tree[z].status)
    && (r.Dead? && r.pid == z ==> z in k.tree && k.tree[z].exited)
    && (z !in k.tree && z in k'.tree ==> !k'.tree[z].exited)
  }

  ghost predicate ExitStep(k: KState, e: Event, z: Pid)
    requires CanRun(k)
  {
    var r := Step(k, e);
    if e.Tick? || e.WakeAll? then r.k.tree == k.tree && r.reply == NoReply
    else k.sched.ring != [] && ExitChange(k, r.k, k.sched.ring[0], e, r.reply, z)
  }

  lemma StatusStays(k: KState, e: Event, z: Pid)
    requires Inv(k, {}) && !k.down && Fits(k, e)
    ensures CanRun(k) && (Step(k, e).k.down || ExitStep(k, e, z))
  {
    HeadRuns(k);
    MainsKnown(k);
    hide Inv, TickP, WakeFirst, Call, ExitChange;
    if e.Tick? {
      TickIsQuiet(k);
    } else if !e.WakeAll? && k.sched.ring != [] {
      CallExits(k, k.sched.ring[0], e, z);
    }
  }

  /** Whoever has got a zombie in a step has been told of it. */
  lemma ZombiesTold(k: KState, e: Event)
    requires Inv(k, {}) && !k.down && Fits(k, e)
    ensures CanRun(k) && (Step(k, e).k.down || AllTold(k, Step(k, e).k))
  {
    HeadRuns(k);
    MainsKnown(k);
    hide Inv, TickP, WakeFirst, Call, Told;
    if e.Tick? {
      TickIsQuiet(k);
    } else if !e.WakeAll? && k.sched.ring != [] {
      CallTold(k, k.sched.ring[0], e);
    }
  }

  lemma CallExits(k: KState, x: Thr, e: Event, z: Pid)
    requires Calls(k, x, e) && Fits(k, e) && Shaped(k)
    ensures var r := Call(k, x, e); r.k.down || ExitChange(k, r.k, x, e, r.reply, z)
  {
    hide Inv, Shaped, Call, ExitChange;
    match e
    case ExitProcess(status) => ExitExits(k, x, e, status, z);
    case ExitThread(value) =>
      if IsMain(k, x) { ExitExits(k, x, e, value, z); } else { OtherExits(k, x, e, z); }
    case AllowSignals(v) => MaskExits(k, x, e, z);
    case SignalParent(sid) => SentExits(k, x, e, z);
    case Signal(q, sid) => SentExits(k, x, e, z);
    case Reap(q) => ReapExits(k, x, e, q, z);
    case ReapAny => ReapAnyExits(k, x, e, z);
    case _ => OtherExits(k, x, e, z);
  }

  lemma FollowedExit(
      k: KState, k': KState, x: Thr, e: Event, r: Reply, news: set<(Pid, nat)>, ends: set<(Pid, int)>, z: Pid)
    requires Follows(k, k', news, ends, {}) && !r.Dead?
    requires forall s :: (z, s) in ends ==> EndsWith(x, e, z, s)
    ensures ExitChange(k, k', x, e, r, z)
  {
    hide SignalsFollow, ThreadsFollow;
  }

  lemma ExitExits(k: KState, x: Thr, e: Event, status: int, z: Pid)
    requires Calls(k, x, e) && Shaped(k) && (e == ExitProcess(status) || (e == ExitThread(status) && IsMain(k, x)))
    ensures var r := Call(k, x, e); r.k.down || ExitChange(k, r.k, x, e, r.reply, z)
  {
    hide Inv, Shaped, ExitProcP, ExitedThread, Follows, ExitChange;
    ExitFollows(k, x.pid, status);
    var r := ExitProcP(k, x.pid, status);
    if r.ok && !r.k.down { FollowedExit(k, r.k, x, e, NoReply, {}, {(x.pid, status)}, z); }
  }

  lemma MaskExits(k: KState, x: Thr, e: Event, z: Pid)
    requires Calls(k, x, e) && e.AllowSignals? && Shaped(k)
    ensures var r := Call(k, x, e); r.k.down || ExitChange(k, r.k, x, e, r.reply, z)
  {
    hide Inv, TreeInv, ExitProcP, Follows;
    AllowStart(k, x.pid, e.v);
    var k1 := k.(signals := k.signals[x.pid := k.signals[x.pid].(allowed := e.v)]);
    ExitFollows(k1, x.pid, PROC_ES_SIGNAL);
    var r := ExitProcP(k1, x.pid, PROC_ES_SIGNAL);
    if r.ok && !r.k.down { FollowedExit(k1, r.k, x, e, NoReply, {}, {(x.pid, PROC_ES_SIGNAL)}, z); }
  }

  lemma SentExits(k: KState, x: Thr, e: Event, z: Pid)
    requires Calls(k, x, e) && (e.Signal? || e.SignalParent?) && Shaped(k)
    ensures var r := Call(k, x, e); r.k.down || ExitChange(k, r.k, x, e, r.reply, z)
  {
    hide Inv, Shaped, SignalP, Follows, ExitChange;
    NothingEnds(k, x, e, z);
    var q := if e.Signal? then e.pid else k.tree[x.pid].parent;
    if q in k.tree {
      SignalFollows(k, q, e.sid);
      var o, reply := SignalP(k, q, e.sid), Call(k, x, e).reply;
      if o.ok && !o.k.down { FollowedExit(k, o.k, x, e, reply, {(q, e.sid)}, {}, z); }
    }
  }

  lemma NothingEnds(k: KState, x: Thr, e: Event, z: Pid)
    ensures ExitChange(k, k, x, e, Mismatch, z) && ExitChange(k, k, x, e, Empty, z)
  {
  }

  /** A parent gets the status of a zombie of its own, or learns that the child lives or is none of its own. */
  lemma ReapExits(k: KState, x: Thr, e: Event, q: Pid, z: Pid)
    requires Calls(k, x, e) && e == Reap(q) && Shaped(k)
    ensures var r := Call(k, x, e); r.k.down || ExitChange(k, r.k, x, e, r.reply, z)
  {
    hide Inv, SchedInv;
    if q in k.tree && q != k.root { assert Placed(k.tree, q); }
  }

  lemma ReapAnyExits(k: KState, x: Thr, e: Event, z: Pid)
    requires Calls(k, x, e) && e == ReapAny && Shaped(k)
    ensures var r := Call(k, x, e); r.k.down || ExitChange(k, r.k, x, e, r.reply, z)
  {
    hide Inv, SchedInv, Ranked;
    assert ListsSound(k.tree, k.root, x.pid);
    if k.tree[x.pid].zombies != [] {
      var q := k.tree[x.pid].zombies[0];
      assert q in k.tree[x.pid].zombies && Placed(k.tree, q);
    }
  }

  lemma OtherExits(k: KState, x: Thr, e: Event, z: Pid)
    requires Calls(k, x, e) && Fits(k, e) && Shaped(k) && !e.ExitProcess? && (e.ExitThread? ==> !IsMain(k, x))
    requires !e.AllowSignals? && !e.Signal? && !e.SignalParent? && !e.Reap? && !e.ReapAny?
    ensures var r := Call(k, x, e); ExitChange(k, r.k, x, e, r.reply, z)
    ensures forall q :: !NewZombie(k.tree, Call(k, x, e).k.tree, q)
  {
    hide Inv, TreeInv, JoinCall, SleepCall, Enter, ScheduleOne, ExitedThread;
    if e.Join? { JoinIsQuiet(k, x, e.v); }
    if e.Sleep? { SleepIsQuiet(k, x, e.ticks); }
    if e.WaitSignal? { WaitTakes(k, x, e.v, 0); }
  }

  lemma CallTold(k: KState, x: Thr, e: Event)
    requires Calls(k, x, e) && Fits(k, e) && Shaped(k)
    ensures var r := Call(k, x, e); r.k.down || AllTold(k, r.k)
  {
    OwnFromInv(k);
    hide Inv, TreeInv, AllTold, Told, SignalP, ExitProcP, ExitedThread, Enter, ScheduleOne, JoinCall, SleepCall, ReapP,
      OwnSignals, WaitCall;
    NoneToTell(k, k);
    match e
    case ExitProcess(status) => ExitTold(k, x.pid, status);
    case ExitThread(value) =>
      if IsMain(k, x) { ExitTold(k, x.pid, value); } else { NoneToTell(k, Call(k, x, e).k); }
    case AllowSignals(v) =>
      AllowStart(k, x.pid, v);
      MaskTold(k, x.pid, v);
    case SignalParent(sid) =>
      if x.pid != k.root && k.tree[x.pid].parent in k.tree { SignalTold(k, k.tree[x.pid].parent, sid); }
    case Signal(q, sid) => if q in k.tree { SignalTold(k, q, sid); }
    case Reap(q) => ReapTold(k, x.pid, q);
    case ReapAny => if k.tree[x.pid].zombies != [] { ReapTold(k, x.pid, k.tree[x.pid].zombies[0]); }
    case _ => OtherTold(k, x, e);
  }

  lemma OwnFromInv(k: KState)
    requires Inv(k, {})
    ensures OwnSignals(k)
  {
    forall q, w | w in Queue(k.sched, SignalQ(q))
      ensures w.thr.pid == q
    {
      assert ProcOk(k, q) && QueuesOwn(k, q);
    }
  }

  lemma NoneToTell(k: KState, k': KState)
    requires forall q :: q in k.tree && q in k'.tree ==>
      forall z :: z in k'.tree[q].zombies ==> z in k.tree[q].zombies
    ensures AllTold(k, k')
  {
  }

  lemma OtherTold(k: KState, x: Thr, e: Event)
    requires Calls(k, x, e) && Fits(k, e) && Shaped(k) && !e.ExitProcess? && !e.ExitThread?
    requires !e.AllowSignals? && !e.Signal? && !e.SignalParent? && !e.Reap? && !e.ReapAny?
    ensures AllTold(k, Call(k, x, e).k)
  {
    hide Inv, Shaped, Call, Told;
    OtherExits(k, x, e, 0);
  }

  lemma MaskTold(k: KState, p: Pid, v: set<nat>)
    requires Shaped(k) && OwnSignals(k) && p in k.tree
    requires Shaped(k.(signals := k.signals[p := k.signals[p].(allowed := v)]))
    ensures var r := AllowCall(k, p, v); r.k.down || AllTold(k, r.k)
  {
    hide TreeInv, ExitProcP, Told;
    var k1 := k.(signals := k.signals[p := k.signals[p].(allowed := v)]);
    ExitTold(k1, p, PROC_ES_SIGNAL);
    SameSched(k, k1, ExitProcP(k1, p, PROC_ES_SIGNAL).k);
  }

  lemma ReapTold(k: KState, p: Pid, q: Pid)
    requires Shaped(k) && p in k.tree
    ensures var r := ReapCall(k, p, q); r.k.down || AllTold(k, r.k)
  {
    hide Told, Ranked;
    assert ListsSound(k.tree, k.root, p);
    DropMembers(k.tree[p].zombies, q);
  }

  // ---------------------------------------------------------------------------
  // Processes that come and go
  // ---------------------------------------------------------------------------

  /** The same process, but for its children. */
  ghost predicate SameSelf(k: KState, k': KState, q: Pid) {
    && q in k.tree && q in k'.tree && k'.tree[q].exited == k.tree[q].exited && k'.tree[q].status == k.tree[q].status
    && k'.tree[q].parent == k.tree[q].parent
    && q in k.signals && q in k'.signals && k'.signals[q] == k.signals[q]
    && q in k.mains && q in k'.mains && k'.mains[q] == k.mains[q]
  }

  /** The newest child of the caller lives, with one thread, its main one, about to run last, and no signals. */
  ghost predicate IsChild(k: KState, k': KState, x: Thr, c: Pid) {
    && c in k'.tree && k'.tree[c].parent == x.pid && !k'.tree[c].exited
    && k'.tree[c].children == [] && k'.tree[c].zombies == []
    && c in k'.signals && k'.signals[c].pending == {} && k'.signals[c].allowed == {}
    && c in k'.mains && k'.mains[c] == x.tid && ThreadsOf(k', c) == {Thr(c, x.tid)}
    && k'.sched.ring == k.sched.ring + [Thr(c, x.tid)]
  }

  /** After a fork all others are what they were, and the caller has one child more. */
  lemma ForkedChild(k: KState, x: Thr, c: Pid)
    requires Inv(k, {}) && x.pid in k.tree && c !in k.tree
    ensures var k' := ForkP(k, x, c);
      && IsChild(k, k', x, c) && k'.tree.Keys == k.tree.Keys + {c}
      && (forall q :: q in k.tree ==>
            && SameSelf(k, k', q) && k'.tree[q].zombies == k.tree[q].zombies
            && k'.tree[q].children == if q == x.pid then k.tree[q].children + [c] else k.tree[q].children)
      && (forall y :: y in k.sched.threads ==>
            y in k'.sched.threads && k'.sched.threads[y] == k.sched.threads[y])
      && forall q :: Queue(k'.sched, q) == Queue(k.sched, q)
  {
    hide TreeInv, SchedInv;
    UnknownProcess(k, c);
    assert ThreadsOf(ForkP(k, x, c), c) == {Thr(c, x.tid)};
  }

  /** After a zombie is reaped nothing of it is left, and all others are what they were. */
  lemma ReapedGone(k: KState, p: Pid, z: Pid)
    requires Inv(k, {}) && p in k.tree && z in k.tree[p].zombies
    ensures var k' := ReapP(k, p, z);
      && k'.tree.Keys == k.tree.Keys - {z} && ThreadsOf(k', z) == {} && z !in k'.signals && z !in k'.mains
      && (forall q :: q in k.tree && q != z ==>
            && SameSelf(k, k', q) && k'.tree[q].children == k.tree[q].children
            && forall c :: c in k'.tree[q].zombies <==> c in k.tree[q].zombies && c != z)
      && (forall y :: y in k.sched.threads && y.pid != z ==>
            y in k'.sched.threads && k'.sched.threads[y] == k.sched.threads[y])
      && k'.sched.ring == k.sched.ring && forall q :: Queue(k'.sched, q) == Queue(k.sched, q)
  {
    MainsKnown(k);
    ZombieOf(k, p, z);
    ReapSched(k, p, z);
    hide TreeInv, SchedInv, Inv;
    DropMembers(k.tree[p].zombies, z);
  }

  lemma ZombieOf(k: KState, p: Pid, z: Pid)
    requires Inv(k, {}) && p in k.tree && z in k.tree[p].zombies
    ensures z in k.tree && k.tree[z].exited && z != p && Distinct(k.tree[p].zombies)
    ensures forall q :: q in k.tree && q != p ==> z !in k.tree[q].zombies
  {
    hide SchedInv;
    HoldersLive(k.tree, k.root, p, z);
    assert ListsSound(k.tree, k.root, p) && Placed(k.tree, z);
    forall q | q in k.tree && z in k.tree[q].zombies
      ensures q == p
    {
      assert ListsSound(k.tree, k.root, q);
    }
  }

  /** A new thread runs last, and nothing else changes. */
  ghost predicate Starts(k: KState, k': KState, x: Thr) {
    && k' == k.(sched := k'.sched) && k'.sched.ring == k.sched.ring + [x] && k'.sched.queues == k.sched.queues
    && k'.sched.threads == k.sched.threads[x := Scheduled] && x !in k.sched.threads
  }
}
