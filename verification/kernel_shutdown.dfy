/**
  That a process can bring the system down with a signal: one run that ends so.
 */
module KernelShutdown {
  import opened ProcessTree
  import opened Scheduling
  import opened KernelModel
  import opened KernelKeeps
  import opened KernelCalls
  import opened KernelRuns
  import opened KernelJoins

  /** The root allows the signal its children end with, forks, and lets the child run. */
  function AfterFork(root: Pid, tid: nat, c: Pid): KState {
    KState(root, false, 1,
      map[root := Family(root, false, 0, [c], []), c := Family(root, false, 0, [], [])],
      map[root := Signals({}, {FSIG_CHLD}), c := Signals({}, {})],
      map[root := tid, c := tid],
      Sched(map[Thr(root, tid) := Scheduled, Thr(c, tid) := Scheduled], map[], [Thr(c, tid), Thr(root, tid)]))
  }

  /** The root has allowed the signal, and has forked. */
  function Allowing(root: Pid, tid: nat): KState {
    Boot(root, tid).(signals := map[root := Signals({}, {FSIG_CHLD})])
  }

  function Forking(root: Pid, tid: nat, c: Pid): KState {
    var k := AfterFork(root, tid, c);
    k.(now := 0, sched := k.sched.(ring := [Thr(root, tid), Thr(c, tid)]))
  }

  lemma ToAllow(root: Pid, tid: nat)
    requires Inv(Boot(root, tid), {})
    ensures CanRun(Boot(root, tid)) && Step(Boot(root, tid), AllowSignals({FSIG_CHLD})).k == Allowing(root, tid)
  {
    HeadRuns(Boot(root, tid));
  }

  lemma ToFork(root: Pid, tid: nat, c: Pid)
    requires c != root && Inv(Allowing(root, tid), {})
    ensures CanRun(Allowing(root, tid)) && Fits(Allowing(root, tid), Fork(Some(c)))
    ensures Step(Allowing(root, tid), Fork(Some(c))).k == Forking(root, tid, c)
  {
    HeadRuns(Allowing(root, tid));
    assert [] + [c] == [c];
    assert Step(Allowing(root, tid), Fork(Some(c))).k.tree == Forking(root, tid, c).tree;
  }

  lemma ToTick(root: Pid, tid: nat, c: Pid)
    requires c != root && Inv(Forking(root, tid, c), {})
    ensures CanRun(Forking(root, tid, c)) && Step(Forking(root, tid, c), Tick).k == AfterFork(root, tid, c)
  {
    HeadRuns(Forking(root, tid, c));
    assert Queue(Forking(root, tid, c).sched, SleepQ) == [];
  }

  /** The child exits, which leaves it as the root's zombie, and the root running. */
  function AfterExit(root: Pid, tid: nat, c: Pid, status: int): KState {
    KState(root, false, 1,
      map[root := Family(root, false, 0, [], [c]), c := Family(root, true, status, [], [])],
      map[root := Signals({FSIG_CHLD}, {FSIG_CHLD}), c := Signals({}, {})],
      map[root := tid, c := tid],
      Sched(map[Thr(root, tid) := Scheduled, Thr(c, tid) := Detached], map[], [Thr(root, tid)]))
  }

  lemma ToExit(root: Pid, tid: nat, c: Pid, status: int)
    requires c != root && Inv(AfterFork(root, tid, c), {})
    ensures CanRun(AfterFork(root, tid, c))
    ensures Step(AfterFork(root, tid, c), ExitProcess(status)).k == AfterExit(root, tid, c, status)
  {
    var k := AfterFork(root, tid, c);
    HeadRuns(k);
    Excuse(k, {c});
    InvParts(k, {c});
    Family3(root, tid, c);
    ExitIs(root, tid, c, status);
    hide Inv, AfterFork, AfterExit, ExitProcP;
  }

  lemma Family3(root: Pid, tid: nat, c: Pid)
    requires c != root
    ensures var k := AfterFork(root, tid, c);
      c in k.tree && root in k.tree && k.root == root && k.tree[c] == Family(root, false, 0, [], []) && !k.down
        && k.sched.ring[0] == Thr(c, tid)
  {
  }

  lemma ExitIs(root: Pid, tid: nat, c: Pid, status: int)
    requires c != root && Shaped(AfterFork(root, tid, c))
    ensures c in AfterFork(root, tid, c).tree
    ensures ExitProcP(AfterFork(root, tid, c), c, status) == Outcome(AfterExit(root, tid, c, status), true)
  {
    var k := AfterFork(root, tid, c);
    Family3(root, tid, c);
    DisownedIs(root, tid, c);
    hide AfterFork, AfterExit, Live;
    DisownedShaped(k, c);
    var k1 := Disowned(k, c);
    StoppingFamily(root, tid, c);
    hide Stopping, Disowned, TreeInv;
    ListedIffLive(k1, c);
    BuriedShaped(k1, c, status);
    SignalIs(root, tid, c, status);
    hide SignalP, BuriedK;
    assert BuryP(k1, c, status) == SignalP(BuriedK(k1, c, status), root, FSIG_CHLD);
  }

  lemma StoppingFamily(root: Pid, tid: nat, c: Pid)
    requires c != root
    ensures var k := Stopping(root, tid, c);
      c in k.tree && root in k.tree && k.root == root && k.tree[c] == Family(root, false, 0, [], []) && !k.down
  {
  }

  /** The state between: the child's thread has stopped. */
  function Stopping(root: Pid, tid: nat, c: Pid): KState {
    var k := AfterFork(root, tid, c);
    k.(sched := Sched(map[Thr(root, tid) := Scheduled, Thr(c, tid) := Detached], map[], [Thr(root, tid)]))
  }

  lemma DisownedIs(root: Pid, tid: nat, c: Pid)
    requires c != root
    ensures Disowned(AfterFork(root, tid, c), c) == Stopping(root, tid, c)
  {
    var k := AfterFork(root, tid, c);
    var xs := ThreadsOf(k, c);
    assert xs == {Thr(c, tid)};
    assert k.sched.ring[1..] == [Thr(root, tid)] && k.sched.ring[1..][1..] == [];
    assert WithoutThr(k.sched.ring[1..], xs) == [Thr(root, tid)] + [];
    assert WithoutThr(k.sched.ring, xs) == [] + [Thr(root, tid)];
    assert DetachAll(k.sched, xs).threads == Stopping(root, tid, c).sched.threads;
    assert DetachAll(k.sched, xs).queues == map[];
    assert k.tree[root].children + k.tree[c].children == [c] && k.tree[root].zombies + k.tree[c].zombies == [];
    assert Adopted(k.tree, root, c)[root] == k.tree[root] && Adopted(k.tree, root, c)[c] == k.tree[c];
    assert Adopted(k.tree, root, c) == k.tree;
  }

  lemma BuriedIs(root: Pid, tid: nat, c: Pid, status: int)
    requires c != root
    ensures BuriedK(Stopping(root, tid, c), c, status).tree == AfterExit(root, tid, c, status).tree
  {
    assert Drop([c], c) == [];
    assert [] + [c] == [c];
  }

  lemma SignalIs(root: Pid, tid: nat, c: Pid, status: int)
    requires c != root
    requires var k := BuriedK(Stopping(root, tid, c), c, status); Shaped(k) && root in k.tree
    ensures SignalP(BuriedK(Stopping(root, tid, c), c, status), root, FSIG_CHLD)
      == Outcome(AfterExit(root, tid, c, status), true)
  {
    BuriedIs(root, tid, c, status);
    var k := BuriedK(Stopping(root, tid, c), c, status);
    assert Queue(k.sched, SignalQ(root)) == [];
    assert {} + {FSIG_CHLD} == {FSIG_CHLD};
    assert k.signals[root := Signals({FSIG_CHLD}, {FSIG_CHLD})] == AfterExit(root, tid, c, status).signals;
  }

  /** The event `e` leads from `k`, which is up, to `k'`. */
  ghost predicate Leads(k: KState, e: Event, k': KState) {
    !k.down && CanRun(k) && Fits(k, e) && k' == Step(k, e).k
  }

  lemma OneStep(k: KState, e: Event)
    requires Inv(k, {}) && !k.down && Fits(k, e)
    ensures CanRun(k) && Leads(k, e, Step(k, e).k) && (Step(k, e).k.down || Inv(Step(k, e).k, {}))
  {
    hide Inv, Step, Fits;
    StepKeeps(k, e);
  }

  lemma FirstSteps(root: Pid, tid: nat, c: Pid)
    requires c != root
    ensures Leads(Boot(root, tid), AllowSignals({FSIG_CHLD}), Allowing(root, tid))
    ensures Leads(Allowing(root, tid), Fork(Some(c)), Forking(root, tid, c))
    ensures Leads(Forking(root, tid, c), Tick, AfterFork(root, tid, c)) && Inv(AfterFork(root, tid, c), {})
  {
    BootInv(root, tid);
    StillUp(root, tid, c);
    assert Fits(Boot(root, tid), AllowSignals({FSIG_CHLD}));
    hide Inv, Step, CanRun, Boot, Allowing, Forking, AfterFork, Leads, Fits;
    OneStep(Boot(root, tid), AllowSignals({FSIG_CHLD}));
    ToAllow(root, tid);
    ToFork(root, tid, c);
    OneStep(Allowing(root, tid), Fork(Some(c)));
    TickFits(Forking(root, tid, c));
    ToTick(root, tid, c);
    OneStep(Forking(root, tid, c), Tick);
  }

  lemma StillUp(root: Pid, tid: nat, c: Pid)
    ensures !Boot(root, tid).down && !Allowing(root, tid).down && !Forking(root, tid, c).down
    ensures !AfterFork(root, tid, c).down
  {
  }

  lemma TickFits(k: KState)
    ensures Fits(k, Tick)
  {
  }

  lemma LastSteps(root: Pid, tid: nat, c: Pid, status: int, sid: nat) returns (k5: KState)
    requires c != root && Inv(AfterFork(root, tid, c), {})
    ensures Leads(AfterFork(root, tid, c), ExitProcess(status), AfterExit(root, tid, c, status))
    ensures Leads(AfterExit(root, tid, c, status), Signal(c, sid), k5) && k5.down
  {
    var k3, k4 := AfterFork(root, tid, c), AfterExit(root, tid, c, status);
    StillUp(root, tid, c);
    AfterExitUp(root, tid, c, status);
    ToExit(root, tid, c, status);
    assert Fits(k3, ExitProcess(status)) && Fits(k4, Signal(c, sid));
    hide Inv, Step, CanRun, AfterFork, AfterExit, Leads, Fits;
    OneStep(k3, ExitProcess(status));
    ToDown(root, tid, c, status, sid);
    OneStep(k4, Signal(c, sid));
    k5 := Step(k4, Signal(c, sid)).k;
  }

  /** The root forks a child, which exits and is then signalled by the root. */
  ghost function ZombieSignal(c: Pid, status: int, sid: nat): seq<Event> {
    [AllowSignals({FSIG_CHLD}), Fork(Some(c)), Tick, ExitProcess(status), Signal(c, sid)]
  }

  /**
    With these events from boot, and any signal at all, the system is up and the child a zombie before the signal,
    and the system is down after it. No other run has these events.
   */
  lemma ZombieSignalShutsDown(root: Pid, tid: nat, c: Pid, status: int, sid: nat)
    requires c != root
    ensures exists run: seq<KState> :: RunBy(run, ZombieSignal(c, status, sid), root, tid)
    ensures forall run: seq<KState> :: RunBy(run, ZombieSignal(c, status, sid), root, tid) ==>
      run[4] == AfterExit(root, tid, c, status) && !run[4].down && run[5].down
  {
    var run := TheRun(root, tid, c, status, sid);
    hide AfterExit;
    forall other: seq<KState> | RunBy(other, ZombieSignal(c, status, sid), root, tid)
      ensures other == run
    {
      OneRun(run, other, ZombieSignal(c, status, sid), root, tid);
    }
    hide RunBy;
  }

  lemma TheRun(root: Pid, tid: nat, c: Pid, status: int, sid: nat) returns (run: seq<KState>)
    requires c != root
    ensures RunBy(run, ZombieSignal(c, status, sid), root, tid) && |run| == 6
    ensures run[4] == AfterExit(root, tid, c, status) && !run[4].down && run[5].down
  {
    AfterExitUp(root, tid, c, status);
    hide Inv, Boot, Allowing, Forking, AfterFork, AfterExit, Leads, RunBy;
    FirstSteps(root, tid, c);
    var k5 := LastSteps(root, tid, c, status, sid);
    run := [Boot(root, tid), Allowing(root, tid), Forking(root, tid, c),
      AfterFork(root, tid, c), AfterExit(root, tid, c, status), k5];
    SixStates(run, root, tid, c, status, sid);
  }

  lemma SixStates(run: seq<KState>, root: Pid, tid: nat, c: Pid, status: int, sid: nat)
    requires |run| == 6 && run[0] == Boot(root, tid) && Leads(run[0], AllowSignals({FSIG_CHLD}), run[1])
    requires Leads(run[1], Fork(Some(c)), run[2]) && Leads(run[2], Tick, run[3])
    requires Leads(run[3], ExitProcess(status), run[4]) && Leads(run[4], Signal(c, sid), run[5])
    ensures RunBy(run, ZombieSignal(c, status, sid), root, tid)
  {
    hide Step, CanRun, Fits, Boot;
  }

  /** The events determine the run. */
  lemma OneRun(run: seq<KState>, other: seq<KState>, evs: seq<Event>, root: Pid, tid: nat)
    requires RunBy(run, evs, root, tid) && RunBy(other, evs, root, tid)
    ensures run == other
  {
    hide Step, CanRun, Fits, Boot;
    var n := 0;
    while n < |evs|
      invariant n <= |evs| && forall i :: 0 <= i <= n ==> run[i] == other[i]
    {
      var e := evs[n];
      assert run[n + 1] == Step(run[n], e).k && other[n + 1] == Step(other[n], e).k;
      n := n + 1;
    }
  }

  lemma AfterExitUp(root: Pid, tid: nat, c: Pid, status: int)
    ensures !AfterExit(root, tid, c, status).down
  {
  }

  lemma ToDown(root: Pid, tid: nat, c: Pid, status: int, sid: nat)
    requires c != root && Inv(AfterExit(root, tid, c, status), {})
    ensures CanRun(AfterExit(root, tid, c, status)) && Step(AfterExit(root, tid, c, status), Signal(c, sid)).k.down
  {
    var k := AfterExit(root, tid, c, status);
    HeadRuns(k);
    SignalFails(k, c, sid);
    ZombieFamily(root, tid, c, status);
    hide Inv, AfterExit, SignalP;
  }

  lemma ZombieFamily(root: Pid, tid: nat, c: Pid, status: int)
    requires c != root
    ensures var k := AfterExit(root, tid, c, status);
      && c in k.tree && k.tree[c].exited && c in k.signals && k.signals[c] == Signals({}, {})
      && !k.down && k.sched.ring == [Thr(root, tid)] && root in k.tree
  {
  }
}
