/**
  The kernel's process and thread state as a value, the transitions of the system calls as
  functions on it, and the invariant every transition keeps.
 */
module KernelModel {
  import opened ProcessTree
  import opened Scheduling
  import opened TimedQueue

  const NUM_SIGNALS := 32
  const FSIG_CHLD := 0
  const PROC_ES_SIGNAL := 5

  datatype Signals = Signals(pending: set<nat>, allowed: set<nat>)

  /** `down` is the terminal state that ks_shutdown enters. */
  datatype KState = KState(
    root: Pid, down: bool, now: U32, tree: Tree, signals: map<Pid, Signals>, mains: map<Pid, nat>, sched: Sched)

  datatype Outcome = Outcome(k: KState, ok: bool)

  ghost predicate Shaped(k: KState) {
    && TreeInv(k.tree, k.root)
    && k.signals.Keys == k.tree.Keys
    && k.mains.Keys == k.tree.Keys
  }

  /** A thread belongs to a known process, and an exited process has no thread in the ring or asleep. */
  ghost predicate OwnerOk(k: KState, x: Thr) {
    x in k.sched.threads ==>
      && x.pid in k.tree
      && (k.tree[x.pid].exited ==> k.sched.threads[x] == Detached || k.sched.threads[x] == Exited)
  }

  ghost predicate MainOk(k: KState, p: Pid) {
    p in k.tree && p in k.mains && !k.tree[p].exited ==>
      Thr(p, k.mains[p]) in k.sched.threads && k.sched.threads[Thr(p, k.mains[p])] != Exited
  }

  /** The process's own wait queues hold only its own threads. */
  ghost predicate QueuesOwn(k: KState, p: Pid) {
    && (forall w :: w in Queue(k.sched, JoinQ(p)) ==> w.thr.pid == p)
    && (forall w :: w in Queue(k.sched, SignalQ(p)) ==> w.thr.pid == p)
  }

  /** A live process's pending signals are allowed, and nobody waits for a pending one. */
  ghost predicate SignalsOk(k: KState, p: Pid) {
    p in k.signals && p in k.tree && !k.tree[p].exited ==>
      && k.signals[p].pending <= k.signals[p].allowed
      && forall w :: w in Queue(k.sched, SignalQ(p)) ==> w.mask !! k.signals[p].pending
  }

  /** Nobody waits to join a thread that has already exited. */
  ghost predicate JoinsOk(k: KState, p: Pid) {
    forall w, t :: w in Queue(k.sched, JoinQ(p)) && t in w.mask && Thr(p, t) in k.sched.threads ==>
      k.sched.threads[Thr(p, t)] != Exited
  }

  ghost predicate ProcOk(k: KState, p: Pid) {
    MainOk(k, p) && QueuesOwn(k, p) && JoinsOk(k, p)
  }

  /** The invariant; the signals of a process in `doomed`, which is on its way out, are excused. */
  ghost predicate Inv(k: KState, doomed: set<Pid>) {
    && Shaped(k)
    && SchedInv(k.sched)
    && Sorted(k.now, Queue(k.sched, SleepQ))
    && (forall x {:trigger OwnerOk(k, x)} :: OwnerOk(k, x))
    && (forall p {:trigger ProcOk(k, p)} :: ProcOk(k, p))
    && (forall p {:trigger SignalsOk(k, p)} :: p !in doomed ==> SignalsOk(k, p))
  }

  // ---------------------------------------------------------------------------
  // Exit and signal
  // ---------------------------------------------------------------------------

  ghost function ThreadsOf(k: KState, p: Pid): set<Thr> {
    set x | x in k.sched.threads && x.pid == p
  }

  function SetPending(k: KState, p: Pid, pending: set<nat>): KState
    requires p in k.signals
  {
    k.(signals := k.signals[p := k.signals[p].(pending := pending)])
  }

  /** The first waiter for `sid`, if any, takes the signal and runs. */
  function NotifySignal(k: KState, p: Pid, sid: nat): KState
    requires p in k.signals
  {
    var l := Queue(k.sched, SignalQ(p));
    var i := FirstMatch(l, sid);
    if i == |l| then k
    else SetPending(k, p, k.signals[p].pending - {sid}).(sched := WakeAt(k.sched, SignalQ(p), i))
  }

  /** The threads of a dying process stop and its children go to the root; the root still has to be told. */
  ghost function Disowned(k: KState, p: Pid): KState
    requires k.root in k.tree && p in k.tree
  {
    k.(sched := DetachAll(k.sched, ThreadsOf(k, p)), tree := Adopted(k.tree, k.root, p))
  }

  lemma DisownedShaped(k: KState, p: Pid)
    requires Shaped(k) && p in k.tree && p != k.root
    ensures Shaped(Disowned(k, p))
    ensures var t := Disowned(k, p).tree;
      && Live(t) == Live(k.tree) && Onward(k.tree, t) && t[p].parent == k.tree[p].parent
      && t[p].exited == k.tree[p].exited && t[p].children == [] && t[p].zombies == []
  {
    AdoptKeepsTree(k.tree, k.root, p);
    AdoptKeepsLive(k.tree, k.root, p);
    ParentStays(k.tree, k.root, p);
  }

  /** Everything known before still exists, and what was dead stays dead. */
  ghost predicate Onward(t: Tree, t': Tree) {
    && t'.Keys == t.Keys
    && forall q :: q in t && t[q].exited ==> t'[q].exited
  }

  /** The process leaves its parent's children and joins its zombies. */
  function BuriedK(k: KState, p: Pid, status: int): KState
    requires p in k.tree && k.tree[p].parent in k.tree && k.tree[p].parent != p
  {
    k.(tree := Buried(k.tree, p, status))
  }

  /** Popping the process from its parent's children succeeds exactly when it has not exited yet. */
  lemma ListedIffLive(k: KState, p: Pid)
    requires Shaped(k) && p in k.tree && p != k.root
    ensures Placed(k.tree, p)
    ensures p in k.tree[k.tree[p].parent].children <==> !k.tree[p].exited
  {
    assert Placed(k.tree, p);
    assert ListsSound(k.tree, k.root, k.tree[p].parent);
  }

  lemma BuriedShaped(k: KState, p: Pid, status: int)
    requires Shaped(k) && p in k.tree && p != k.root && !k.tree[p].exited
    requires k.tree[p].children == [] && k.tree[p].zombies == []
    ensures Placed(k.tree, p) && Shaped(BuriedK(k, p, status)) && Onward(k.tree, BuriedK(k, p, status).tree)
    ensures |Live(BuriedK(k, p, status).tree)| < |Live(k.tree)|
  {
    BuryKeepsTree(k.tree, k.root, p, status);
    BuryDropsLive(k.tree, k.root, p, status);
  }

  /** ks_signal_p */
  ghost function SignalP(k: KState, p: Pid, sid: nat): (r: Outcome)
    requires Shaped(k) && p in k.tree
    ensures Shaped(r.k) && r.k.root == k.root && Onward(k.tree, r.k.tree)
    ensures p == k.root && !r.k.down ==> r.k.tree == k.tree
    decreases |Live(k.tree)|, if p == k.root then 0 else 1, 1
  {
    if sid >= NUM_SIGNALS then Outcome(k, false)
    else if sid in k.signals[p].pending then Outcome(k, true)
    else
      var k1 := SetPending(k, p, k.signals[p].pending + {sid});
      if sid !in k.signals[p].allowed then ExitProcP(k1, p, PROC_ES_SIGNAL)
      else Outcome(NotifySignal(k1, p, sid), true)
  }

  /** ks_exit_proc_p */
  ghost function ExitProcP(k: KState, p: Pid, status: int): (r: Outcome)
    requires Shaped(k) && p in k.tree
    ensures Shaped(r.k) && r.k.root == k.root && Onward(k.tree, r.k.tree)
    ensures p == k.root ==> r.k.down
    decreases |Live(k.tree)|, if p == k.root then 0 else 1, 0
  {
    if p == k.root then Outcome(k.(down := true), true)
    else
      DisownedShaped(k, p);
      var k1 := Disowned(k, p);
      var o := if k.tree[p].zombies != [] then SignalP(k1, k.root, FSIG_CHLD) else Outcome(k1, true);
      if o.k.down || !o.ok then o else BuryP(o.k, p, status)
  }

  /** The end of ks_exit_proc_p: from child to zombie, then the parent is told. */
  ghost function BuryP(k: KState, p: Pid, status: int): (r: Outcome)
    requires Shaped(k) && p in k.tree && p != k.root && k.tree[p].children == [] && k.tree[p].zombies == []
    ensures Shaped(r.k) && r.k.root == k.root && Onward(k.tree, r.k.tree)
    decreases |Live(k.tree)|, 0, 0
  {
    ListedIffLive(k, p);
    var q := k.tree[p].parent;
    if p !in k.tree[q].children then Outcome(k, false)
    else
      BuriedShaped(k, p, status);
      SignalP(BuriedK(k, p, status), q, FSIG_CHLD)
  }
}
