/**
  How far a forced exit can reach: only ancestors of the signalled process are affected.
 */
module KernelSpares {
  import opened ProcessTree
  import opened Scheduling
  import opened KernelModel
  import opened KernelKeeps

  /** `line` holds the root and, with every process, its parent. The ancestors of a process are the least such set. */
  ghost predicate UpClosed(t: Tree, root: Pid, line: set<Pid>) {
    root in line && forall q {:trigger t[q]} :: q in line && q in t && q != root ==> t[q].parent in line
  }

  ghost predicate SameProc(k: KState, k': KState, q: Pid) {
    && q in k.tree && q in k'.tree && k'.tree[q] == k.tree[q].(parent := k'.tree[q].parent)
    && q in k.signals && q in k'.signals && k'.signals[q] == k.signals[q]
  }

  ghost predicate SameThread(k: KState, k': KState, x: Thr) {
    x in k.sched.threads && x in k'.sched.threads && k'.sched.threads[x] == k.sched.threads[x]
  }

  /** Outside `line` processes keep state, signals and children, and threads keep their places. */
  ghost predicate Spared(k: KState, k': KState, line: set<Pid>) {
    && k'.root == k.root
    && (forall q {:trigger SameProc(k, k', q)} :: q in k.tree && q !in line ==> SameProc(k, k', q))
    && (forall x {:trigger SameThread(k, k', x)} :: x in k.sched.threads && x.pid !in line ==> SameThread(k, k', x))
    && UpClosed(k'.tree, k'.root, line)
  }

  lemma SparedTwice(a: KState, b: KState, c: KState, line: set<Pid>)
    requires Spared(a, b, line) && Spared(b, c, line)
    ensures Spared(a, c, line)
  {
    forall q | q in a.tree && q !in line
      ensures SameProc(a, c, q)
    {
      assert SameProc(a, b, q) && SameProc(b, c, q);
    }
    forall x | x in a.sched.threads && x.pid !in line
      ensures SameThread(a, c, x)
    {
      assert SameThread(a, b, x) && SameThread(b, c, x);
    }
  }

  lemma SetPendingSpares(k: KState, p: Pid, pending: set<nat>, line: set<Pid>)
    requires Shaped(k) && UpClosed(k.tree, k.root, line) && p in line && p in k.tree
    ensures Spared(k, SetPending(k, p, pending), line)
  {
  }

  lemma NotifySpares(k: KState, p: Pid, sid: nat, line: set<Pid>)
    requires Shaped(k) && SchedInv(k.sched) && QueuesOwn(k, p) && p in k.tree
    requires UpClosed(k.tree, k.root, line) && p in line
    ensures Spared(k, NotifySignal(k, p, sid), line)
  {
    hide SchedInv, TreeInv;
    var l := Queue(k.sched, SignalQ(p));
    var i := FirstMatch(l, sid);
    if i < |l| {
      WakeKeeps(k.sched, SignalQ(p), i);
      assert l[i] in l;
    }
  }

  lemma DisownedSpares(k: KState, p: Pid, line: set<Pid>)
    requires Shaped(k) && p in k.tree && p != k.root && UpClosed(k.tree, k.root, line) && p in line
    ensures Spared(k, Disowned(k, p), line)
  {
    hide Ranked;
    assert ListsSound(k.tree, k.root, p);
  }

  lemma BuriedSpares(k: KState, p: Pid, status: int, line: set<Pid>)
    requires Shaped(k) && p in k.tree && p != k.root && UpClosed(k.tree, k.root, line) && p in line
    ensures Placed(k.tree, p) && Spared(k, BuriedK(k, p, status), line)
  {
    hide Ranked;
    assert Placed(k.tree, p);
  }

  lemma {:induction false} SignalSpares(k: KState, p: Pid, sid: nat, doomed: set<Pid>, line: set<Pid>)
    requires Inv(k, doomed) && p in k.tree && !k.tree[p].exited && sid < NUM_SIGNALS
    requires k.root !in doomed && (p == k.root || doomed == {})
    requires UpClosed(k.tree, k.root, line) && p in line
    ensures Spared(k, SignalP(k, p, sid).k, line)
    decreases |Live(k.tree)|, if p == k.root then 0 else 1, 1
  {
    hide TreeInv, SchedInv, Spared, UpClosed, NotifySignal, Live;
    InvParts(k, doomed);
    assert ProcOk(k, p);
    SetPendingSpares(k, p, k.signals[p].pending, line);
    assert SetPending(k, p, k.signals[p].pending) == k;
    if sid !in k.signals[p].pending {
      var k1 := SetPending(k, p, k.signals[p].pending + {sid});
      SetPendingSpares(k, p, k1.signals[p].pending, line);
      SparedUp(k, k1, line);
      if sid in k.signals[p].allowed {
        NotifySpares(k1, p, sid, line);
        SparedTwice(k, k1, NotifySignal(k1, p, sid), line);
      } else {
        SetPendingKeepsFor(k, p, sid, doomed);
        ExitSpares(k1, p, PROC_ES_SIGNAL, line);
        SparedTwice(k, k1, ExitProcP(k1, p, PROC_ES_SIGNAL).k, line);
      }
    }
  }

  lemma SparedUp(k: KState, k': KState, line: set<Pid>)
    requires Spared(k, k', line)
    ensures UpClosed(k'.tree, k'.root, line)
  {
  }

  lemma SetPendingKeepsFor(k: KState, p: Pid, sid: nat, doomed: set<Pid>)
    requires Inv(k, doomed) && p in k.tree && (p == k.root || doomed == {})
    ensures p == k.root || Inv(SetPending(k, p, k.signals[p].pending + {sid}), {p})
    ensures Shaped(SetPending(k, p, k.signals[p].pending + {sid}))
  {
    hide TreeInv, SchedInv, SetPending;
    InvParts(k, doomed);
    var k1 := SetPending(k, p, k.signals[p].pending + {sid});
    SetPendingKeeps(k, p, k.signals[p].pending + {sid}, doomed + {p});
    InvParts(k1, doomed + {p});
    if p != k.root { assert {} + {p} == {p}; }
  }

  /**
    When a process is made to exit, every process that is not one of its ancestors keeps its state,
    its signals, its children and its threads; at most it gets the root for a parent.
   */
  lemma {:induction false} ExitSpares(k: KState, p: Pid, status: int, line: set<Pid>)
    requires Shaped(k) && (p == k.root || Inv(k, {p})) && p in k.tree && !k.tree[p].exited
    requires UpClosed(k.tree, k.root, line) && p in line
    ensures Spared(k, ExitProcP(k, p, status).k, line)
    decreases |Live(k.tree)|, if p == k.root then 0 else 1, 0
  {
    hide Inv, Shaped, UpClosed, Spared, Stopped, QueuesOwn, SchedInv, SignalP, BuryP, Live, DetachAll, Adopted;
    if p == k.root {
      RootExitSpares(k, status, line);
    } else {
      InvParts(k, {p});
      DisownedShaped(k, p);
      DisownedKeeps(k, p, {p});
      DisownedSpares(k, p, line);
      var k1 := Disowned(k, p);
      SparedUp(k, k1, line);
      var o := Outcome(k1, true);
      if k.tree[p].zombies != [] {
        o := SignalP(k1, k.root, FSIG_CHLD);
        InvParts(k1, {p});
        SignalRootLeavesStopped(k1, p);
        SignalKeeps(k1, k.root, FSIG_CHLD, {p});
        RootInLine(k1, line);
        SignalSpares(k1, k1.root, FSIG_CHLD, {p}, line);
        SparedTwice(k, k1, o.k, line);
        SparedUp(k1, o.k, line);
      }
      if !o.k.down {
        BurySpares(o.k, p, status, line);
        SparedTwice(k, o.k, BuryP(o.k, p, status).k, line);
      }
    }
  }

  lemma RootInLine(k: KState, line: set<Pid>)
    requires UpClosed(k.tree, k.root, line)
    ensures k.root in line
  {
  }

  lemma RootExitSpares(k: KState, status: int, line: set<Pid>)
    requires Shaped(k) && k.root in k.tree && UpClosed(k.tree, k.root, line)
    ensures Spared(k, ExitProcP(k, k.root, status).k, line)
  {
    assert ExitProcP(k, k.root, status).k == k.(down := true);
  }

  lemma {:induction false} BurySpares(k: KState, p: Pid, status: int, line: set<Pid>)
    requires Inv(k, {p}) && p in k.tree && p != k.root && !k.tree[p].exited && Stopped(k, p)
    requires k.tree[p].children == [] && k.tree[p].zombies == []
    requires UpClosed(k.tree, k.root, line) && p in line
    ensures Spared(k, BuryP(k, p, status).k, line)
    decreases |Live(k.tree)|, 0, 0
  {
    hide Spared, SchedInv, TreeInv;
    ListedIffLive(k, p);
    BuriedShaped(k, p, status);
    BuriedSpares(k, p, status, line);
    BuryKeepsInv(k, p, status);
    SparedUp(k, BuriedK(k, p, status), line);
    var q := k.tree[p].parent;
    SignalSpares(BuriedK(k, p, status), q, FSIG_CHLD, {}, line);
    SparedTwice(k, BuriedK(k, p, status), SignalP(BuriedK(k, p, status), q, FSIG_CHLD).k, line);
  }

  lemma BuryKeepsInv(k: KState, p: Pid, status: int)
    requires Inv(k, {p}) && p in k.tree && p != k.root && !k.tree[p].exited && Stopped(k, p)
    requires k.tree[p].children == [] && k.tree[p].zombies == []
    ensures Placed(k.tree, p) && Inv(BuriedK(k, p, status), {})
  {
    BuriedShaped(k, p, status);
    TreeKeeps(k, Buried(k.tree, p, status), {p}, {});
  }
}
