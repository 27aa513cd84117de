/**
  Exit and signal, which call each other, keep the kernel invariant.
 */
module KernelKeeps {
  import opened ProcessTree
  import opened Scheduling
  import opened TimedQueue
  import opened KernelModel

  // ---------------------------------------------------------------------------
  // Changing only the scheduling part
  // ---------------------------------------------------------------------------

  /** From `s` to `t` threads only leave queues or the ring or start to run; nobody exits, nobody goes to sleep. */
  ghost predicate Calmer(s: Sched, t: Sched) {
    && t.threads.Keys == s.threads.Keys
    && (forall x {:trigger t.threads[x]} :: x in s.threads ==> CalmerThread(s.threads[x], t.threads[x]))
    && (forall q {:trigger Queue(t, q)} :: FewerWaiters(Queue(s, q), Queue(t, q)))
    && SleepersStaySorted(s, t)
  }

  ghost predicate CalmerThread(a: TState, b: TState) {
    a == b || ((a == Scheduled || a.Waiting?) && (b == Detached || b == Scheduled))
  }

  ghost predicate SleepersStaySorted(s: Sched, t: Sched) {
    forall now :: Sorted(now, Queue(s, SleepQ)) ==> Sorted(now, Queue(t, SleepQ))
  }

  ghost predicate FewerWaiters(l: seq<Waiter>, m: seq<Waiter>) {
    forall w :: w in m ==> w in l
  }

  lemma CalmerKeeps(k: KState, t: Sched, doomed: set<Pid>)
    requires Inv(k, doomed) && SchedInv(t) && Calmer(k.sched, t)
    ensures Inv(k.(sched := t), doomed)
  {
    var k' := k.(sched := t);
    forall x
      ensures OwnerOk(k', x)
    {
      assert OwnerOk(k, x);
      if x in t.threads { assert CalmerThread(k.sched.threads[x], t.threads[x]); }
    }
    forall p
      ensures ProcOk(k', p)
      ensures p !in doomed ==> SignalsOk(k', p)
    {
      CalmerProc(k, t, p);
      assert p !in doomed ==> SignalsOk(k, p);
      assert FewerWaiters(Queue(k.sched, SignalQ(p)), Queue(t, SignalQ(p)));
    }
  }

  lemma CalmerProc(k: KState, t: Sched, p: Pid)
    requires Calmer(k.sched, t) && (forall q {:trigger ProcOk(k, q)} :: ProcOk(k, q))
    ensures ProcOk(k.(sched := t), p)
  {
    var k' := k.(sched := t);
    assert ProcOk(k, p);
    assert FewerWaiters(Queue(k.sched, SignalQ(p)), Queue(t, SignalQ(p)));
    assert FewerWaiters(Queue(k.sched, JoinQ(p)), Queue(t, JoinQ(p)));
    assert MainOk(k', p) by {
      if p in k.tree && p in k.mains && !k.tree[p].exited {
        var x := Thr(p, k.mains[p]);
        assert MainOk(k, p);
        assert CalmerThread(k.sched.threads[x], t.threads[x]);
      }
    }
    forall w, i | w in Queue(t, JoinQ(p)) && i in w.mask && Thr(p, i) in t.threads
      ensures t.threads[Thr(p, i)] != Exited
    {
      assert JoinsOk(k, p);
      assert CalmerThread(k.sched.threads[Thr(p, i)], t.threads[Thr(p, i)]);
    }
  }

  lemma DetachAllCalmer(s: Sched, xs: set<Thr>)
    ensures Calmer(s, DetachAll(s, xs))
  {
    forall q
      ensures FewerWaiters(Queue(s, q), Queue(DetachAll(s, xs), q))
    {
      WithoutWaiterFacts(Queue(s, q), xs);
    }
    forall now | Sorted(now, Queue(s, SleepQ))
      ensures Sorted(now, Queue(DetachAll(s, xs), SleepQ))
    {
      WithoutSorted(now, Queue(s, SleepQ), xs);
    }
  }

  lemma WakeCalmer(s: Sched, q: QName, i: nat)
    requires SchedInv(s) && i < |Queue(s, q)|
    ensures Calmer(s, WakeAt(s, q, i))
  {
    var t := WakeAt(s, q, i);
    WakeKeeps(s, q, i);
    forall r
      ensures FewerWaiters(Queue(s, r), Queue(t, r))
    {
      if r == q {
        var l := Queue(s, q);
        assert Queue(t, q) == l[..i] + l[i + 1..];
      } else {
        assert Queue(t, r) == Queue(s, r);
      }
    }
    if q == SleepQ { CutSorted(Queue(s, q), i); }
    assert q != SleepQ ==> Queue(t, SleepQ) == Queue(s, SleepQ);
  }

  lemma CutSorted(l: seq<Waiter>, i: nat)
    requires i < |l|
    ensures forall now :: Sorted(now, l) ==> Sorted(now, l[..i] + l[i + 1..])
  {
    hide Remaining;
    var m := l[..i] + l[i + 1..];
    assert forall k :: 0 <= k < |m| ==> m[k] == l[if k < i then k else k + 1];
  }

  // ---------------------------------------------------------------------------
  // Changing only signals
  // ---------------------------------------------------------------------------

  lemma SetPendingKeeps(k: KState, p: Pid, pending: set<nat>, doomed: set<Pid>)
    requires Inv(k, doomed + {p}) && p in k.tree
    requires p in doomed || SignalsOk(SetPending(k, p, pending), p)
    ensures Inv(SetPending(k, p, pending), doomed)
  {
    var k' := SetPending(k, p, pending);
    forall x
      ensures OwnerOk(k', x)
    {
      assert OwnerOk(k, x);
    }
    forall q
      ensures ProcOk(k', q)
      ensures q !in doomed ==> SignalsOk(k', q)
    {
      assert ProcOk(k, q) && MainOk(k', q) && QueuesOwn(k', q) && JoinsOk(k', q);
      if q != p && q !in doomed { assert SignalsOk(k, q); }
    }
  }

  lemma NotifyKeeps(k: KState, p: Pid, sid: nat, doomed: set<Pid>)
    requires Inv(k, doomed + {p}) && p in k.tree && sid in k.signals[p].allowed && sid in k.signals[p].pending
    requires SignalsOk(SetPending(k, p, k.signals[p].pending - {sid}), p)
    ensures Inv(NotifySignal(k, p, sid), doomed)
  {
    var l := Queue(k.sched, SignalQ(p));
    var i := FirstMatch(l, sid);
    if i == |l| {
      assert k == SetPending(k, p, k.signals[p].pending);
      SetPendingKeeps(k, p, k.signals[p].pending, doomed);
    } else {
      SetPendingKeeps(k, p, k.signals[p].pending - {sid}, doomed);
      WakeKeeps(k.sched, SignalQ(p), i);
      WakeCalmer(k.sched, SignalQ(p), i);
      CalmerKeeps(SetPending(k, p, k.signals[p].pending - {sid}), WakeAt(k.sched, SignalQ(p), i), doomed);
    }
  }

  // ---------------------------------------------------------------------------
  // Changing only the tree
  // ---------------------------------------------------------------------------

  /** No thread of `p` is in the ring or asleep. */
  ghost predicate Stopped(k: KState, p: Pid) {
    forall x :: x in k.sched.threads && x.pid == p ==> k.sched.threads[x] == Detached || k.sched.threads[x] == Exited
  }

  lemma TreeKeeps(k: KState, t: Tree, before: set<Pid>, after: set<Pid>)
    requires Inv(k, before) && TreeInv(t, k.root) && Onward(k.tree, t)
    requires forall p :: p in t && t[p].exited && !k.tree[p].exited ==> Stopped(k, p)
    requires forall p :: p in before && p !in after ==> p in t && t[p].exited
    ensures Inv(k.(tree := t), after)
  {
    var k' := k.(tree := t);
    forall x
      ensures OwnerOk(k', x)
    {
      assert OwnerOk(k, x);
    }
    forall p
      ensures ProcOk(k', p)
      ensures p !in after ==> SignalsOk(k', p)
    {
      assert ProcOk(k, p) && MainOk(k', p) && QueuesOwn(k', p) && JoinsOk(k', p);
      if p !in before { assert SignalsOk(k, p); }
    }
  }

  lemma DisownedKeeps(k: KState, p: Pid, doomed: set<Pid>)
    requires Inv(k, doomed) && p in k.tree && p != k.root
    ensures Inv(Disowned(k, p), doomed) && Stopped(Disowned(k, p), p)
  {
    var xs := ThreadsOf(k, p);
    var k1 := k.(sched := DetachAll(k.sched, xs));
    DetachAllKeeps(k.sched, xs);
    DetachAllCalmer(k.sched, xs);
    CalmerKeeps(k, k1.sched, doomed);
    AdoptKeepsTree(k.tree, k.root, p);
    TreeKeeps(k1, Adopted(k.tree, k.root, p), doomed, doomed);
  }

  // ---------------------------------------------------------------------------
  // The recursion
  // ---------------------------------------------------------------------------

  /**
    Signalling a live process, whatever chain of forced exits it sets off, keeps the invariant and
    does not fail; the system may shut down. While `doomed` is on its way out only the root is signalled.
   */
  lemma {:induction false} SignalKeeps(k: KState, p: Pid, sid: nat, doomed: set<Pid>)
    requires Inv(k, doomed) && p in k.tree && !k.tree[p].exited && sid < NUM_SIGNALS
    requires k.root !in doomed && (p == k.root || doomed == {})
    ensures var r := SignalP(k, p, sid); r.ok && (r.k.down || Inv(r.k, doomed))
    decreases |Live(k.tree)|, if p == k.root then 0 else 1, 1
  {
    assert SignalsOk(k, p);
    if sid !in k.signals[p].pending {
      var k1 := SetPending(k, p, k.signals[p].pending + {sid});
      SetPendingKeeps(k, p, k1.signals[p].pending, doomed + {p});
      if sid in k.signals[p].allowed {
        assert SetPending(k1, p, k1.signals[p].pending - {sid}) == k by {
          assert k1.signals[p].pending - {sid} == k.signals[p].pending;
        }
        NotifyKeeps(k1, p, sid, doomed);
      } else if p != k.root {
        assert {} + {p} == {p};
        ExitKeeps(k1, p, PROC_ES_SIGNAL);
      }
    }
  }

  lemma InvParts(k: KState, doomed: set<Pid>)
    requires Inv(k, doomed)
    ensures Shaped(k) && SchedInv(k.sched) && QueuesOwn(k, k.root) && k.root in k.tree && !k.tree[k.root].exited
  {
    assert ProcOk(k, k.root);
  }

  /** Exit of a live process, whose own signals need not be in order any more. */
  lemma {:induction false} ExitKeeps(k: KState, p: Pid, status: int)
    requires Inv(k, {p}) && p in k.tree && !k.tree[p].exited
    ensures var r := ExitProcP(k, p, status); r.ok && (r.k.down || Inv(r.k, {}))
    decreases |Live(k.tree)|, if p == k.root then 0 else 1, 0
  {
    hide Inv, Shaped, Stopped, QueuesOwn, SchedInv, SignalP, BuryP, Live, DetachAll, Adopted;
    InvParts(k, {p});
    if p != k.root {
      DisownedShaped(k, p);
      DisownedKeeps(k, p, {p});
      var k1 := Disowned(k, p);
      var o := Outcome(k1, true);
      if k.tree[p].zombies != [] {
        o := SignalP(k1, k.root, FSIG_CHLD);
        InvParts(k1, {p});
        SignalRootLeavesStopped(k1, p);
        SignalKeeps(k1, k.root, FSIG_CHLD, {p});
      }
      if !o.k.down { BuryKeeps(o.k, p, status); }
    }
  }

  /** Whatever else runs because the root is signalled, no thread of another process starts. */
  lemma SignalRootLeavesStopped(k: KState, p: Pid)
    requires Shaped(k) && SchedInv(k.sched) && p in k.tree && p != k.root && Stopped(k, p) && QueuesOwn(k, k.root)
    ensures var r := SignalP(k, k.root, FSIG_CHLD); r.k.down || Stopped(r.k, p)
  {
    var l := Queue(k.sched, SignalQ(k.root));
    var i := FirstMatch(l, FSIG_CHLD);
    if i < |l| {
      WakeKeeps(k.sched, SignalQ(k.root), i);
      assert l[i] in l;
    }
  }

  lemma {:induction false} BuryKeeps(k: KState, p: Pid, status: int)
    requires Inv(k, {p}) && p in k.tree && p != k.root && !k.tree[p].exited && Stopped(k, p)
    requires k.tree[p].children == [] && k.tree[p].zombies == []
    ensures var r := BuryP(k, p, status); r.ok && (r.k.down || Inv(r.k, {}))
    decreases |Live(k.tree)|, 0, 0
  {
    ListedIffLive(k, p);
    BuriedShaped(k, p, status);
    TreeKeeps(k, Buried(k.tree, p, status), {p}, {});
    assert Placed(k.tree, p);
    SignalKeeps(BuriedK(k, p, status), k.tree[p].parent, FSIG_CHLD, {});
  }
}
