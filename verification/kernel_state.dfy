/**
  The kernel state as it is updated in place: each operation changes the fields step by step and is
  proved to be the transition of KernelModel and KernelCalls with its name.
 */
module KernelInPlace {
  import opened ProcessTree
  import opened Scheduling
  import opened TimedQueue
  import opened KernelModel
  import opened KernelKeeps
  import opened KernelCalls
  import opened KernelSpares
  import opened KernelRuns

  function AfterAdoption(t: Tree, root: Pid, p: Pid, c: Pid): Family
    requires p in t && c in t
  {
    if c == root then t[c].(children := t[c].children + t[p].children, zombies := t[c].zombies + t[p].zombies)
    else if c == p then t[c].(children := [], zombies := [])
    else if c in t[p].children || c in t[p].zombies then t[c].(parent := root) else t[c]
  }

  lemma ReparentedIsAdopted(t: Tree, t': Tree, root: Pid, p: Pid)
    requires TreeInv(t, root) && p in t && p != root && t'.Keys == t.Keys
    requires forall c :: c in t ==> t'[c] == AfterAdoption(t, root, p, c)
    ensures t' == Adopted(t, root, p)
  {
  }

  lemma FirstMatchIs(l: seq<Waiter>, id: nat, i: nat)
    requires i <= |l| && (forall k :: 0 <= k < i ==> id !in l[k].mask) && (i < |l| ==> id in l[i].mask)
    ensures FirstMatch(l, id) == i
  {
    var f := FirstMatch(l, id);
    assert f < |l| ==> id in l[f].mask;
  }

  /** The tree part of Disowned, and the signal to the root. */
  ghost function Abandoned(k: KState, p: Pid): Outcome
    requires Shaped(k) && p in k.tree && p != k.root
  {
    AdoptKeepsTree(k.tree, k.root, p);
    var k1 := k.(tree := Adopted(k.tree, k.root, p));
    if k.tree[p].zombies != [] then SignalP(k1, k.root, FSIG_CHLD) else Outcome(k1, true)
  }

  lemma AdoptInv(k: KState, p: Pid)
    requires Inv(k, {p}) && p in k.tree && p != k.root
    ensures Shaped(k) && k.root in k.tree && TreeInv(k.tree, k.root)
    ensures var k1 := k.(tree := Adopted(k.tree, k.root, p));
      Shaped(k1) && Inv(k1, {p}) && k.root in k1.tree && Live(k1.tree) == Live(k.tree)
  {
    hide SchedInv;
    AdoptKeepsTree(k.tree, k.root, p);
    AdoptKeepsLive(k.tree, k.root, p);
    TreeKeeps(k, Adopted(k.tree, k.root, p), {p}, {p});
  }

  lemma RootExits(k: KState, status: int)
    requires Shaped(k) && k.root in k.tree
    ensures ExitProcP(k, k.root, status) == Outcome(k.(down := true), true)
  {
  }

  ghost predicate ReadyToBury(k: KState, p: Pid) {
    && Inv(k, {p}) && p in k.tree && p != k.root && Stopped(k, p)
    && k.tree[p].children == [] && k.tree[p].zombies == []
  }

  lemma ExitStages(k: KState, p: Pid, status: int) returns (k1: KState)
    requires Inv(k, {p}) && Shaped(k) && p in k.tree && p != k.root
    ensures SchedInv(k.sched)
    ensures k1 == k.(sched := DetachAll(k.sched, ThreadsOf(k, p)))
    ensures Inv(k1, {p}) && Shaped(k1) && k1.(tree := Adopted(k1.tree, k1.root, p)) == Disowned(k, p)
    ensures var o := Abandoned(k1, p);
      o.k.down || (o.ok && ReadyToBury(o.k, p) && Live(o.k.tree) == Live(k.tree))
    ensures var o := Abandoned(k1, p);
      ExitProcP(k, p, status) == if o.k.down || !o.ok then o else BuryP(o.k, p, status)
  {
    hide Inv, Shaped, TreeInv, Stopped, QueuesOwn, SignalP, BuryP, Live, Adopted, DetachAll, SchedInv;
    var xs := ThreadsOf(k, p);
    k1 := k.(sched := DetachAll(k.sched, xs));
    InvParts(k, {p});
    DetachAllKeeps(k.sched, xs);
    DetachAllCalmer(k.sched, xs);
    CalmerKeeps(k, DetachAll(k.sched, xs), {p});
    InvParts(k1, {p});
    DisownedKeeps(k, p, {p});
    DisownedShaped(k, p);
    var k2 := Disowned(k, p);
    InvParts(k2, {p});
    if k.tree[p].zombies != [] {
      SignalKeeps(k2, k.root, FSIG_CHLD, {p});
      SignalRootLeavesStopped(k2, p);
    }
  }

  lemma BuryStages(k: KState, p: Pid, status: int)
    requires Inv(k, {p}) && p in k.tree && p != k.root && Stopped(k, p)
    requires k.tree[p].children == [] && k.tree[p].zombies == []
    ensures Shaped(k) && Placed(k.tree, p)
    ensures k.tree[p].exited <==> p !in k.tree[k.tree[p].parent].children
    ensures !k.tree[p].exited ==>
      Inv(BuriedK(k, p, status), {}) && Shaped(BuriedK(k, p, status))
        && |Live(BuriedK(k, p, status).tree)| < |Live(k.tree)|
  {
    hide SchedInv, Live, Ranked;
    ListedIffLive(k, p);
    if !k.tree[p].exited {
      BuriedShaped(k, p, status);
      BuryKeepsInv(k, p, status);
    }
  }

  lemma SignalStages(k: KState, p: Pid, sid: nat, doomed: set<Pid>)
    requires Inv(k, doomed) && p in k.tree && (p == k.root || doomed == {})
    ensures Shaped(k) && p in k.signals
    ensures Shaped(SetPending(k, p, k.signals[p].pending + {sid}))
    ensures p == k.root || Inv(SetPending(k, p, k.signals[p].pending + {sid}), {p})
  {
    hide TreeInv, SchedInv, Sorted, OwnerOk, ProcOk;
    InvParts(k, doomed);
    SetPendingKeepsFor(k, p, sid, doomed);
  }

  class Kernel {
    const root: Pid
    var down: bool
    var now: U32
    var tree: Tree
    var signals: map<Pid, Signals>
    var mains: map<Pid, nat>
    var threads: map<Thr, TState>
    var queues: map<QName, seq<Waiter>>
    var ring: seq<Thr>

    ghost function State(): KState
      reads this
    {
      KState(root, down, now, tree, signals, mains, Sched(threads, queues, ring))
    }

    constructor (root: Pid, tid: nat)
      ensures State() == Boot(root, tid) && Inv(State(), {})
    {
      this.root, down, now := root, false, 0;
      tree := map[root := Family(root, false, 0, [], [])];
      signals := map[root := Signals({}, {})];
      mains := map[root := tid];
      threads := map[Thr(root, tid) := Scheduled];
      queues := map[];
      ring := [Thr(root, tid)];
      BootInv(root, tid);
    }

    function QueueOf(q: QName): seq<Waiter>
      reads this
    {
      if q in queues then queues[q] else []
    }

    // -------------------------------------------------------------------------
    // Threads
    // -------------------------------------------------------------------------

    method ThreadDetach(x: Thr)
      requires x in threads
      modifies this`threads, this`queues, this`ring
      ensures State() == old(State()).(sched := DetachOne(old(State().sched), x))
    {
      match threads[x]
      case Waiting(q) =>
        var l := RemoveWaiters(QueueOf(q), x);
        queues := queues[q := l];
        threads := threads[x := Detached];
      case Scheduled =>
        ring := RemoveThreads(ring, x);
        threads := threads[x := Detached];
      case _ =>
    }

    /** Of a detached thread, or of one that is just made. */
    method ThreadSchedule(x: Thr)
      modifies this`threads, this`ring
      ensures State() == old(State()).(sched := ScheduleOne(old(State().sched), x))
    {
      ring := ring + [x];
      threads := threads[x := Scheduled];
    }

    method PopWaiter(q: QName, i: nat) returns (x: Thr)
      requires i < |QueueOf(q)|
      modifies this`threads, this`queues, this`ring
      ensures State() == old(State()).(sched := WakeAt(old(State().sched), q, i)) && x == old(QueueOf(q))[i].thr
    {
      var l := QueueOf(q);
      x := l[i].thr;
      queues := queues[q := l[..i] + l[i + 1..]];
      threads := threads[x := Detached];
      ThreadSchedule(x);
    }

    /** The scan of vwq_notify in its first-match mode. */
    method FindWaiter(q: QName, id: nat) returns (i: nat)
      ensures i == FirstMatch(QueueOf(q), id) && i <= |QueueOf(q)|
    {
      i := 0;
      var l := QueueOf(q);
      while i < |l| && id !in l[i].mask
        invariant 0 <= i <= |l|
        invariant forall k :: 0 <= k < i ==> id !in l[k].mask
      {
        i := i + 1;
      }
      FirstMatchIs(l, id, i);
    }

    method DetachThreads(p: Pid)
      requires SchedInv(State().sched)
      modifies this`threads, this`queues, this`ring
      ensures State() == old(State()).(sched := DetachAll(old(State().sched), ThreadsOf(old(State()), p)))
    {
      var todo := set x | x in threads && x.pid == p;
      ghost var all, done, s0 := todo, {}, State().sched;
      DetachNone(s0);
      while todo != {}
        invariant done + todo == all && done !! todo
        invariant State() == old(State()).(sched := DetachAll(s0, done))
        invariant SchedInv(State().sched) && threads.Keys == s0.threads.Keys
        decreases |todo|
      {
        var x :| x in todo;
        DetachOneIsDetachAll(State().sched, x);
        DetachAllKeeps(State().sched, {x});
        DetachAllTwice(s0, done, {x});
        ThreadDetach(x);
        todo := todo - {x};
        done := done + {x};
      }
    }

    // -------------------------------------------------------------------------
    // Exit and signal
    // -------------------------------------------------------------------------

    method Reparent(l: seq<Pid>)
      requires forall c :: c in l ==> c in tree
      modifies this`tree
      ensures tree.Keys == old(tree).Keys
      ensures forall c :: c in tree ==> tree[c] == if c in l then old(tree)[c].(parent := root) else old(tree)[c]
    {
      var i := 0;
      while i < |l|
        invariant 0 <= i <= |l| && tree.Keys == old(tree).Keys
        invariant forall c :: c in tree ==>
          tree[c] == if c in l[..i] then old(tree)[c].(parent := root) else old(tree)[c]
      {
        tree := tree[l[i] := tree[l[i]].(parent := root)];
        assert l[..i + 1] == l[..i] + [l[i]];
        i := i + 1;
      }
      assert l[..i] == l;
    }

    /** All children, dead or alive, go to the root. */
    method GiveChildrenToRoot(p: Pid)
      requires TreeInv(tree, root) && p in tree && p != root
      modifies this`tree
      ensures tree == Adopted(old(tree), root, p)
    {
      ghost var t := tree;
      var children, zombies := tree[p].children, tree[p].zombies;
      ChildrenApart(t, root, p);
      Reparent(children);
      tree := tree[root := tree[root].(children := tree[root].children + children)];
      tree := tree[p := tree[p].(children := [])];
      Reparent(zombies);
      tree := tree[root := tree[root].(zombies := tree[root].zombies + zombies)];
      tree := tree[p := tree[p].(zombies := [])];
      ReparentedIsAdopted(t, tree, root, p);
    }

    /** Of a process other than the root; adopted zombies are announced to the root. */
    method AbandonChildren(p: Pid) returns (ok: bool)
      requires Inv(State(), {p}) && p in tree && p != root
      modifies this
      ensures var o := Abandoned(old(State()), p); State() == o.k && ok == o.ok
      decreases |Live(tree)|, 1, 1
    {
      hide Inv, Shaped, SignalP, TreeInv, Adopted, Live;
      ghost var k := State();
      AdoptInv(k, p);
      var signalRoot := tree[p].zombies != [];
      GiveChildrenToRoot(p);
      ok := true;
      if signalRoot {
        ok := SignalProc(root, FSIG_CHLD, {p});
      }
    }

    /** l_pop_ele */
    method PopPid(l: seq<Pid>, p: Pid) returns (r: seq<Pid>, found: bool)
      ensures r == Drop(l, p) && (found <==> p in l)
    {
      var i := 0;
      while i < |l| && l[i] != p
        invariant 0 <= i <= |l| && p !in l[..i]
        invariant Drop(l, p) == l[..i] + Drop(l[i..], p)
      {
        assert l[i..][1..] == l[i + 1..];
        assert l[..i] + ([l[i]] + Drop(l[i + 1..], p)) == l[..i + 1] + Drop(l[i + 1..], p);
        i := i + 1;
      }
      if i == |l| {
        assert l[..i] + [] == l;
        return l, false;
      }
      assert l[i..][1..] == l[i + 1..] && l[i] == p;
      return l[..i] + l[i + 1..], true;
    }

    method ExitProc(p: Pid, status: int) returns (ok: bool)
      requires p in tree && Shaped(State()) && (p == root || Inv(State(), {p}))
      modifies this
      ensures var o := ExitProcP(old(State()), p, status); State() == o.k && ok == o.ok
      decreases |Live(tree)|, if p == root then 0 else 1, 2
    {
      hide Inv, Shaped, TreeInv, Live, ExitProcP, Abandoned, BuryP, SchedInv, ReadyToBury, DetachAll;
      ghost var k := State();
      if p == root {
        RootExits(k, status);
        down := true;
        return true;
      }
      ghost var k1 := ExitStages(k, p, status);
      DetachThreads(p);
      ok := AbandonChildren(p);
      if down || !ok {
        return;
      }
      ok := Bury(p, status);
    }

    /** The end of the exit: out of the parent's children, into its zombies, and the parent is told. */
    method Bury(p: Pid, status: int) returns (ok: bool)
      requires ReadyToBury(State(), p)
      modifies this
      ensures var o := BuryP(old(State()), p, status); State() == o.k && ok == o.ok
      decreases |Live(tree)|, 1, 0
    {
      hide Inv, Shaped, TreeInv, Live, SignalP, Stopped, SchedInv, Onward, Drop;
      ghost var k := State();
      BuryStages(k, p, status);
      var q := tree[p].parent;
      var left, found := PopPid(tree[q].children, p);
      if !found {
        return false;
      }
      tree := tree[q := tree[q].(children := left)];
      tree := tree[p := tree[p].(exited := true, status := status)];
      tree := tree[q := tree[q].(zombies := tree[q].zombies + [p])];
      assert tree == Buried(k.tree, p, status);
      ok := SignalProc(q, FSIG_CHLD, {});
    }

    method SignalProc(p: Pid, sid: nat, ghost doomed: set<Pid>) returns (ok: bool)
      requires Inv(State(), doomed) && p in tree
      requires p == root || doomed == {}
      modifies this
      ensures var o := SignalP(old(State()), p, sid); State() == o.k && ok == o.ok
      decreases |Live(tree)|, if p == root then 0 else 1, 3
    {
      hide Inv, Shaped, TreeInv, Live, SchedInv, ExitProcP, WakeAt;
      ghost var k := State();
      SignalStages(k, p, sid, doomed);
      if sid >= NUM_SIGNALS {
        return false;
      }
      if sid in signals[p].pending {
        return true;
      }
      signals := signals[p := signals[p].(pending := signals[p].pending + {sid})];
      if sid !in signals[p].allowed {
        ok := ExitProc(p, PROC_ES_SIGNAL);
        return;
      }
      var i := FindWaiter(SignalQ(p), sid);
      if i < |QueueOf(SignalQ(p))| {
        signals := signals[p := signals[p].(pending := signals[p].pending - {sid})];
        var woken := PopWaiter(SignalQ(p), i);
      }
      ok := true;
    }

    // -------------------------------------------------------------------------
    // System calls of thread `x`
    // -------------------------------------------------------------------------

    method ForkProc(x: Thr, child: Option<Pid>) returns (reply: Reply)
      requires x.pid in tree && x in threads && Shaped(State())
      modifies this
      ensures After(State(), reply) == Call(old(State()), x, Fork(child))
    {
      hide Shaped;
      if child == None {
        return NoMem;
      }
      var c := child.value;
      tree := tree[x.pid := tree[x.pid].(children := tree[x.pid].children + [c])];
      tree := tree[c := Family(x.pid, false, 0, [], [])];
      signals := signals[c := Signals({}, {})];
      mains := mains[c := x.tid];
      ThreadSchedule(Thr(c, x.tid));
      return Reply.Forked(c);
    }

    /** The caller, in the kernel's dispatch, stops the system after an error it cannot recover from. */
    method SettleCall(ok: bool)
      modifies this`down
      ensures State() == Settle(Outcome(old(State()), ok), NoReply).k
    {
      if !ok {
        down := true;
      }
    }

    method DeleteProcess(z: Pid)
      modifies this`tree, this`signals, this`mains, this`threads, this`queues
      ensures var k := old(State());
        State() == k.(
        tree := k.tree - {z}, signals := k.signals - {z}, mains := k.mains - {z},
        sched := Sched(
          map x | x in k.sched.threads && x.pid != z :: k.sched.threads[x],
          k.sched.queues - {JoinQ(z), SignalQ(z)},
          k.sched.ring))
    {
      threads := map x | x in threads && x.pid != z :: threads[x];
      queues := queues - {JoinQ(z), SignalQ(z)};
      signals, mains, tree := signals - {z}, mains - {z}, tree - {z};
    }

    /** ks_reap_proc; without a process ID any zombie will do. */
    method ReapProc(x: Thr, which: Option<Pid>) returns (reply: Reply)
      requires Inv(State(), {}) && x.pid in tree && x in threads && Shaped(State())
      modifies this
      ensures After(State(), reply) == Call(old(State()), x, if which == None then ReapAny else Reap(which.value))
    {
      hide TreeInv, SchedInv, OwnerOk, ProcOk, SignalsOk;
      var p := x.pid;
      var z;
      if which == None {
        if tree[p].zombies == [] {
          return Empty;
        }
        z := tree[p].zombies[0];
        FirstZombie(tree, root, p);
        tree := tree[p := tree[p].(zombies := tree[p].zombies[1..])];
      } else {
        z := which.value;
        if z !in tree || z == root || tree[z].parent != p {
          return Mismatch;
        }
        if !tree[z].exited {
          return Empty;
        }
        var left, found := PopPid(tree[p].zombies, z);
        if !found {
          down := true;
          return NoReply;
        }
        ZombieApart(tree, root, p, z);
        tree := tree[p := tree[p].(zombies := left)];
      }
      reply := Dead(z, tree[z].status);
      DeleteProcess(z);
    }

    method SignalTo(x: Thr, target: Option<Pid>, sid: nat) returns (reply: Reply)
      requires Inv(State(), {}) && x.pid in tree && Shaped(State())
      modifies this
      ensures After(State(), reply) == SignalCall(old(State()), x, target, sid)
    {
      hide Inv, Shaped, SignalP;
      if target == None || target.value !in tree {
        return Mismatch;
      }
      var ok := SignalProc(target.value, sid, {});
      reply := if tree[x.pid].exited then NoReply else Success;
      SettleCall(ok);
    }

    method AllowSignal(p: Pid, v: Bits) returns (reply: Reply)
      requires Inv(State(), {}) && p in tree && Shaped(State())
      modifies this
      ensures After(State(), reply) == AllowCall(old(State()), p, v)
    {
      hide Inv, Shaped, ExitProcP;
      ghost var k := State();
      AllowStage(k, p, v);
      reply := OldMask(signals[p].allowed);
      signals := signals[p := signals[p].(allowed := v)];
      if !(signals[p].pending <= v) {
        var ok := ExitProc(p, PROC_ES_SIGNAL);
        SettleCall(ok);
        reply := NoReply;
      }
    }

    method WaitForSignal(x: Thr, v: Bits) returns (reply: Reply)
      requires x.pid in tree && x in threads && threads[x] == Scheduled && Shaped(State())
      modifies this
      ensures After(State(), reply) == WaitCall(old(State()), x, v)
    {
      hide TreeInv;
      if v == {} {
        return BadArgs;
      }
      var s := 0;
      while s < 32 && !(s in v && s in signals[x.pid].pending)
        invariant 0 <= s <= 32
        invariant Lowest(v * signals[x.pid].pending, 0) == Lowest(v * signals[x.pid].pending, s)
      {
        s := s + 1;
      }
      if s < 32 {
        signals := signals[x.pid := signals[x.pid].(pending := signals[x.pid].pending - {s})];
        return Signalled(s);
      }
      WaitIn(x, SignalQ(x.pid), v);
      return NoReply;
    }

    method WaitIn(x: Thr, q: QName, mask: set<nat>)
      requires x in threads && threads[x] == Scheduled
      modifies this`threads, this`queues, this`ring
      ensures State() == EnterLast(old(State()), x, q, mask)
    {
      queues := queues[q := QueueOf(q) + [Waiter(x, mask, 0)]];
      ThreadDetach(x);
      threads := threads[x := Waiting(q)];
    }

    method SleepThread(x: Thr, ticks: U32)
      requires x in threads && threads[x] == Scheduled && Sorted(now, QueueOf(SleepQ))
      modifies this`threads, this`queues, this`ring
      ensures State() == SleepCall(old(State()), x, ticks)
    {
      hide Remaining;
      var w, l := Waiter(x, {}, Plus(now, ticks)), QueueOf(SleepQ);
      var i := FirstLater(now, l, w);
      queues := queues[SleepQ := l[..i] + [w] + l[i..]];
      ThreadDetach(x);
      threads := threads[x := Waiting(SleepQ)];
    }

    method ExitLocalThread(x: Thr, value: int) returns (ok: bool)
      requires Inv(State(), {}) && Shaped(State()) && x in threads && threads[x] == Scheduled && x.pid in tree
      modifies this
      ensures var o := ExitThreadCall(old(State()), x, value); State() == o.k && ok == o.ok
    {
      hide Inv, Shaped, ExitProcP, ExitedThread;
      ghost var k := State();
      MainsKnown(k);
      if x.tid == mains[x.pid] {
        Excuse(k, {x.pid});
        ok := ExitProc(x.pid, value);
        return;
      }
      JoinersApart(k, x);
      RetireThread(x);
      ok := true;
    }

    /** The thread exits; whoever waits for it first takes its value and it is deleted. */
    method RetireThread(x: Thr)
      requires x in threads && threads[x] == Scheduled
      requires forall w :: w in QueueOf(JoinQ(x.pid)) ==> w.thr != x
      modifies this`threads, this`queues, this`ring
      ensures State() == old(State()).(sched := ExitedThread(old(State().sched), x))
    {
      hide WakeAt, ExitedThread;
      ghost var s := State().sched;
      ThreadDetach(x);
      threads := threads[x := Exited];
      var i := FindWaiter(JoinQ(x.pid), x.tid);
      RetireStages(s, x, i);
      assert State().sched == s.(ring := WithoutThr(s.ring, {x}), threads := s.threads[x := Exited]);
      if i < |QueueOf(JoinQ(x.pid))| {
        var joining := PopWaiter(JoinQ(x.pid), i);
        threads := threads - {x};
      }
    }

    method JoinThread(x: Thr, v: Bits) returns (reply: Reply)
      requires x in threads && threads[x] == Scheduled
      modifies this
      ensures After(State(), reply) == JoinCall(old(State()), x, v)
    {
      if v == {} || v == {x.tid} {
        return BadArgs;
      }
      var t := 0;
      while t < 32 && !(t in v && Thr(x.pid, t) in threads && threads[Thr(x.pid, t)] == Exited)
        invariant 0 <= t <= 32
        invariant Lowest(Joinable(State().sched, x.pid, v), 0) == Lowest(Joinable(State().sched, x.pid, v), t)
      {
        t := t + 1;
      }
      if t < 32 {
        threads := threads - {Thr(x.pid, t)};
        return Joined(t);
      }
      WaitIn(x, JoinQ(x.pid), v);
      return NoReply;
    }

    method WakeAllOf(q: QName, n: nat)
      requires n <= |QueueOf(q)|
      modifies this`threads, this`queues, this`ring
      ensures State() == old(State()).(sched := WakeFirst(old(State().sched), q, n))
      ensures |ring| == |old(ring)| + n
    {
      var i := 0;
      while i < n
        invariant 0 <= i <= n && n - i <= |QueueOf(q)| && |ring| == |old(ring)| + i
        invariant State() == old(State()).(sched := State().sched)
        invariant WakeFirst(State().sched, q, n - i) == WakeFirst(old(State().sched), q, n)
      {
        var x := PopWaiter(q, 0);
        i := i + 1;
      }
    }

    method ClockTick()
      modifies this
      ensures State() == TickP(old(State()))
    {
      hide Remaining, Plus;
      var halted := ring == [];
      var next := Plus(now, 1);
      var passed := Remaining(now, next);
      var l := QueueOf(SleepQ);
      var n := 0;
      assert l[0..] == l;
      while n < |l| && Remaining(now, l[n].wake) <= passed
        invariant 0 <= n <= |l|
        invariant n + Due(now, l[n..], passed) == Due(now, l, passed)
      {
        assert l[n..][1..] == l[n + 1..];
        n := n + 1;
      }
      WakeAllOf(SleepQ, n);
      now := next;
      if !halted {
        ring := ring[1..] + [ring[0]];
      }
    }

    // -------------------------------------------------------------------------
    // Dispatch
    // -------------------------------------------------------------------------

    /** Whatever happens to a running kernel, it does what the transition says and keeps its invariant. */
    method Handle(e: Event) returns (reply: Reply)
      requires Inv(State(), {}) && !down && Fits(State(), e)
      modifies this
      ensures CanRun(old(State())) && After(State(), reply) == Step(old(State()), e)
      ensures down || Inv(State(), {})
    {
      hide Inv, Shaped, TreeInv, SchedInv, Sorted, TickP, SleepCall, EnterLast, JoinCall, WaitCall, AllowCall,
        SignalCall,
        ExitThreadCall, ExitProcP, ReapCall, ForkP, WakeFirst;
      ghost var k := State();
      HeadRuns(k);
      StepKeeps(k, e);
      SleepersSorted(k);
      reply := NoReply;
      if e.Tick? {
        ClockTick();
      } else if e.WakeAll? {
        WakeAllOf(BasicQ(e.queue), |QueueOf(BasicQ(e.queue))|);
      } else if ring == [] {
        down := true;
      } else {
        reply := SystemCall(ring[0], e);
      }
    }

    method SystemCall(x: Thr, e: Event) returns (reply: Reply)
      requires Inv(State(), {}) && !down && Fits(State(), e) && Shaped(State()) && !e.Tick? && !e.WakeAll?
      requires ring != [] && x == ring[0] && x in threads && threads[x] == Scheduled && x.pid in tree
      requires x.pid in signals
      requires Sorted(now, QueueOf(SleepQ))
      modifies this
      ensures After(State(), reply) == Call(old(State()), x, e)
    {
      hide Inv, Shaped, TreeInv, SchedInv, Sorted, SleepCall, EnterLast, JoinCall, WaitCall, AllowCall, SignalCall,
        ExitThreadCall, ExitProcP, ReapCall, ForkP;
      ghost var k := State();
      var p := x.pid;
      reply := NoReply;
      match e
      case Fork(c) => reply := ForkProc(x, c);
      case ExitProcess(status) =>
        Excuse(k, {p});
        var ok := ExitProc(p, status);
        SettleCall(ok);
      case ReapAny => reply := ReapProc(x, None);
      case Reap(z) => reply := ReapProc(x, Some(z));
      case SignalParent(sid) => reply := SignalTo(x, if p == root then None else Some(tree[p].parent), sid);
      case Signal(q, sid) => reply := SignalTo(x, Some(q), sid);
      case AllowSignals(v) => reply := AllowSignal(p, v);
      case WaitSignal(v) => reply := WaitForSignal(x, v);
      case ClearSignals(v) => signals := signals[p := signals[p].(pending := signals[p].pending - v)];
      case Sleep(ticks) => SleepThread(x, ticks);
      case Spawn(tid) =>
        if tid == None {
          return Unknown;
        }
        ThreadSchedule(Thr(p, tid.value));
        reply := Spawned(tid.value);
      case ExitThread(value) =>
        var ok := ExitLocalThread(x, value);
        SettleCall(ok);
      case Join(v) => reply := JoinThread(x, v);
      case Block(q) => WaitIn(x, BasicQ(q), {});
    }
  }

  lemma ChildrenApart(t: Tree, root: Pid, p: Pid)
    requires TreeInv(t, root) && p in t
    ensures forall c :: c in t[p].children || c in t[p].zombies ==> c in t && c != root && c != p
  {
    forall c | c in t[p].children || c in t[p].zombies
      ensures c in t && c != root && c != p
    {
      HoldersLive(t, root, p, c);
    }
  }

  lemma SleepersSorted(k: KState)
    requires Inv(k, {})
    ensures Shaped(k) && Sorted(k.now, Queue(k.sched, SleepQ)) && k.signals.Keys == k.tree.Keys
  {
  }

  /** Deleting the thread after the wake-up is as good as before it. */
  lemma RetireStages(s: Sched, x: Thr, i: nat)
    requires x in s.threads && forall w :: w in Queue(s, JoinQ(x.pid)) ==> w.thr != x
    requires i == FirstMatch(Queue(s, JoinQ(x.pid)), x.tid)
    ensures var s1 := s.(ring := WithoutThr(s.ring, {x}), threads := s.threads[x := Exited]);
      if i == |Queue(s, JoinQ(x.pid))| then s1 == ExitedThread(s, x)
      else DeleteThread(WakeAt(s1, JoinQ(x.pid), i), x) == ExitedThread(s, x)
  {
    var s1 := s.(ring := WithoutThr(s.ring, {x}), threads := s.threads[x := Exited]);
    var q := JoinQ(x.pid);
    assert Queue(s1, q) == Queue(s, q);
    if i < |Queue(s, q)| {
      assert Queue(s, q)[i] in Queue(s, q);
      assert DeleteThread(WakeAt(s1, q, i), x).threads == ExitedThread(s, x).threads;
    }
  }

  lemma FirstZombie(t: Tree, root: Pid, p: Pid)
    requires TreeInv(t, root) && p in t && t[p].zombies != []
    ensures var z := t[p].zombies[0];
      && z in t && z != root && z != p && t[z].parent == p && t[z].exited && z in t[p].zombies
      && Drop(t[p].zombies, z) == t[p].zombies[1..]
  {
    assert t[p].zombies[0] in t[p].zombies;
    assert ListsSound(t, root, p);
    HoldersLive(t, root, p, t[p].zombies[0]);
  }

  lemma ZombieApart(t: Tree, root: Pid, p: Pid, z: Pid)
    requires TreeInv(t, root) && p in t && z in t[p].zombies
    ensures z != p
  {
    HoldersLive(t, root, p, z);
  }

  lemma AllowStage(k: KState, p: Pid, v: set<nat>)
    requires Inv(k, {}) && p in k.tree
    ensures p in k.signals
    ensures var k1 := k.(signals := k.signals[p := k.signals[p].(allowed := v)]); Inv(k1, {p}) && Shaped(k1)
  {
    hide TreeInv, SchedInv, Sorted;
    var k1 := k.(signals := k.signals[p := k.signals[p].(allowed := v)]);
    forall x
      ensures OwnerOk(k1, x)
    {
      assert OwnerOk(k, x);
    }
    forall q
      ensures ProcOk(k1, q) && (q != p ==> SignalsOk(k1, q))
    {
      assert ProcOk(k, q) && SignalsOk(k, q);
      assert MainOk(k1, q) && QueuesOwn(k1, q) && JoinsOk(k1, q);
    }
  }

  /** The exiting thread runs, so it is none of those that wait to join. */
  lemma JoinersApart(k: KState, x: Thr)
    requires Inv(k, {}) && x in k.sched.threads && k.sched.threads[x] == Scheduled
    ensures forall w :: w in Queue(k.sched, JoinQ(x.pid)) ==> w.thr != x
  {
    assert PlaceOk(k.sched, x);
    forall w | w in Queue(k.sched, JoinQ(x.pid))
      ensures w.thr != x
    {
      var i :| 0 <= i < |Queue(k.sched, JoinQ(x.pid))| && Queue(k.sched, JoinQ(x.pid))[i] == w;
      assert InQueue(Queue(k.sched, JoinQ(x.pid)), w.thr);
    }
  }
}
