/**
  What becomes of signals, zombies and exit statuses when processes signal, exit and end each other.
 */
module KernelSignals {
  import opened ProcessTree
  import opened Scheduling
  import opened KernelModel
  import opened KernelKeeps

  // ---------------------------------------------------------------------------
  // One signal
  // ---------------------------------------------------------------------------

  /** `i` is the first waiter for `sid`. */
  ghost predicate FirstFor(l: seq<Waiter>, sid: nat, i: nat) {
    i < |l| && sid in l[i].mask && forall j :: 0 <= j < i ==> sid !in l[j].mask
  }

  /** Waiter `i` of queue `q` has left it and runs last; everything else is as before. */
  ghost predicate Woken(s: Sched, t: Sched, q: QName, i: nat) {
    var l := Queue(s, q);
    && i < |l| && t.ring == s.ring + [l[i].thr] && t.threads == s.threads[l[i].thr := Scheduled]
    && Queue(t, q) == l[..i] + l[i + 1..] && forall r :: r != q ==> Queue(t, r) == Queue(s, r)
  }

  /**
    A signal that is allowed and not pending becomes pending, when nobody waits for it; otherwise the first waiter
    takes it and runs, and what was pending is pending still.
   */
  lemma SignalDelivered(k: KState, p: Pid, sid: nat)
    requires Shaped(k) && p in k.tree && sid < NUM_SIGNALS
    requires sid !in k.signals[p].pending && sid in k.signals[p].allowed
    ensures var r, l := SignalP(k, p, sid), Queue(k.sched, SignalQ(p));
      && r.ok && r.k == k.(signals := r.k.signals, sched := r.k.sched)
      && if forall w :: w in l ==> sid !in w.mask then
           r.k.sched == k.sched
           && r.k.signals == k.signals[p := Signals(k.signals[p].pending + {sid}, k.signals[p].allowed)]
         else
           r.k.signals == k.signals && exists i :: FirstFor(l, sid, i) && Woken(k.sched, r.k.sched, SignalQ(p), i)
  {
    hide TreeInv, ExitProcP;
    NotifyWakes(k.sched, SignalQ(p), sid);
    assert k.signals[p].pending + {sid} - {sid} == k.signals[p].pending;
  }

  /** The first match is the first waiter for the signal. */
  lemma NotifyWakes(s: Sched, q: QName, sid: nat)
    ensures var l, i := Queue(s, q), FirstMatch(Queue(s, q), sid);
      if i == |l| then forall w :: w in l ==> sid !in w.mask
      else l[i] in l && FirstFor(l, sid, i) && Woken(s, WakeAt(s, q, i), q, i)
  {
    hide FirstMatch;
  }

  // ---------------------------------------------------------------------------
  // Chains of signals and exits
  // ---------------------------------------------------------------------------

  /** Nothing pending is lost, and only the signals of `news` and FSIG_CHLD are new. */
  ghost predicate SignalsFollow(k: KState, k': KState, news: set<(Pid, nat)>) {
    k'.signals.Keys == k.signals.Keys && forall q {:trigger k'.signals[q]} :: q in k.signals ==>
      && k'.signals[q].allowed == k.signals[q].allowed && k.signals[q].pending <= k'.signals[q].pending
      && forall b :: b in k'.signals[q].pending ==> b in k.signals[q].pending || b == FSIG_CHLD || (q, b) in news
  }

  /** Who has exited stays so with its status; who exits does so with one of `ends`, or by a signal. */
  ghost predicate ExitsFollow(t: Tree, t': Tree, ends: set<(Pid, int)>) {
    t'.Keys == t.Keys && forall z {:trigger t'[z]} :: z in t ==>
      if t[z].exited then t'[z].exited && t'[z].status == t[z].status
      else t'[z].exited ==> (z, t'[z].status) in ends || t'[z].status == PROC_ES_SIGNAL
  }

  /** The process has exited, or is about to. */
  ghost predicate Leaves(t: Tree, gone: set<Pid>, p: Pid) {
    p in gone || (p in t && t[p].exited)
  }

  /**
    Threads run on, or wait on, unless their process has exited or is one of `gone`, or they wait for a signal;
    nobody starts to wait for one.
   */
  ghost predicate ThreadsFollow(k: KState, k': KState, gone: set<Pid>) {
    && k'.now == k.now
    && (forall x {:trigger x in k'.sched.ring} :: x in k.sched.ring ==>
         x in k'.sched.ring || Leaves(k'.tree, gone, x.pid))
    && (forall q, w {:trigger w in Queue(k'.sched, q)} :: w in Queue(k.sched, q) && !q.SignalQ? ==>
         w in Queue(k'.sched, q) || Leaves(k'.tree, gone, w.thr.pid))
    && (forall q, w {:trigger w in Queue(k'.sched, SignalQ(q))} :: w in Queue(k'.sched, SignalQ(q)) ==>
         w in Queue(k.sched, SignalQ(q)))
  }

  ghost predicate Follows(k: KState, k': KState, news: set<(Pid, nat)>, ends: set<(Pid, int)>, gone: set<Pid>) {
    SignalsFollow(k, k', news) && ExitsFollow(k.tree, k'.tree, ends) && ThreadsFollow(k, k', gone)
  }

  lemma FollowsTwice(
      a: KState, b: KState, c: KState, news: set<(Pid, nat)>, ends: set<(Pid, int)>, gone: set<Pid>, gone': set<Pid>)
    requires Follows(a, b, news, ends, gone) && Follows(b, c, news, ends, gone')
    requires forall p :: p in gone && p !in gone' ==> p in c.tree && c.tree[p].exited
    requires gone' <= gone
    ensures Follows(a, c, news, ends, gone')
  {
  }

  lemma FollowsMore(
      k: KState, k': KState, news: set<(Pid, nat)>, ends: set<(Pid, int)>, gone: set<Pid>, news': set<(Pid, nat)>,
      ends': set<(Pid, int)>, gone': set<Pid>)
    requires Follows(k, k', news, ends, gone) && news <= news' && ends <= ends' && gone <= gone'
    ensures Follows(k, k', news', ends', gone')
  {
  }

  lemma NotifyFollows(k: KState, p: Pid, sid: nat)
    requires p in k.signals && sid !in k.signals[p].pending
    ensures var k1 := SetPending(k, p, k.signals[p].pending + {sid});
      Follows(k, k1, {(p, sid)}, {}, {}) && Follows(k, NotifySignal(k1, p, sid), {(p, sid)}, {}, {})
  {
    var k1 := SetPending(k, p, k.signals[p].pending + {sid});
    NotifyWakes(k1.sched, SignalQ(p), sid);
    hide WakeAt, ThreadsFollow;
    SamePlaces(k, k1);
    var i := FirstMatch(Queue(k1.sched, SignalQ(p)), sid);
    if i < |Queue(k1.sched, SignalQ(p))| {
      assert NotifySignal(k1, p, sid).sched == WakeAt(k1.sched, SignalQ(p), i);
      WokenFollow(k, NotifySignal(k1, p, sid), p, i);
    }
  }

  lemma SamePlaces(k: KState, k': KState)
    requires k'.sched == k.sched && k'.now == k.now
    ensures ThreadsFollow(k, k', {})
  {
  }

  lemma WokenFollow(k: KState, k': KState, p: Pid, i: nat)
    requires Woken(k.sched, k'.sched, SignalQ(p), i) && k'.now == k.now
    ensures ThreadsFollow(k, k', {})
  {
    var l := Queue(k.sched, SignalQ(p));
    assert forall w :: w in l[..i] + l[i + 1..] ==> w in l;
  }

  lemma DisownedFollows(k: KState, p: Pid)
    requires k.root in k.tree && p in k.tree
    ensures Follows(k, Disowned(k, p), {}, {}, {p})
  {
    DetachedFollow(k, Disowned(k, p), p);
  }

  lemma DetachedFollow(k: KState, k': KState, p: Pid)
    requires k'.sched == DetachAll(k.sched, ThreadsOf(k, p)) && k'.now == k.now
    ensures ThreadsFollow(k, k', {p})
  {
    var xs := ThreadsOf(k, p);
    WithoutThrFacts(k.sched.ring, xs);
    forall q, w {:trigger w in Queue(k'.sched, q)}
      ensures w in Queue(k'.sched, q) <==> w in Queue(k.sched, q) && w.thr !in xs
    {
      WithoutWaiterFacts(Queue(k.sched, q), xs);
    }
    WaitersKnown(k, k', p);
  }

  lemma WaitersKnown(k: KState, k': KState, p: Pid)
    requires forall q, w {:trigger w in Queue(k'.sched, q)} ::
      w in Queue(k'.sched, q) <==> w in Queue(k.sched, q) && w.thr !in ThreadsOf(k, p)
    ensures forall q, w {:trigger w in Queue(k'.sched, q)} :: w in Queue(k.sched, q) && !q.SignalQ? ==>
      w in Queue(k'.sched, q) || Leaves(k'.tree, {p}, w.thr.pid)
  {
  }

  lemma DisownedMore(k: KState, p: Pid, status: int)
    requires k.root in k.tree && p in k.tree
    ensures Follows(k, Disowned(k, p), {}, {(p, status)}, {p})
  {
    hide Follows, Disowned;
    DisownedFollows(k, p);
    FollowsMore(k, Disowned(k, p), {}, {}, {p}, {}, {(p, status)}, {p});
  }

  lemma BuriedFollows(k: KState, p: Pid, status: int)
    requires Shaped(k) && p in k.tree && p != k.root && !k.tree[p].exited
    ensures Placed(k.tree, p) && Follows(k, BuriedK(k, p, status), {}, {(p, status)}, {})
  {
    assert Placed(k.tree, p);
  }

  /** A signal, with whatever it sets off. */
  lemma {:induction false} SignalFollows(k: KState, p: Pid, sid: nat)
    requires Shaped(k) && p in k.tree
    ensures var r := SignalP(k, p, sid); r.ok && !r.k.down ==> Follows(k, r.k, {(p, sid)}, {}, {})
    decreases |Live(k.tree)|, if p == k.root then 0 else 1, 1
  {
    hide TreeInv, NotifySignal, Live, Follows, ExitProcP;
    Itself(k, {(p, sid)});
    if sid < NUM_SIGNALS && sid !in k.signals[p].pending {
      var k1 := SetPending(k, p, k.signals[p].pending + {sid});
      NotifyFollows(k, p, sid);
      if sid !in k.signals[p].allowed {
        ExitFollows(k1, p, PROC_ES_SIGNAL);
        var r := ExitProcP(k1, p, PROC_ES_SIGNAL);
        if r.ok && !r.k.down {
          ByASignal(k1, r.k, p);
          FollowsMore(k1, r.k, {}, {}, {}, {(p, sid)}, {}, {});
          FollowsTwice(k, k1, r.k, {(p, sid)}, {}, {}, {});
        }
      }
    }
  }

  lemma Itself(k: KState, news: set<(Pid, nat)>)
    ensures Follows(k, k, news, {}, {})
  {
  }

  lemma ByASignal(k: KState, k': KState, p: Pid)
    requires Follows(k, k', {}, {(p, PROC_ES_SIGNAL)}, {})
    ensures Follows(k, k', {}, {}, {})
  {
  }

  lemma RootThere(k: KState)
    requires Shaped(k)
    ensures k.root in k.tree && !k.tree[k.root].exited
  {
  }

  /** An exit, with whatever it sets off. */
  lemma {:induction false} ExitFollows(k: KState, p: Pid, status: int)
    requires Shaped(k) && p in k.tree
    ensures var r := ExitProcP(k, p, status);
      r.ok && !r.k.down ==>
        && r.k.tree.Keys == k.tree.Keys && !k.tree[p].exited && r.k.tree[p].exited && r.k.tree[p].status == status
        && Follows(k, r.k, {}, {(p, status)}, {})
    decreases |Live(k.tree)|, if p == k.root then 0 else 1, 0
  {
    hide TreeInv, Live, Follows, SignalP, BuryP, Adopted, DetachAll;
    if p != k.root {
      RootThere(k);
      DisownedShaped(k, p);
      var k1, ends := Disowned(k, p), {(p, status)};
      DisownedMore(k, p, status);
      var o := Outcome(k1, true);
      if k.tree[p].zombies != [] {
        o := SignalP(k1, k.root, FSIG_CHLD);
        if o.ok && !o.k.down {
          SignalFollows(k1, k.root, FSIG_CHLD);
          OnlyChild(k1, o.k, k.root);
          FollowsMore(k1, o.k, {}, {}, {}, {}, ends, {p});
          FollowsTwice(k, k1, o.k, {}, ends, {p}, {p});
        }
      }
      if o.ok && !o.k.down {
        BuryFollows(o.k, p, status);
        var r := BuryP(o.k, p, status);
        if r.ok && !r.k.down {
          FollowsTwice(k, o.k, r.k, {}, ends, {p}, {});
        }
      }
    }
  }

  lemma StatusKept(k: KState, k': KState, p: Pid)
    requires Follows(k, k', {}, {}, {}) && p in k.tree && k.tree[p].exited
    ensures p in k'.tree && k'.tree[p].exited && k'.tree[p].status == k.tree[p].status
  {
  }

  lemma OnlyChild(k: KState, k': KState, p: Pid)
    requires Follows(k, k', {(p, FSIG_CHLD)}, {}, {})
    ensures Follows(k, k', {}, {}, {})
  {
  }

  lemma {:induction false} BuryFollows(k: KState, p: Pid, status: int)
    requires Shaped(k) && p in k.tree && p != k.root && k.tree[p].children == [] && k.tree[p].zombies == []
    ensures var r := BuryP(k, p, status);
      r.ok && !r.k.down ==>
        && r.k.tree.Keys == k.tree.Keys && !k.tree[p].exited && r.k.tree[p].exited && r.k.tree[p].status == status
        && Follows(k, r.k, {}, {(p, status)}, {})
    decreases |Live(k.tree)|, 0, 0
  {
    hide TreeInv, Live, Follows, SignalP;
    ListedIffLive(k, p);
    if !k.tree[p].exited {
      BuriedShaped(k, p, status);
      BuriedFollows(k, p, status);
      var k1, q := BuriedK(k, p, status), k.tree[p].parent;
      var r := SignalP(k1, q, FSIG_CHLD);
      SignalFollows(k1, q, FSIG_CHLD);
      if r.ok && !r.k.down {
        OnlyChild(k1, r.k, q);
        StatusKept(k1, r.k, p);
        FollowsMore(k1, r.k, {}, {}, {}, {}, {(p, status)}, {});
        FollowsTwice(k, k1, r.k, {}, {(p, status)}, {}, {});
      }
    }
  }

  // ---------------------------------------------------------------------------
  // No zombie goes unnoticed
  // ---------------------------------------------------------------------------

  /** FSIG_CHLD is pending for `q`, or a thread of `q` that waited for it runs. */
  ghost predicate Told(k: KState, k': KState, q: Pid) {
    q in k'.signals && (FSIG_CHLD in k'.signals[q].pending
      || exists w :: w in Queue(k.sched, SignalQ(q)) && FSIG_CHLD in w.mask && w.thr in k'.sched.ring)
  }

  ghost predicate NewZombie(t: Tree, t': Tree, q: Pid) {
    q in t && q in t' && exists z :: z in t'[q].zombies && z !in t[q].zombies
  }

  /** Whoever has got a zombie has been told. */
  ghost predicate AllTold(k: KState, k': KState) {
    forall q {:trigger NewZombie(k.tree, k'.tree, q)} :: NewZombie(k.tree, k'.tree, q) ==> Told(k, k', q)
  }

  ghost predicate OwnSignals(k: KState) {
    forall q, w :: w in Queue(k.sched, SignalQ(q)) ==> w.thr.pid == q
  }

  lemma ToldStays(
      a: KState, b: KState, c: KState, q: Pid, news: set<(Pid, nat)>, ends: set<(Pid, int)>, gone: set<Pid>)
    requires Told(a, b, q) && Follows(b, c, news, ends, gone) && OwnSignals(a)
    requires q !in gone && q in c.tree && !c.tree[q].exited
    ensures Told(a, c, q)
  {
    if FSIG_CHLD !in b.signals[q].pending {
      var w :| w in Queue(a.sched, SignalQ(q)) && FSIG_CHLD in w.mask && w.thr in b.sched.ring;
      assert w.thr.pid == q && w.thr in c.sched.ring;
    }
  }

  lemma ToldBefore(a: KState, b: KState, c: KState, q: Pid, gone: set<Pid>)
    requires Told(b, c, q) && ThreadsFollow(a, b, gone)
    ensures Told(a, c, q)
  {
    if FSIG_CHLD !in c.signals[q].pending {
      var w :| w in Queue(b.sched, SignalQ(q)) && FSIG_CHLD in w.mask && w.thr in c.sched.ring;
      assert w in Queue(a.sched, SignalQ(q));
    }
  }

  lemma ToldTwice(
      a: KState, b: KState, c: KState, news: set<(Pid, nat)>, ends: set<(Pid, int)>, gone: set<Pid>, gone': set<Pid>)
    requires AllTold(a, b) && AllTold(b, c) && ThreadsFollow(a, b, gone) && Follows(b, c, news, ends, gone')
    requires Shaped(c) && OwnSignals(a) && b.tree.Keys == a.tree.Keys
    requires forall p :: p in gone' ==> p in c.tree && c.tree[p].exited
    ensures AllTold(a, c)
  {
    hide Told, Follows, ThreadsFollow;
    forall q | NewZombie(a.tree, c.tree, q)
      ensures Told(a, c, q)
    {
      var z :| z in c.tree[q].zombies && z !in a.tree[q].zombies;
      HoldersLive(c.tree, c.root, q, z);
      if z in b.tree[q].zombies {
        assert NewZombie(a.tree, b.tree, q);
        ToldStays(a, b, c, q, news, ends, gone');
      } else {
        assert NewZombie(b.tree, c.tree, q);
        ToldBefore(a, b, c, q, gone);
      }
    }
  }

  lemma NotifyTold(k: KState, p: Pid)
    requires p in k.signals && FSIG_CHLD !in k.signals[p].pending
    ensures var r := NotifySignal(SetPending(k, p, k.signals[p].pending + {FSIG_CHLD}), p, FSIG_CHLD);
      Told(k, r, p) && r.tree == k.tree
  {
    var l := Queue(k.sched, SignalQ(p));
    var i := FirstMatch(l, FSIG_CHLD);
    if i < |l| { assert l[i] in l; }
  }

  lemma {:induction false} SignalTold(k: KState, p: Pid, sid: nat)
    requires Shaped(k) && OwnSignals(k) && p in k.tree
    ensures var r := SignalP(k, p, sid); r.ok && !r.k.down ==>
      AllTold(k, r.k) && (sid == FSIG_CHLD && !r.k.tree[p].exited ==> Told(k, r.k, p))
    decreases |Live(k.tree)|, if p == k.root then 0 else 1, 1
  {
    hide TreeInv, NotifySignal, Live, ExitProcP, Told;
    if sid < NUM_SIGNALS && sid !in k.signals[p].pending {
      var k1 := SetPending(k, p, k.signals[p].pending + {sid});
      if sid in k.signals[p].allowed {
        NotifyTree(k1, p, sid);
        if sid == FSIG_CHLD { NotifyTold(k, p); }
      } else {
        ExitTold(k1, p, PROC_ES_SIGNAL);
        ExitFollows(k1, p, PROC_ES_SIGNAL);
        SameSched(k, k1, ExitProcP(k1, p, PROC_ES_SIGNAL).k);
      }
    } else if sid == FSIG_CHLD {
      PendingTold(k, p);
    }
  }

  lemma PendingTold(k: KState, p: Pid)
    requires p in k.signals
    ensures FSIG_CHLD in k.signals[p].pending ==> Told(k, k, p)
  {
  }

  lemma NotifyTree(k: KState, p: Pid, sid: nat)
    requires p in k.signals
    ensures NotifySignal(k, p, sid).tree == k.tree
  {
  }

  lemma SameSched(k: KState, k1: KState, k': KState)
    requires k1.sched == k.sched && k1.tree == k.tree
    ensures AllTold(k1, k') ==> AllTold(k, k')
  {
  }

  lemma {:induction false} ExitTold(k: KState, p: Pid, status: int)
    requires Shaped(k) && OwnSignals(k) && p in k.tree
    ensures var r := ExitProcP(k, p, status); r.ok && !r.k.down ==> AllTold(k, r.k)
    decreases |Live(k.tree)|, if p == k.root then 0 else 1, 0
  {
    hide TreeInv, Live, Follows, ThreadsFollow, SignalP, BuryP, Adopted, DetachAll, Told, AllTold, OwnSignals;
    if p != k.root {
      RootThere(k);
      DisownedShaped(k, p);
      DisownedFollows(k, p);
      FollowsParts(k, Disowned(k, p), {}, {}, {p});
      DisownedOwn(k, p);
      var k1 := Disowned(k, p);
      var o := Outcome(k1, true);
      if k.tree[p].zombies != [] {
        o := SignalP(k1, k.root, FSIG_CHLD);
        SignalTold(k1, k.root, FSIG_CHLD);
        if o.ok && !o.k.down {
          SignalFollows(k1, k.root, FSIG_CHLD);
          FollowsMore(k, k1, {}, {}, {p}, {(k.root, FSIG_CHLD)}, {}, {p});
          FollowsMore(k1, o.k, {(k.root, FSIG_CHLD)}, {}, {}, {(k.root, FSIG_CHLD)}, {}, {p});
          FollowsTwice(k, k1, o.k, {(k.root, FSIG_CHLD)}, {}, {p}, {p});
          RootThere(k1);
          FollowsParts(k, o.k, {(k.root, FSIG_CHLD)}, {}, {p});
          ToldBefore(k, k1, o.k, k.root, {p});
        }
      }
      if o.ok && !o.k.down {
        RootGetsThem(k, p, o.k);
        OwnStays(k, o.k, {p});
        BuryTold(o.k, p, status);
        BuryFollows(o.k, p, status);
        var r := BuryP(o.k, p, status);
        if r.ok && !r.k.down {
          ToldTwice(k, o.k, r.k, {}, {(p, status)}, {p}, {});
        }
      }
    }
  }

  lemma FollowsParts(k: KState, k': KState, news: set<(Pid, nat)>, ends: set<(Pid, int)>, gone: set<Pid>)
    requires Follows(k, k', news, ends, gone)
    ensures ThreadsFollow(k, k', gone) && k'.tree.Keys == k.tree.Keys
  {
  }

  lemma DisownedOwn(k: KState, p: Pid)
    requires k.root in k.tree && p in k.tree && OwnSignals(k)
    ensures OwnSignals(Disowned(k, p))
  {
    forall q, w | w in Queue(Disowned(k, p).sched, SignalQ(q))
      ensures w.thr.pid == q
    {
      WithoutWaiterFacts(Queue(k.sched, SignalQ(q)), ThreadsOf(k, p));
    }
  }

  lemma OwnStays(k: KState, k': KState, gone: set<Pid>)
    requires OwnSignals(k) && ThreadsFollow(k, k', gone)
    ensures OwnSignals(k')
  {
  }

  /** When the children of `p` go to the root, the root is the one to get zombies. */
  lemma RootGetsThem(k: KState, p: Pid, k': KState)
    requires k.root in k.tree && p in k.tree && k'.tree == Adopted(k.tree, k.root, p)
    requires k.tree[p].zombies != [] ==> Told(k, k', k.root)
    ensures AllTold(k, k')
  {
  }

  lemma {:induction false} BuryTold(k: KState, p: Pid, status: int)
    requires Shaped(k) && OwnSignals(k) && p in k.tree && p != k.root
    requires k.tree[p].children == [] && k.tree[p].zombies == []
    ensures var r := BuryP(k, p, status); r.ok && !r.k.down ==> AllTold(k, r.k)
    decreases |Live(k.tree)|, 0, 0
  {
    hide TreeInv, Live, Follows, SignalP, Told;
    ListedIffLive(k, p);
    if !k.tree[p].exited {
      BuriedShaped(k, p, status);
      var k1, q := BuriedK(k, p, status), k.tree[p].parent;
      var r := SignalP(k1, q, FSIG_CHLD);
      SignalTold(k1, q, FSIG_CHLD);
      SignalFollows(k1, q, FSIG_CHLD);
      if r.ok && !r.k.down {
        SameQueues(k, k1, r.k);
        forall u | NewZombie(k.tree, r.k.tree, u)
          ensures Told(k, r.k, u)
        {
          var z :| z in r.k.tree[u].zombies && z !in k.tree[u].zombies;
          HoldersLive(r.k.tree, r.k.root, u, z);
          assert NewZombie(k1.tree, r.k.tree, u) || (u == q && z == p);
        }
      }
    }
  }

  lemma SameQueues(k: KState, k1: KState, k': KState)
    requires k1.sched == k.sched
    ensures forall q {:trigger Told(k, k', q)} {:trigger Told(k1, k', q)} :: Told(k1, k', q) ==> Told(k, k', q)
  {
  }
}
