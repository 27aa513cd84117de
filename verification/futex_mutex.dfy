/**
  The mutex over a futex, for any number of threads: every atomic compare-and-swap, every system call
  on the futex and every return is one step of one thread.
 */
module FutexMutex {

  type Tid = nat

  const UNLOCKED := 0
  const UNCONTENDED := 1
  const CONTENDED := 2

  /** Where a thread is in mut_lock and mut_unlock. `Waking` is an unlocker that has yet to wake the sleepers. */
  datatype Pc = Idle | TryLock | TryContend | CallWait | Asleep | Holding | TryFree | TryFreeContended | Waking | Broken

  /** The futex word, the threads, the kernel's queue of sleepers, and whether it still knows the futex. */
  datatype Mutex = Mutex(word: nat, pc: map<Tid, Pc>, queue: seq<Tid>, known: bool)

  datatype Action = Step(t: Tid) | StartLock(t: Tid) | StartUnlock(t: Tid) | WaitFails(t: Tid) | Deregister

  function Init(threads: set<Tid>): (m: Mutex) {
    Mutex(UNLOCKED, map t | t in threads :: Idle, [], true)
  }

  /** All of `ts` go on at `p`. */
  function Resume(pc: map<Tid, Pc>, ts: seq<Tid>, p: Pc): (r: map<Tid, Pc>)
    ensures r.Keys == pc.Keys
    ensures forall t :: t in pc ==> r[t] == if t in ts then p else pc[t]
  {
    map t | t in pc :: if t in ts then p else pc[t]
  }

  predicate Enabled(m: Mutex, a: Action) {
    match a
    case Step(t) => t in m.pc && m.pc[t] !in {Idle, Asleep, Holding, Broken}
    case StartLock(t) => t in m.pc && m.pc[t] == Idle
    case StartUnlock(t) => t in m.pc && m.pc[t] == Holding
    case WaitFails(t) => t in m.pc && m.pc[t] == CallWait
    case Deregister => true
  }

  function Next(m: Mutex, a: Action): Mutex
    requires Enabled(m, a)
  {
    match a
    case StartLock(t) => m.(pc := m.pc[t := TryLock])
    case StartUnlock(t) => m.(pc := m.pc[t := TryFree])
    case WaitFails(t) => m.(pc := m.pc[t := Idle])
    case Deregister => m.(pc := Resume(m.pc, m.queue, Idle), queue := [], known := false)
    case Step(t) => Advance(m, t)
  }

  function Advance(m: Mutex, t: Tid): Mutex
    requires Enabled(m, Step(t))
  {
    match m.pc[t]
    case TryLock =>
      if m.word == UNLOCKED then m.(word := UNCONTENDED, pc := m.pc[t := Holding]) else m.(pc := m.pc[t := TryContend])
    case TryContend =>
      m.(word := if m.word == UNCONTENDED then CONTENDED else m.word, pc := m.pc[t := CallWait])
    case CallWait =>
      if !m.known then m.(pc := m.pc[t := Idle])
      else if m.word != CONTENDED then m.(pc := m.pc[t := TryLock])
      else m.(pc := m.pc[t := Asleep], queue := m.queue + [t])
    case TryFree =>
      if m.word == UNCONTENDED then m.(word := UNLOCKED, pc := m.pc[t := Idle])
        else m.(pc := m.pc[t := TryFreeContended])
    case TryFreeContended =>
      if m.word == CONTENDED then m.(word := UNLOCKED, pc := m.pc[t := Waking]) else m.(pc := m.pc[t := Broken])
    case Waking =>
      if m.known then m.(pc := Resume(m.pc, m.queue, TryLock)[t := Idle], queue := []) else m.(pc := m.pc[t := Idle])
    case _ => m
  }

  /** Between a successful lock and the word being cleared. */
  predicate Owns(p: Pc) {
    p == Holding || p == TryFree || p == TryFreeContended
  }

  ghost predicate Owner(m: Mutex, t: Tid) {
    t in m.pc && Owns(m.pc[t])
  }

  ghost predicate Sleeps(m: Mutex, t: Tid) {
    t in m.pc && m.pc[t] == Asleep
  }

  ghost predicate Inv(m: Mutex) {
    && m.word <= CONTENDED
    && (m.word != UNLOCKED <==> exists t :: Owner(m, t))
    && (forall t, u :: Owner(m, t) && Owner(m, u) ==> t == u)
    && (forall t :: t in m.pc && m.pc[t] == TryFreeContended ==> m.word == CONTENDED)
    && (forall t :: t in m.pc ==> m.pc[t] != Broken)
    && (forall t :: Sleeps(m, t) <==> t in m.queue)
    && (forall i, j :: 0 <= i < j < |m.queue| ==> m.queue[i] != m.queue[j])
    && (m.queue != [] ==> m.known && (m.word == CONTENDED || exists t :: t in m.pc && m.pc[t] == Waking))
  }

  /** Thread `t` runs alone for at most `n` steps. */
  function Solo(m: Mutex, t: Tid, n: nat): Mutex
    decreases n
  {
    if n == 0 || !Enabled(m, Step(t)) then m else Solo(Next(m, Step(t)), t, n - 1)
  }

  /** Whoever wants a free mutex gets it within three steps, when no other thread moves. */
  lemma LockAlone(m: Mutex, t: Tid)
    requires m.word == UNLOCKED && m.known && t in m.pc && m.pc[t] in {TryLock, TryContend, CallWait}
    ensures var m' := Solo(m, t, 3); Owner(m', t) && m'.word == UNCONTENDED
  {
    assert Solo(m, t, 3) == Solo(Next(m, Step(t)), t, 2);
  }

  /** Whoever gives the mutex back has done so within three steps; whom it finds asleep tries again. */
  lemma UnlockAlone(m: Mutex, t: Tid)
    requires Inv(m) && t in m.pc && m.pc[t] in {TryFree, TryFreeContended}
    ensures var m' := Solo(m, t, 3);
      && m'.word == UNLOCKED && t in m'.pc && m'.pc[t] == Idle
      && (m.word == CONTENDED && m.known ==>
            m'.queue == [] && forall u :: u in m.queue && u in m.pc && u != t ==> u in m'.pc && m'.pc[u] == TryLock)
  {
    HeldIsLocked(m, t);
    hide Inv, Resume;
    if m.pc[t] == TryFree && m.word == CONTENDED {
      ContendedAlone(Next(m, Step(t)), t);
    } else if m.pc[t] == TryFreeContended {
      ContendedAlone(m, t);
      assert Solo(m, t, 3) == Solo(m, t, 2);
    }
  }

  lemma HeldIsLocked(m: Mutex, t: Tid)
    requires Inv(m) && t in m.pc && Owns(m.pc[t])
    ensures m.word in {UNCONTENDED, CONTENDED} && (m.pc[t] == TryFreeContended ==> m.word == CONTENDED)
  {
    assert Owner(m, t);
  }

  lemma ContendedAlone(m: Mutex, t: Tid)
    requires t in m.pc && m.pc[t] == TryFreeContended && m.word == CONTENDED
    ensures var m' := Solo(m, t, 2);
      && m'.word == UNLOCKED && t in m'.pc && m'.pc[t] == Idle
      && (m.known ==> m'.queue == [] && forall u :: u in m.queue && u in m.pc && u != t ==>
            u in m'.pc && m'.pc[u] == TryLock)
  {
    var m1 := Next(m, Step(t));
    assert Solo(m, t, 2) == Solo(m1, t, 1) && Solo(m1, t, 1) == Next(m1, Step(t));
  }

  lemma InitInv(threads: set<Tid>)
    ensures Inv(Init(threads))
  {
    var m := Init(threads);
    assert forall t :: !Owner(m, t);
  }

  lemma NextInv(m: Mutex, a: Action)
    requires Inv(m) && Enabled(m, a)
    ensures Inv(Next(m, a))
  {
    match a
    case Deregister => DeregisterInv(m);
    case Step(t) => AdvanceInv(m, t);
    case StartLock(t) => MoveInv(m, t, TryLock);
    case StartUnlock(t) => MoveInv(m, t, TryFree);
    case WaitFails(t) => MoveInv(m, t, Idle);
  }

  /** A thread goes on without touching word or queue, and without winning or losing the lock. */
  lemma MoveInv(m: Mutex, t: Tid, p: Pc)
    requires Inv(m) && t in m.pc && m.pc[t] != Asleep && m.pc[t] != Waking && p != Asleep && p != Broken
    requires p != TryFreeContended
    requires Owns(p) == Owns(m.pc[t])
    ensures Inv(m.(pc := m.pc[t := p]))
  {
    var m' := m.(pc := m.pc[t := p]);
    assert forall u :: Owner(m', u) <==> Owner(m, u);
    assert forall u :: Sleeps(m', u) <==> Sleeps(m, u);
    assert forall u :: u in m.pc && m.pc[u] == Waking ==> u in m'.pc && m'.pc[u] == Waking;
  }

  lemma DeregisterInv(m: Mutex)
    requires Inv(m)
    ensures Inv(Next(m, Deregister))
  {
    var m' := Next(m, Deregister);
    assert forall u :: Owner(m', u) <==> Owner(m, u) by {
      forall u
        ensures Owner(m', u) <==> Owner(m, u)
      {
        assert u in m.queue ==> Sleeps(m, u);
      }
    }
    assert forall u :: !Sleeps(m', u);
  }

  lemma AdvanceInv(m: Mutex, t: Tid)
    requires Inv(m) && Enabled(m, Step(t))
    ensures Inv(Advance(m, t))
  {
    var m' := Advance(m, t);
    match m.pc[t]
    case TryLock =>
      if m.word == UNLOCKED { AcquireInv(m, t); } else { MoveInv(m, t, TryContend); }
    case TryContend => ContendInv(m, t);
    case CallWait =>
      if m.known && m.word == CONTENDED { SleepInv(m, t); } else { MoveInv(m, t, if m.known then TryLock else Idle); }
    case TryFree => FreeInv(m, t);
    case TryFreeContended => ReleaseInv(m, t, Waking);
    case Waking => WakeInv(m, t);
    case _ =>
  }

  /** Everybody but `t` is where he was. */
  lemma OthersAsBefore(m: Mutex, m': Mutex, t: Tid, p: Pc)
    requires t in m.pc && m'.pc == m.pc[t := p]
    ensures forall u :: u != t ==> (Owner(m', u) <==> Owner(m, u)) && (Sleeps(m', u) <==> Sleeps(m, u))
    ensures forall u :: u != t && u in m.pc && m.pc[u] == Waking ==> u in m'.pc && m'.pc[u] == Waking
    ensures (Owner(m', t) <==> Owns(p)) && (Sleeps(m', t) <==> p == Asleep)
  {
  }

  lemma AcquireInv(m: Mutex, t: Tid)
    requires Inv(m) && t in m.pc && m.pc[t] == TryLock && m.word == UNLOCKED
    ensures Inv(Advance(m, t))
  {
    OthersAsBefore(m, Advance(m, t), t, Holding);
    assert !Sleeps(m, t);
  }

  /** The owner clears the word: nobody owns it then, and if somebody may sleep a wake-up is under way. */
  lemma ReleaseInv(m: Mutex, t: Tid, p: Pc)
    requires Inv(m) && Owner(m, t) && (p == Waking || (p == Idle && m.word == UNCONTENDED))
    ensures Inv(m.(word := UNLOCKED, pc := m.pc[t := p]))
  {
    var m' := m.(word := UNLOCKED, pc := m.pc[t := p]);
    OthersAsBefore(m, m', t, p);
    assert !Sleeps(m, t);
    assert p == Waking ==> m'.pc[t] == Waking;
    assert forall u :: !Owner(m', u);
    assert forall u :: u in m'.pc && m'.pc[u] == TryFreeContended ==> Owner(m', u);
  }

  lemma FreeInv(m: Mutex, t: Tid)
    requires Inv(m) && t in m.pc && m.pc[t] == TryFree
    ensures Inv(Advance(m, t))
  {
    assert Owner(m, t);
    if m.word == UNCONTENDED {
      ReleaseInv(m, t, Idle);
    } else {
      OthersAsBefore(m, Advance(m, t), t, TryFreeContended);
      assert !Sleeps(m, t);
      assert Owner(Advance(m, t), t);
    }
  }

  lemma ContendInv(m: Mutex, t: Tid)
    requires Inv(m) && t in m.pc && m.pc[t] == TryContend
    ensures Inv(Advance(m, t))
  {
    var m' := Advance(m, t);
    OthersAsBefore(m, m', t, CallWait);
    assert forall u :: Owner(m', u) <==> Owner(m, u);
    assert forall u :: Sleeps(m', u) <==> Sleeps(m, u);
  }

  lemma SleepInv(m: Mutex, t: Tid)
    requires Inv(m) && t in m.pc && m.pc[t] == CallWait && m.known && m.word == CONTENDED
    ensures Inv(Advance(m, t))
  {
    var m' := Advance(m, t);
    OthersAsBefore(m, m', t, Asleep);
    assert forall u :: Owner(m', u) <==> Owner(m, u);
    assert t !in m.queue by {
      assert !Sleeps(m, t);
    }
  }

  lemma WakeInv(m: Mutex, t: Tid)
    requires Inv(m) && t in m.pc && m.pc[t] == Waking
    ensures Inv(Advance(m, t))
  {
    var m' := Advance(m, t);
    if m.known {
      forall u
        ensures (Owner(m', u) <==> Owner(m, u)) && !Sleeps(m', u)
      {
        assert u in m.queue <==> Sleeps(m, u);
      }
    } else {
      OthersAsBefore(m, m', t, Idle);
      assert forall u :: Owner(m', u) <==> Owner(m, u);
      assert forall u :: Sleeps(m', u) <==> Sleeps(m, u);
    }
  }

  // ---------------------------------------------------------------------------
  // Whole runs
  // ---------------------------------------------------------------------------

  ghost predicate Run(run: seq<Mutex>, threads: set<Tid>) {
    && run != [] && run[0] == Init(threads)
    && forall i {:trigger run[i]} :: 0 < i < |run| ==> Follows(run[i - 1], run[i])
  }

  ghost predicate Follows(m: Mutex, m': Mutex) {
    exists a {:trigger Enabled(m, a)} :: Enabled(m, a) && m' == Next(m, a)
  }

  lemma {:induction false} RunInv(run: seq<Mutex>, threads: set<Tid>, n: nat)
    requires Run(run, threads) && n < |run|
    ensures Inv(run[n])
    decreases n
  {
    if n == 0 {
      InitInv(threads);
    } else {
      RunInv(run, threads, n - 1);
      assert Follows(run[n - 1], run[n]);
      var a :| Enabled(run[n - 1], a) && run[n] == Next(run[n - 1], a);
      NextInv(run[n - 1], a);
    }
  }

  /** At no time two threads hold the mutex. */
  lemma MutualExclusion(run: seq<Mutex>, threads: set<Tid>, n: nat, t: Tid, u: Tid)
    requires Run(run, threads) && n < |run|
    requires t in run[n].pc && u in run[n].pc && run[n].pc[t] == Holding && run[n].pc[u] == Holding
    ensures t == u
  {
    RunInv(run, threads, n);
    assert Owner(run[n], t) && Owner(run[n], u);
  }

  /** An unlock by the holder always finds the word locked. */
  lemma UnlockNeverFails(run: seq<Mutex>, threads: set<Tid>, n: nat, t: Tid)
    requires Run(run, threads) && n < |run| && t in run[n].pc
    ensures run[n].pc[t] != Broken
    ensures run[n].pc[t] == TryFreeContended ==> run[n].word == CONTENDED
  {
    RunInv(run, threads, n);
  }

  /** While somebody sleeps, either the mutex is held and known to be contended, or a wake-up is under way. */
  lemma NoLostWakeup(run: seq<Mutex>, threads: set<Tid>, n: nat, t: Tid)
    requires Run(run, threads) && n < |run| && Sleeps(run[n], t)
    ensures (run[n].word == CONTENDED && exists u :: Owner(run[n], u)) || exists u ::
      u in run[n].pc && run[n].pc[u] == Waking
  {
    RunInv(run, threads, n);
    assert t in run[n].queue;
  }

  /** When nobody can take a step any more, nobody has been left asleep and the mutex is free. */
  lemma NobodyStuck(run: seq<Mutex>, threads: set<Tid>, n: nat, t: Tid)
    requires Run(run, threads) && n < |run| && t in run[n].pc
    requires forall u :: u in run[n].pc ==> run[n].pc[u] == Idle || run[n].pc[u] == Asleep
    ensures run[n].pc[t] == Idle && run[n].word == UNLOCKED
  {
    RunInv(run, threads, n);
    assert forall u :: !Owner(run[n], u);
    assert run[n].pc[t] == Asleep ==> Sleeps(run[n], t);
  }

  /** One wake-up moves every sleeper on, not a single one. */
  lemma WakesAll(m: Mutex, t: Tid, u: Tid)
    requires Inv(m) && t in m.pc && m.pc[t] == Waking && Sleeps(m, u)
    ensures var m' := Advance(m, t); m'.queue == [] && u in m'.pc && m'.pc[u] == TryLock
  {
    assert u in m.queue;
  }
}
