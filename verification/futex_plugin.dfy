/**
  The futex plugin: for every process a map from its futexes to wait queues of the kernel, and how its
  calls are the system calls of the mutex.
 */
module FutexPlugins {
  import opened ProcessTree
  import opened Scheduling
  import opened TimedQueue
  import opened KernelModel
  import opened KernelCalls
  import opened KernelRuns
  import opened KernelInPlace
  import FutexMutex

  datatype Answer = Done | BadArgument | Invalid | InUse | NoMemory | Sleeping | Fatal

  type FutMaps = map<Pid, map<nat, nat>>

  ghost predicate Known(maps: FutMaps, p: Pid, f: nat) {
    p in maps && f in maps[p]
  }

  /** The queue belongs to a futex of no one else. */
  ghost predicate Apart(maps: FutMaps, p: Pid, f: nat, id: nat) {
    forall q, g :: Known(maps, q, g) && maps[q][g] == id ==> q == p && g == f
  }

  /** Only threads of the process sleep in the queue. */
  ghost predicate Local(s: Sched, id: nat, p: Pid) {
    forall w :: w in Queue(s, BasicQ(id)) ==> w.thr.pid == p
  }

  ghost predicate OwnQueues(maps: FutMaps, s: Sched) {
    forall p, f :: Known(maps, p, f) ==> Apart(maps, p, f, maps[p][f]) && Local(s, maps[p][f], p)
  }

  /** The threads asleep on a futex, first come first. */
  ghost function SleepersIn(maps: FutMaps, s: Sched, p: Pid, f: nat): seq<Thr> {
    if Known(maps, p, f) then Threads(Queue(s, BasicQ(maps[p][f]))) else []
  }

  /** What a call does to the sleepers of one futex, it does to no other's. */
  ghost predicate OnlyOf(maps: FutMaps, s: Sched, maps': FutMaps, s': Sched, p: Pid, f: nat) {
    forall q, g :: q != p || g != f ==> SleepersIn(maps', s', q, g) == SleepersIn(maps, s, q, g)
  }

  function Learned(maps: FutMaps, p: Pid, f: nat, id: nat): FutMaps
    requires p in maps
  {
    var inner: map<nat, nat> := maps[p][f := id];
    maps[p := inner]
  }

  lemma QueueChanges(maps: FutMaps, s: Sched, s': Sched, p: Pid, f: nat)
    requires OwnQueues(maps, s) && Known(maps, p, f) && Local(s', maps[p][f], p)
    requires forall q :: q != BasicQ(maps[p][f]) ==> Queue(s', q) == Queue(s, q)
    ensures OwnQueues(maps, s') && OnlyOf(maps, s, maps, s', p, f)
  {
    assert Apart(maps, p, f, maps[p][f]);
    forall q, g | Known(maps, q, g)
      ensures Apart(maps, q, g, maps[q][g]) && Local(s', maps[q][g], q)
      ensures q != p || g != f ==> SleepersIn(maps, s', q, g) == SleepersIn(maps, s, q, g)
    {
      assert Local(s, maps[q][g], q);
    }
  }

  lemma FutexForgotten(maps: FutMaps, s: Sched, p: Pid, f: nat)
    requires OwnQueues(maps, s) && Known(maps, p, f)
    ensures OwnQueues(maps[p := maps[p] - {f}], s) && OnlyOf(maps, s, maps[p := maps[p] - {f}], s, p, f)
    ensures SleepersIn(maps[p := maps[p] - {f}], s, p, f) == []
  {
    var m := maps[p := maps[p] - {f}];
    assert forall q, g :: Known(m, q, g) ==> Known(maps, q, g) && m[q][g] == maps[q][g];
    assert forall q, g :: Known(maps, q, g) && (q != p || g != f) ==> Known(m, q, g);
  }

  lemma OthersAsBefore(maps: FutMaps, s: Sched, p: Pid, f: nat, id: nat)
    requires p in maps && f !in maps[p] && Queue(s, BasicQ(id)) == []
    ensures var m := Learned(maps, p, f, id);
      && OnlyOf(maps, s, m, s, p, f) && SleepersIn(m, s, p, f) == [] && Known(m, p, f) && m[p][f] == id
      && (forall q, g :: Known(m, q, g) ==> (q == p && g == f) || (Known(maps, q, g) && m[q][g] == maps[q][g]))
      && forall q, g :: Known(maps, q, g) ==> Known(m, q, g)
  {
  }

  lemma FutexLearned(maps: FutMaps, s: Sched, p: Pid, f: nat, id: nat)
    requires OwnQueues(maps, s) && p in maps && f !in maps[p] && Queue(s, BasicQ(id)) == []
    requires forall q, g :: Known(maps, q, g) ==> maps[q][g] != id
    ensures OwnQueues(Learned(maps, p, f, id), s) && OnlyOf(maps, s, Learned(maps, p, f, id), s, p, f)
    ensures SleepersIn(Learned(maps, p, f, id), s, p, f) == []
  {
    OthersAsBefore(maps, s, p, f, id);
    hide OnlyOf, Learned;
    var m := Learned(maps, p, f, id);
    forall q, g | Known(m, q, g)
      ensures Apart(m, q, g, m[q][g]) && Local(s, m[q][g], q)
    {
      if q != p || g != f { assert Apart(maps, q, g, maps[q][g]); }
    }
  }

  lemma StillLocal(s: Sched, s': Sched, id: nat, p: Pid, n: nat)
    requires Local(s, id, p) && n <= |Queue(s, BasicQ(id))| && Queue(s', BasicQ(id)) == Queue(s, BasicQ(id))[n..]
    ensures Local(s', id, p) && Threads(Queue(s', BasicQ(id))) == Threads(Queue(s, BasicQ(id)))[n..]
    ensures Threads(Queue(s, BasicQ(id))[..n]) == Threads(Queue(s, BasicQ(id)))[..n]
  {
  }

  lemma Enters(s: Sched, x: Thr, id: nat, p: Pid)
    requires Local(s, id, p) && x.pid == p
    ensures var s' := Enter(s, x, BasicQ(id), Queue(s, BasicQ(id)) + [Waiter(x, {}, 0)]);
      && Local(s', id, p) && Threads(Queue(s', BasicQ(id))) == Threads(Queue(s, BasicQ(id))) + [x]
      && forall q :: q != BasicQ(id) ==> Queue(s', q) == Queue(s, q)
  {
  }

  class FutexPlugin {
    const kernel: Kernel
    var maps: FutMaps

    ghost predicate Valid()
      reads this, kernel
    {
      Inv(kernel.State(), {}) && OwnQueues(maps, kernel.State().sched)
    }

    ghost predicate Caller(x: Thr)
      reads this, kernel
    {
      x in kernel.threads && kernel.threads[x] == Scheduled
    }

    ghost function Sleepers(p: Pid, f: nat): seq<Thr>
      reads this, kernel
    {
      SleepersIn(maps, kernel.State().sched, p, f)
    }

    /** Every process starts with no futex. */
    constructor (kernel: Kernel)
      requires Inv(kernel.State(), {})
      ensures Valid() && this.kernel == kernel && maps.Keys == kernel.tree.Keys && forall p, f :: !Known(maps, p, f)
    {
      this.kernel := kernel;
      maps := map p | p in kernel.tree :: map[];
    }

    /** plg_fut_on_fork_proc: the child has no futexes, whatever its parent has. */
    method OnFork(child: Pid, memory: bool) returns (answer: Answer)
      requires Valid()
      modifies this`maps
      ensures Valid() && answer == if child in old(maps) then Fatal else if memory then Done else NoMemory
      ensures answer == Done ==> child in maps && forall f :: !Known(maps, child, f)
      ensures forall q, g :: Known(maps, q, g) <==> Known(old(maps), q, g)
      ensures forall q, g :: Sleepers(q, g) == old(Sleepers(q, g))
    {
      hide Inv;
      if child in maps { return Fatal; }
      if !memory { return NoMemory; }
      ghost var m := maps;
      maps := maps[child := map[]];
      assert forall q, g :: Known(maps, q, g) <==> Known(m, q, g);
      assert forall q, g :: Known(m, q, g) ==> maps[q][g] == m[q][g];
      return Done;
    }

    /** plg_fut_on_reap_proc: the futexes of a dead process go; nobody is asleep on them any more. */
    method OnReap(p: Pid) returns (answer: Answer)
      requires Valid() && p in kernel.tree && kernel.tree[p].exited
      modifies this`maps
      ensures Valid() && answer == if p in old(maps) then Done else Fatal
      ensures maps == old(maps) - {p}
      ensures forall f :: old(Sleepers(p, f)) == [] && Sleepers(p, f) == []
      ensures forall q, g :: q != p ==> Sleepers(q, g) == old(Sleepers(q, g))
    {
      hide Inv, OwnQueues, Threads;
      if p !in maps {
        NobodyUnknown(maps, kernel.State().sched, p);
        assert maps - {p} == maps;
        return Fatal;
      }
      NobodyAsleep(maps, kernel.State(), p);
      ProcessForgotten(maps, kernel.State().sched, p);
      NobodyUnknown(maps - {p}, kernel.State().sched, p);
      maps := maps - {p};
      return Done;
    }

    /**
      `readable` says whether the futex lies in the caller's memory, `memory` whether there is any for the queue, the
      empty `queue`.
     */
    method Register(x: Thr, f: nat, readable: bool, memory: bool, queue: nat) returns (answer: Answer)
      requires Valid() && kernel.QueueOf(BasicQ(queue)) == []
      requires forall q, g :: Known(maps, q, g) ==> maps[q][g] != queue
      modifies this`maps
      ensures Valid()
      ensures answer == if x.pid !in old(maps) then Fatal else if f == 0 then BadArgument
        else if f in old(maps)[x.pid] then InUse
        else if !readable then Invalid else if !memory then NoMemory else Done
      ensures maps == if answer == Done then Learned(old(maps), x.pid, f, queue) else old(maps)
      ensures answer == Done ==> Known(maps, x.pid, f) && Sleepers(x.pid, f) == []
      ensures OnlyOf(old(maps), old(kernel.State().sched), maps, kernel.State().sched, x.pid, f)
    {
      hide Inv, OwnQueues, Threads;
      if x.pid !in maps { return Fatal; }
      if f == 0 { return BadArgument; }
      if f in maps[x.pid] { return InUse; }
      if !readable { return Invalid; }
      if !memory { return NoMemory; }
      FutexLearned(maps, kernel.State().sched, x.pid, f, queue);
      maps := Learned(maps, x.pid, f, queue);
      return Done;
    }

    /** The first `n` sleepers are scheduled, in their order. */
    method WakeSome(p: Pid, f: nat, n: nat)
      requires Valid() && Known(maps, p, f) && n <= |Sleepers(p, f)|
      modifies kernel`threads, kernel`queues, kernel`ring
      ensures Valid() && Sleepers(p, f) == old(Sleepers(p, f))[n..]
      ensures kernel.ring == old(kernel.ring) + old(Sleepers(p, f))[..n]
      ensures OnlyOf(old(maps), old(kernel.State().sched), maps, kernel.State().sched, p, f)
      ensures kernel.State() == old(kernel.State()).(sched := kernel.State().sched)
    {
      var id := maps[p][f];
      assert Local(kernel.State().sched, id, p);
      hide Inv, OwnQueues, OnlyOf, Threads, Local, WakeFirst, SchedInv;
      ghost var k := kernel.State();
      RunsScheduled(k);
      ThreadsLength(Queue(k.sched, BasicQ(id)));
      WakeFirstInv(k, BasicQ(id), n);
      WakeFirstFacts(k.sched, BasicQ(id), n);
      kernel.WakeAllOf(BasicQ(id), n);
      StillLocal(k.sched, kernel.State().sched, id, p, n);
      QueueChanges(maps, k.sched, kernel.State().sched, p, f);
    }

    /** PLG_FUT_PCID_DEREGISTER: everybody asleep on the futex runs again, and it is known no more. */
    method Deregister(x: Thr, f: nat) returns (answer: Answer)
      requires Valid()
      modifies this`maps, kernel`threads, kernel`queues, kernel`ring
      ensures Valid() && Sleepers(x.pid, f) == (if f != 0 then [] else old(Sleepers(x.pid, f)))
      ensures answer == if x.pid !in old(maps) then Fatal else Done
      ensures f != 0 ==> !Known(maps, x.pid, f)
      ensures kernel.ring == old(kernel.ring) + (if f != 0 then old(Sleepers(x.pid, f)) else [])
      ensures OnlyOf(old(maps), old(kernel.State().sched), maps, kernel.State().sched, x.pid, f)
    {
      hide Inv, OwnQueues, Threads;
      if x.pid !in maps { return Fatal; }
      if f == 0 || f !in maps[x.pid] { return Done; }
      var n := |kernel.QueueOf(BasicQ(maps[x.pid][f]))|;
      ThreadsLength(kernel.QueueOf(BasicQ(maps[x.pid][f])));
      WakeSome(x.pid, f, n);
      FutexForgotten(maps, kernel.State().sched, x.pid, f);
      maps := maps[x.pid := maps[x.pid] - {f}];
      return Done;
    }

    /** PLG_FUT_PCID_WAIT: the caller sleeps only while the futex still holds what it expects. */
    method Wait(x: Thr, f: nat, expected: nat, word: Option<nat>, memory: bool) returns (answer: Answer)
      requires Valid() && Caller(x)
      modifies kernel`threads, kernel`queues, kernel`ring
      ensures Valid()
      ensures answer == if x.pid !in maps then Fatal else if f == 0 || f !in maps[x.pid] then Invalid
        else match word case None => Fatal case Some(w) => if w != expected then Done else if !memory then NoMemory
          else Sleeping
      ensures answer != Sleeping ==> kernel.State() == old(kernel.State())
      ensures answer == Sleeping ==> Sleepers(x.pid, f) == old(Sleepers(x.pid, f)) + [x]
      ensures answer == Sleeping ==>
        kernel.threads == old(kernel.threads)[x := Waiting(BasicQ(maps[x.pid][f]))] && x !in kernel.ring
      ensures OnlyOf(old(maps), old(kernel.State().sched), maps, kernel.State().sched, x.pid, f)
    {
      if x.pid !in maps { return Fatal; }
      if f == 0 || f !in maps[x.pid] { return Invalid; }
      if word == None { return Fatal; }
      if word.value != expected { return Done; }
      if !memory { return NoMemory; }
      var id := maps[x.pid][f];
      assert Known(maps, x.pid, f) && Local(kernel.State().sched, id, x.pid);
      hide Inv, OwnQueues, OnlyOf, Threads, Local;
      ghost var k := kernel.State();
      EnterLastInv(k, BasicQ(id), x, {});
      Enters(k.sched, x, id, x.pid);
      kernel.WaitIn(x, BasicQ(id), {});
      QueueChanges(maps, k.sched, kernel.State().sched, x.pid, f);
      WithoutThrFacts(k.sched.ring, {x});
      return Sleeping;
    }

    /** PLG_FUT_PCID_WAKE: the first sleeper, or all of them. */
    method Wake(x: Thr, f: nat, all: bool) returns (answer: Answer)
      requires Valid()
      modifies kernel`threads, kernel`queues, kernel`ring
      ensures Valid()
      ensures answer == if x.pid !in maps then Fatal else if f == 0 || f !in maps[x.pid] then Invalid else Done
      ensures var l := old(Sleepers(x.pid, f));
        var n := if answer != Done || l == [] then 0 else if all then |l| else 1;
        Sleepers(x.pid, f) == l[n..] && kernel.ring == old(kernel.ring) + l[..n]
      ensures OnlyOf(old(maps), old(kernel.State().sched), maps, kernel.State().sched, x.pid, f)
    {
      hide Inv, OwnQueues, Threads;
      if x.pid !in maps { return Fatal; }
      if f == 0 || f !in maps[x.pid] { return Invalid; }
      var l := kernel.QueueOf(BasicQ(maps[x.pid][f]));
      ThreadsLength(l);
      var n := if l == [] then 0 else if all then |l| else 1;
      WakeSome(x.pid, f, n);
      return Done;
    }

    // -------------------------------------------------------------------------
    // The mutex's system calls
    // -------------------------------------------------------------------------

    /** What mut_lock asks of the kernel is one step of the protocol. */
    method MutexWait(
        x: Thr, f: nat, word: nat, readable: bool, memory: bool, ghost m: FutexMutex.Mutex) returns (answer: Answer)
      requires Valid() && Caller(x) && x.pid in maps && f != 0 && Agrees(m, Sleepers(x.pid, f), Known(maps, x.pid, f))
      requires x.tid in m.pc && m.pc[x.tid] == FutexMutex.CallWait && m.word == word
      modifies kernel`threads, kernel`queues, kernel`ring
      ensures Valid() && (answer == Fatal ==> !readable && kernel.State() == old(kernel.State()))
      ensures (answer == NoMemory ==> !memory)
      ensures answer != Fatal ==>
        var next := FutexMutex.Next(m, if answer == NoMemory then FutexMutex.WaitFails(x.tid)
          else FutexMutex.Step(x.tid));
        && Agrees(next, Sleepers(x.pid, f), Known(maps, x.pid, f))
        && (answer == Sleeping <==> next.pc[x.tid] == FutexMutex.Asleep)
    {
      hide Inv, OwnQueues, Threads, OnlyOf;
      answer := Wait(x, f, FutexMutex.CONTENDED, if readable then Some(word) else None, memory);
    }

    /** What mut_unlock asks of the kernel is one step of the protocol. */
    method MutexWake(x: Thr, f: nat, ghost m: FutexMutex.Mutex) returns (answer: Answer)
      requires Valid() && x.pid in maps && f != 0 && Agrees(m, Sleepers(x.pid, f), Known(maps, x.pid, f))
      requires x.tid in m.pc && m.pc[x.tid] == FutexMutex.Waking
      modifies kernel`threads, kernel`queues, kernel`ring
      ensures Valid() && Agrees(FutexMutex.Next(m, FutexMutex.Step(x.tid)), Sleepers(x.pid, f), Known(maps, x.pid, f))
      ensures kernel.ring == old(kernel.ring) + old(Sleepers(x.pid, f))
    {
      hide Inv, OwnQueues, Threads, OnlyOf;
      ghost var l := Sleepers(x.pid, f);
      assert l[..|l|] == l;
      answer := Wake(x, f, true);
    }

    /** cleanup_mutex */
    method MutexCleanup(x: Thr, f: nat, ghost m: FutexMutex.Mutex) returns (answer: Answer)
      requires Valid() && x.pid in maps && f != 0 && Agrees(m, Sleepers(x.pid, f), Known(maps, x.pid, f))
      modifies this`maps, kernel`threads, kernel`queues, kernel`ring
      ensures Valid() && Agrees(FutexMutex.Next(m, FutexMutex.Deregister), Sleepers(x.pid, f), Known(maps, x.pid, f))
      ensures kernel.ring == old(kernel.ring) + old(Sleepers(x.pid, f))
    {
      hide Inv, OwnQueues, Threads, OnlyOf;
      answer := Deregister(x, f);
    }
  }

  /** The protocol's queue is the kernel's, and it knows the futex as long as the kernel does. */
  ghost predicate Agrees(m: FutexMutex.Mutex, sleepers: seq<Thr>, known: bool) {
    m.known == known && |m.queue| == |sleepers| && forall i :: 0 <= i < |sleepers| ==> m.queue[i] == sleepers[i].tid
  }

  /** Threads of a process that has exited sleep nowhere. */
  lemma NobodyAsleep(maps: FutMaps, k: KState, p: Pid)
    requires Inv(k, {}) && OwnQueues(maps, k.sched) && p in k.tree && k.tree[p].exited
    ensures forall f :: SleepersIn(maps, k.sched, p, f) == []
  {
    hide TreeInv;
    forall f | Known(maps, p, f)
      ensures Queue(k.sched, BasicQ(maps[p][f])) == []
    {
      assert Local(k.sched, maps[p][f], p);
      HeadWaits(k, BasicQ(maps[p][f]));
    }
  }

  lemma HeadWaits(k: KState, q: QName)
    requires Inv(k, {})
    ensures Queue(k.sched, q) != [] ==> var w := Queue(k.sched, q)[0];
      w in Queue(k.sched, q) && w.thr.pid in k.tree && !k.tree[w.thr.pid].exited
  {
    hide TreeInv;
    var l := Queue(k.sched, q);
    if l != [] {
      assert InQueue(l, l[0].thr) && PlaceOk(k.sched, l[0].thr) && OwnerOk(k, l[0].thr);
    }
  }

  lemma NobodyUnknown(maps: FutMaps, s: Sched, p: Pid)
    requires p !in maps
    ensures forall f :: SleepersIn(maps, s, p, f) == []
  {
  }

  lemma ProcessForgotten(maps: FutMaps, s: Sched, p: Pid)
    requires OwnQueues(maps, s)
    ensures OwnQueues(maps - {p}, s)
    ensures forall q, g :: q != p ==> SleepersIn(maps - {p}, s, q, g) == SleepersIn(maps, s, q, g)
  {
    var m := maps - {p};
    assert forall q, g :: Known(m, q, g) ==> Known(maps, q, g) && m[q][g] == maps[q][g];
    assert forall q, g :: q != p && Known(maps, q, g) ==> Known(m, q, g);
  }

  lemma RunsScheduled(k: KState)
    requires Inv(k, {})
    ensures SchedInv(k.sched)
  {
  }

  lemma ThreadsLength(l: seq<Waiter>)
    ensures |Threads(l)| == |l|
  {
  }
}
