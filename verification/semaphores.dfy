/**
  The semaphores of the shared memory plugin: passes that are lent out, and threads that wait for one.
 */
module Semaphores {
  import opened ProcessTree
  import opened Scheduling
  import opened KernelModel
  import opened KernelCalls
  import opened KernelRuns
  import opened KernelInPlace

  datatype Answer = Done | BadArgument | NoMemory | Sleeping | Nothing

  /** The waiters that do not belong to the process. */
  function OthersOf(l: seq<Waiter>, p: Pid): seq<Waiter> {
    if l == [] then [] else (if l[0].thr.pid == p then [] else [l[0]]) + OthersOf(l[1..], p)
  }

  lemma {:induction false} OthersAre(l: seq<Waiter>, p: Pid, xs: set<Thr>)
    requires forall w :: w in l ==> (w.thr in xs <==> w.thr.pid == p)
    ensures WithoutWaiter(l, xs) == OthersOf(l, p)
  {
    if l != [] {
      assert l[0] in l;
      OthersAre(l[1..], p, xs);
    }
  }

  lemma {:induction false} OthersMembers(l: seq<Waiter>, p: Pid)
    ensures forall w :: w in OthersOf(l, p) <==> w in l && w.thr.pid != p
  {
    if l != [] { OthersMembers(l[1..], p); }
  }

  /** One waiting thread leaves its queue for the ring. */
  lemma WakeOne(k: KState, q: QName, x: Thr)
    requires Inv(k, {}) && x in k.sched.threads && k.sched.threads[x] == Waiting(q)
    ensures var s := ScheduleOne(DetachOne(k.sched, x), x);
      && Inv(k.(sched := s), {}) && Queue(s, q) == WithoutWaiter(Queue(k.sched, q), {x})
      && s.ring == k.sched.ring + [x] && s.threads.Keys == k.sched.threads.Keys
  {
    PlacesKept(k);
    assert PlaceOk(k.sched, x) && InQueue(Queue(k.sched, q), x);
    hide Inv, SchedInv, InQueue;
    DetachOneIsDetachAll(k.sched, x);
    var i := PositionIn(Queue(k.sched, q), x);
    WakeKeeps(k.sched, q, i);
    WakeInv(k, q, i);
  }

  lemma PositionIn(l: seq<Waiter>, x: Thr) returns (i: nat)
    requires InQueue(l, x)
    ensures i < |l| && l[i].thr == x
  {
    i :| 0 <= i < |l| && l[i].thr == x;
  }

  /** Who waits in a queue, waits there and nowhere else. */
  lemma WaitersWait(k: KState, q: QName)
    requires Inv(k, {})
    ensures forall w :: w in Queue(k.sched, q) ==> w.thr in k.sched.threads && k.sched.threads[w.thr] == Waiting(q)
    ensures forall x :: x in k.sched.threads && k.sched.threads[x] != Waiting(q) ==> !InQueue(Queue(k.sched, q), x)
  {
    PlacesKept(k);
    forall w | w in Queue(k.sched, q)
      ensures w.thr in k.sched.threads && k.sched.threads[w.thr] == Waiting(q)
    {
      assert PlaceOk(k.sched, w.thr) && InQueue(Queue(k.sched, q), w.thr);
    }
    forall x | x in k.sched.threads && k.sched.threads[x] != Waiting(q)
      ensures !InQueue(Queue(k.sched, q), x)
    {
      assert PlaceOk(k.sched, x);
    }
  }

  lemma StillWaits(l: seq<Waiter>, done: set<Thr>, x: Thr)
    ensures (exists w :: w in l && w.thr == x) && x !in done ==> InQueue(WithoutWaiter(l, done), x)
  {
    WithoutWaiterFacts(l, done);
    if w :| w in l && w.thr == x && x !in done {
      assert w in WithoutWaiter(l, done);
      var i :| 0 <= i < |WithoutWaiter(l, done)| && WithoutWaiter(l, done)[i] == w;
    }
  }

  lemma NobodyLeft(k: KState, q: QName)
    requires Inv(k, {})
    ensures WithoutWaiter(Queue(k.sched, q), {}) == Queue(k.sched, q)
  {
    WithoutAbsentWaiter(Queue(k.sched, q), {});
  }

  class Semaphore {
    const kernel: Kernel
    const maxPasses: nat
    /** The kernel's queue of the threads that wait for a pass. */
    const queue: nat
    var passes: nat
    var refs: set<Pid>

    /** Never more passes than there are, nobody waits while one is there, and only threads of its users wait. */
    ghost predicate Valid()
      reads this, kernel
    {
      && Inv(kernel.State(), {}) && passes <= maxPasses && 0 < maxPasses && (Waiters() != [] ==> passes == 0)
      && forall w :: w in Waiters() ==> w.thr.pid in refs
    }

    ghost function Waiters(): seq<Waiter>
      reads this, kernel
    {
      Queue(kernel.State().sched, BasicQ(queue))
    }

    constructor (kernel: Kernel, passes: nat, queue: nat, p: Pid)
      requires Inv(kernel.State(), {}) && 0 < passes && Queue(kernel.State().sched, BasicQ(queue)) == []
      ensures Valid() && this.kernel == kernel && this.passes == maxPasses == passes && refs == {p}
      ensures this.queue == queue
    {
      this.kernel, this.passes, maxPasses, this.queue, refs := kernel, passes, passes, queue, {p};
    }

    /** PLG_SHM_PCID_SEM_DEC: a pass is taken, or the caller waits for one. */
    method Dec(x: Thr, memory: bool) returns (answer: Answer)
      requires Valid() && x in kernel.threads && kernel.threads[x] == Scheduled
      modifies this`passes, kernel`threads, kernel`queues, kernel`ring
      ensures Valid()
      ensures answer == if x.pid !in refs then BadArgument else if old(passes) > 0 then Done
        else if memory then Sleeping else NoMemory
      ensures passes == if answer == Done then old(passes) - 1 else old(passes)
      ensures Waiters() == old(Waiters()) + (if answer == Sleeping then [Waiter(x, {}, 0)] else [])
      ensures kernel.State() == if answer == Sleeping then EnterLast(old(kernel.State()), x, BasicQ(queue), {})
        else old(kernel.State())
    {
      hide Inv;
      if x.pid !in refs { return BadArgument; }
      if passes > 0 {
        passes := passes - 1;
        assert Waiters() == [];
        return Done;
      }
      if !memory { return NoMemory; }
      EnterLastInv(kernel.State(), BasicQ(queue), x, {});
      kernel.WaitIn(x, BasicQ(queue), {});
      return Sleeping;
    }

    /** PLG_SHM_PCID_SEM_INC: the pass goes to the first waiter, or back. */
    method Inc(x: Thr) returns (answer: Answer)
      requires Valid()
      modifies this`passes, kernel`threads, kernel`queues, kernel`ring
      ensures Valid()
      ensures answer == if x.pid !in refs then BadArgument else Nothing
      ensures var w := old(Waiters());
        if answer == BadArgument || (w == [] && old(passes) == maxPasses) then passes == old(passes)
          && kernel.State() == old(kernel.State())
        else if w == [] then passes == old(passes) + 1 && kernel.State() == old(kernel.State())
        else
          && passes == 0 && Waiters() == w[1..] && kernel.ring == old(kernel.ring) + [w[0].thr]
          && kernel.State() == old(kernel.State()).(sched := WakeFirst(old(kernel.State().sched), BasicQ(queue), 1))
    {
      if x.pid !in refs { return BadArgument; }
      if passes == maxPasses { return Nothing; }
      passes := passes + 1;
      if passes == 1 && |kernel.QueueOf(BasicQ(queue))| > 0 {
        hide Inv, SchedInv, WakeFirst;
        ghost var k := kernel.State();
        PlacesKept(k);
        WakeFirstInv(k, BasicQ(queue), 1);
        WakeFirstFacts(k.sched, BasicQ(queue), 1);
        kernel.WakeAllOf(BasicQ(queue), 1);
        passes := passes - 1;
      }
      return Nothing;
    }

    /** A thread that waits for the semaphore runs again. */
    method WakeIfWaiting(x: Thr)
      requires Inv(kernel.State(), {}) && x in kernel.threads
      modifies kernel`threads, kernel`queues, kernel`ring
      ensures Inv(kernel.State(), {}) && kernel.threads.Keys == old(kernel.threads).Keys
      ensures Waiters() == WithoutWaiter(old(Waiters()), {x})
      ensures old(kernel.ring) <= kernel.ring && (InQueue(old(Waiters()), x) ==> x in kernel.ring)
    {
      hide Inv, SchedInv, InQueue;
      ghost var k := kernel.State();
      WaitersWait(k, BasicQ(queue));
      if kernel.threads[x] == Waiting(BasicQ(queue)) {
        WakeOne(k, BasicQ(queue), x);
        kernel.ThreadDetach(x);
        kernel.ThreadSchedule(x);
      } else {
        WithoutAbsentWaiter(Queue(k.sched, BasicQ(queue)), {x});
      }
    }

    /** The threads of a process that wait for the semaphore run again. */
    method WakeOwn(p: Pid, tids: seq<nat>)
      requires Valid() && (forall t :: t in tids <==> Thr(p, t) in kernel.threads)
      modifies kernel`threads, kernel`queues, kernel`ring
      ensures Valid() && Waiters() == OthersOf(old(Waiters()), p)
      ensures forall w :: w in old(Waiters()) && w.thr.pid == p ==> w.thr in kernel.ring
    {
      hide Inv, SchedInv, InQueue, WithoutWaiter;
      ghost var l, all := Waiters(), kernel.threads.Keys;
      ghost var done: set<Thr> := {};
      NobodyLeft(kernel.State(), BasicQ(queue));
      WaitersWait(kernel.State(), BasicQ(queue));
      var i := 0;
      while i < |tids|
        invariant i <= |tids| && Inv(kernel.State(), {}) && kernel.threads.Keys == all
        invariant Waiters() == WithoutWaiter(l, done)
        invariant forall x :: x in done <==> x.pid == p && x.tid in tids[..i]
        invariant forall w :: w in l && w.thr in done ==> w.thr in kernel.ring
      {
        var x := Thr(p, tids[i]);
        assert tids[i] in tids;
        WithoutWaiterTwice(l, done, {x});
        StillWaits(l, done, x);
        WakeIfWaiting(x);
        done := done + {x};
        i := i + 1;
      }
      OthersAre(l, p, done);
      OthersMembers(l, p);
      if l == [] { assert Waiters() == []; }
    }

    /**
      PLG_SHM_PCID_SEM_CLOSE, of a process whose threads are `tids`; says whether nobody is left to use the semaphore.
     */
    method Close(p: Pid, tids: seq<nat>) returns (gone: bool)
      requires Valid() && (forall t :: t in tids <==> Thr(p, t) in kernel.threads)
      modifies this`refs, kernel`threads, kernel`queues, kernel`ring
      ensures Valid() && refs == old(refs) - {p}
      ensures gone <==> p in old(refs) && refs == {}
      ensures gone ==> Waiters() == []
      ensures p in old(refs) ==> Waiters() == OthersOf(old(Waiters()), p)
      ensures p in old(refs) ==> forall w :: w in old(Waiters()) && w.thr.pid == p ==> w.thr in kernel.ring
      ensures p !in old(refs) ==> kernel.State() == old(kernel.State())
    {
      gone := false;
      if p in refs {
        OthersMembers(Waiters(), p);
        WakeOwn(p, tids);
        refs := refs - {p};
        gone := refs == {};
        if gone && Waiters() != [] { assert Waiters()[0] in Waiters(); }
      }
    }

    /** What a fork does: the child can use what its parent can. */
    method OnFork(parent: Pid, child: Pid)
      requires Valid()
      modifies this`refs
      ensures Valid() && refs == if parent in old(refs) then old(refs) + {child} else old(refs)
    {
      if parent in refs {
        refs := refs + {child};
      }
    }

    /** What a reap does: none of the dead process's threads waits any more. */
    method OnReap(p: Pid) returns (gone: bool)
      requires Valid() && p in kernel.tree && kernel.tree[p].exited
      modifies this`refs
      ensures Valid() && refs == old(refs) - {p} && Waiters() == old(Waiters())
      ensures gone <==> p in old(refs) && refs == {}
      ensures gone ==> Waiters() == []
    {
      hide Inv;
      DeadWaitNot(kernel.State(), BasicQ(queue), p);
      gone := p in refs && refs == {p};
      refs := refs - {p};
      if refs == {} && Waiters() != [] { assert Waiters()[0] in Waiters(); }
    }
  }

  lemma DeadWaitNot(k: KState, q: QName, p: Pid)
    requires Inv(k, {}) && p in k.tree && k.tree[p].exited
    ensures forall w :: w in Queue(k.sched, q) ==> w.thr.pid != p
  {
    WaitersWait(k, q);
    forall w | w in Queue(k.sched, q)
      ensures w.thr.pid != p
    {
      assert OwnerOk(k, w.thr);
    }
  }

  lemma PlacesKept(k: KState)
    requires Inv(k, {})
    ensures SchedInv(k.sched)
  {
  }
}
