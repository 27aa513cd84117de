/**
  The system calls and the clock tick as transitions of the kernel state.
 */
module KernelCalls {
  import opened ProcessTree
  import opened Scheduling
  import opened TimedQueue
  import opened KernelModel

  datatype Option<T> = None | Some(value: T)

  /** A 32-bit vector, as the set of its bits. */
  type Bits = v: set<nat> | forall i :: i in v ==> i < 32

  /** What the caller finds when it runs again; `NoReply` when it does not return now. */
  datatype Reply =
    | NoReply | Success | BadArgs | Mismatch | Empty | NoMem | Unknown | Forked(child: Pid) | Spawned(tid: nat)
    | Dead(pid: Pid, status: int) | OldMask(mask: set<nat>) | Signalled(sid: nat) | Joined(tid: nat)

  datatype After = After(k: KState, reply: Reply)

  /** An error the kernel cannot recover from makes the caller shut the system down. */
  function Settle(o: Outcome, reply: Reply): (r: After) {
    After(if o.ok then o.k else o.k.(down := true), reply)
  }

  /** The system calls of the thread at the head of the ring, and the tick of the clock. */
  datatype Event =
    | Fork(child: Option<Pid>)        // the ID and memory for a child, when there are any
    | ExitProcess(status: int)
    | ReapAny
    | Reap(pid: Pid)
    | SignalParent(sid: nat)
    | Signal(pid: Pid, sid: nat)
    | AllowSignals(v: Bits)
    | WaitSignal(v: Bits)
    | ClearSignals(v: Bits)
    | Sleep(ticks: U32)
    | Spawn(tid: Option<nat>)
    | ExitThread(value: int)
    | Join(v: Bits)
    | Block(queue: nat)
    | WakeAll(queue: nat)
    | Tick

  /** New processes and threads get unused IDs. */
  ghost predicate Fits(k: KState, e: Event) {
    match e
    case Fork(Some(c)) => c !in k.tree
    case Spawn(Some(t)) => k.sched.ring != [] ==> Thr(k.sched.ring[0].pid, t) !in k.sched.threads
    case _ => true
  }

  function Plus(now: U32, ticks: U32): U32 {
    (now + ticks) % 0x1_0000_0000
  }

  // ---------------------------------------------------------------------------
  // Processes
  // ---------------------------------------------------------------------------

  function ForkP(k: KState, x: Thr, c: Pid): KState
    requires x.pid in k.tree
  {
    k.(tree := ProcessTree.Forked(k.tree, x.pid, c), signals := k.signals[c := Signals({}, {})],
      mains := k.mains[c := x.tid],
       sched := ScheduleOne(k.sched, Thr(c, x.tid)))
  }

  function ReapP(k: KState, p: Pid, z: Pid): KState
    requires p in k.tree
  {
    k.(tree := Reaped(k.tree, p, z), signals := k.signals - {z}, mains := k.mains - {z},
       sched := Sched(
         map x | x in k.sched.threads && x.pid != z :: k.sched.threads[x],
         k.sched.queues - {JoinQ(z), SignalQ(z)},
         k.sched.ring))
  }

  function ReapCall(k: KState, p: Pid, z: Pid): (r: After)
    requires p in k.tree
  {
    if z !in k.tree || z == k.root || k.tree[z].parent != p then After(k, Mismatch)
    else if !k.tree[z].exited then After(k, Empty)
    else if z !in k.tree[p].zombies then Settle(Outcome(k, false), NoReply)
    else After(ReapP(k, p, z), Dead(z, k.tree[z].status))
  }

  // ---------------------------------------------------------------------------
  // Signals
  // ---------------------------------------------------------------------------

  ghost function SignalCall(k: KState, x: Thr, target: Option<Pid>, sid: nat): (r: After)
    requires Shaped(k) && x.pid in k.tree
  {
    if target == None || target.value !in k.tree then After(k, Mismatch)
    else
      var o := SignalP(k, target.value, sid);
      Settle(o, if o.k.tree[x.pid].exited then NoReply else Success)
  }

  ghost function AllowCall(k: KState, p: Pid, v: set<nat>): (r: After)
    requires Shaped(k) && p in k.tree
  {
    var k1 := k.(signals := k.signals[p := k.signals[p].(allowed := v)]);
    if k.signals[p].pending <= v then After(k1, OldMask(k.signals[p].allowed))
    else Settle(ExitProcP(k1, p, PROC_ES_SIGNAL), NoReply)
  }

  /** The lowest bit of `v` from `i` on, or 32. */
  function Lowest(v: set<nat>, i: nat): (r: nat)
    ensures (forall b :: i <= b < r ==> b !in v) && (r in v || r >= 32)
    decreases 32 - i
  {
    if i >= 32 || i in v then i else Lowest(v, i + 1)
  }

  function WaitCall(k: KState, x: Thr, v: set<nat>): (r: After)
    requires x.pid in k.signals
  {
    if v == {} then After(k, BadArgs)
    else
      var s := Lowest(v * k.signals[x.pid].pending, 0);
      if s < 32 then After(SetPending(k, x.pid, k.signals[x.pid].pending - {s}), Signalled(s))
      else After(EnterLast(k, x, SignalQ(x.pid), v), NoReply)
  }

  function EnterLast(k: KState, x: Thr, q: QName, mask: set<nat>): KState {
    k.(sched := Enter(k.sched, x, q, Queue(k.sched, q) + [Waiter(x, mask, 0)]))
  }

  // ---------------------------------------------------------------------------
  // Threads
  // ---------------------------------------------------------------------------

  function SleepCall(k: KState, x: Thr, ticks: U32): KState {
    k.(sched := Enter(k.sched, x, SleepQ,
      InsertTimed(k.now, Queue(k.sched, SleepQ), Waiter(x, {}, Plus(k.now, ticks)))))
  }

  function SpawnP(k: KState, p: Pid, t: nat): KState {
    k.(sched := ScheduleOne(k.sched, Thr(p, t)))
  }

  function DeleteThread(s: Sched, x: Thr): Sched {
    s.(threads := s.threads - {x})
  }

  ghost function ExitThreadCall(k: KState, x: Thr, value: int): (r: Outcome)
    requires Shaped(k) && x.pid in k.tree && x in k.sched.threads
  {
    if x.tid == k.mains[x.pid] then ExitProcP(k, x.pid, value)
    else Outcome(k.(sched := ExitedThread(k.sched, x)), true)
  }

  /** The exited thread is joined by the first thread that waits for it, or stays until somebody joins it. */
  function ExitedThread(s: Sched, x: Thr): Sched
    requires x in s.threads
  {
    var l := Queue(s, JoinQ(x.pid));
    var i := FirstMatch(l, x.tid);
    var s1 := s.(ring := WithoutThr(s.ring, {x}));
    if i == |l| then s1.(threads := s.threads[x := Exited])
    else WakeAt(DeleteThread(s1, x), JoinQ(x.pid), i)
  }

  function Joinable(s: Sched, p: Pid, v: set<nat>): set<nat> {
    set t | t in v && Thr(p, t) in s.threads && s.threads[Thr(p, t)] == Exited
  }

  function JoinCall(k: KState, x: Thr, v: set<nat>): (r: After) {
    if v == {} || v == {x.tid} then After(k, BadArgs)
    else
      var t := Lowest(Joinable(k.sched, x.pid, v), 0);
      if t < 32 then After(k.(sched := DeleteThread(k.sched, Thr(x.pid, t))), Joined(t))
      else After(EnterLast(k, x, JoinQ(x.pid), v), NoReply)
  }

  /** The first `n` waiters of the queue are scheduled in order. */
  function WakeFirst(s: Sched, q: QName, n: nat): Sched
    requires n <= |Queue(s, q)|
    decreases n
  {
    if n == 0 then s else WakeFirst(WakeAt(s, q, 0), q, n - 1)
  }

  function Advance(ring: seq<Thr>): (r: seq<Thr>) {
    if ring == [] then [] else ring[1..] + [ring[0]]
  }

  function TickP(k: KState): KState {
    var now := Plus(k.now, 1);
    var s := WakeFirst(k.sched, SleepQ, Due(k.now, Queue(k.sched, SleepQ), Remaining(k.now, now)));
    k.(now := now, sched := if k.sched.ring == [] then s else s.(ring := Advance(s.ring)))
  }

  // ---------------------------------------------------------------------------
  // One step
  // ---------------------------------------------------------------------------

  ghost predicate CanRun(k: KState) {
    Shaped(k) && forall x :: x in k.sched.ring ==> x in k.sched.threads && x.pid in k.tree
  }

  ghost function Step(k: KState, e: Event): (r: After)
    requires CanRun(k)
  {
    if e.Tick? then After(TickP(k), NoReply)
    else if e.WakeAll? then After(k.(sched := WakeFirst(k.sched, BasicQ(e.queue), |Queue(k.sched, BasicQ(e.queue))|)),
      NoReply)
    else if k.sched.ring == [] then Settle(Outcome(k, false), NoReply)
    else
      var x := k.sched.ring[0];
      assert x in k.sched.ring;
      Call(k, x, e)
  }

  ghost function Call(k: KState, x: Thr, e: Event): (r: After)
    requires Shaped(k) && x in k.sched.threads && x.pid in k.tree && !e.Tick? && !e.WakeAll?
  {
    var p := x.pid;
    match e
    case Fork(None) => After(k, NoMem)
    case Fork(Some(c)) => After(ForkP(k, x, c), Reply.Forked(c))
    case ExitProcess(status) => Settle(ExitProcP(k, p, status), NoReply)
    case ReapAny => if k.tree[p].zombies == [] then After(k, Empty) else ReapCall(k, p, k.tree[p].zombies[0])
    case Reap(z) => ReapCall(k, p, z)
    case SignalParent(sid) => SignalCall(k, x, if p == k.root then None else Some(k.tree[p].parent), sid)
    case Signal(q, sid) => SignalCall(k, x, Some(q), sid)
    case AllowSignals(v) => AllowCall(k, p, v)
    case WaitSignal(v) => WaitCall(k, x, v)
    case ClearSignals(v) => After(SetPending(k, p, k.signals[p].pending - v), NoReply)
    case Sleep(ticks) => After(SleepCall(k, x, ticks), NoReply)
    case Spawn(None) => After(k, Unknown)
    case Spawn(Some(t)) => After(SpawnP(k, p, t), Spawned(t))
    case ExitThread(value) => Settle(ExitThreadCall(k, x, value), NoReply)
    case Join(v) => JoinCall(k, x, v)
    case Block(q) => After(EnterLast(k, x, BasicQ(q), {}), NoReply)
  }
}
