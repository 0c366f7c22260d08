/** The process manager as a value: the process table, the ready queue, the wait
    sets, the semaphores of every fork family, the current process and the trap
    frame, with one function per kernel operation.  Every operation runs with
    interrupts off, so each is one atomic step. */
module Kernel {
  import opened Basics
  import opened Semaphores

  const KERNEL_PID: Pid := 1
  const SLOT: nat := 0x1_0000_0000

  /** Exit codes are signed words. */
  type Code = x: int | -0x8000_0000_0000_0000 <= x < 0x8000_0000_0000_0000

  datatype Status = Running | Ready | Blocked | Dead

  /** Saved registers: `rax`, the stack pointer, and the rest. */
  datatype Context = Context(rax: nat, sp: nat, others: seq<nat>)

  /** A semaphore is named by the fork family that shares it and its key. */
  datatype SemId = SemId(family: Pid, key: nat)

  /** `data` stands for the shared process data (named by the pid of the family's
      first process) and `stackMin` for the address space with its lowest stack
      address; both are taken away when the process is killed. */
  datatype Proc = Proc(
    status: Status,
    ticks: nat,
    exitCode: Option<Code>,
    context: Context,
    parent: Option<Pid>,
    children: seq<Pid>,
    data: Option<Pid>,
    stackMin: Option<nat>)

  datatype Kernel = Kernel(
    procs: map<Pid, Proc>,
    ready: seq<Pid>,
    waiting: map<Pid, seq<Pid>>,
    sems: map<SemId, Sem>,
    current: Pid,
    lastPid: Pid,
    frame: Context)

  /** `Crash` stands for a panic or for a scan of the ready queue that never ends. */
  datatype Outcome = Done(k: Kernel) | Crash

  datatype Op =
    | User(regs: Context)
    | Tick
    | Fork(childMin: nat)
    | Exit(code: Code)
    | WaitPid(pid: Pid)
    | SemWait(key: nat)
    | SemSignal(key: nat)
    | NewSemaphore(key: nat, value: nat)
    | RemoveSemaphore(key: nat)
    | Spawn(entry: Context, stackMin: nat)

  /** A signed return value as it lands in a register. */
  function AsWord(x: Code): nat { x % 0x1_0000_0000_0000_0000 }

  // ---------------------------------------------------------------------------
  // One process
  // ---------------------------------------------------------------------------

  function Save(p: Proc, c: Context): Proc {
    if p.status.Dead? then p else p.(context := c, status := Ready)
  }

  function Killed(p: Proc, ret: Code): Proc {
    p.(exitCode := Some(ret), status := Dead, data := None, stackMin := None)
  }

  /** The child keeps the parent's offset inside its own stack slot. */
  function ChildSp(sp: nat, childMin: nat): nat {
    sp % SLOT + childMin / SLOT * SLOT
  }

  function ChildContext(c: Context, childMin: nat): Context {
    c.(sp := ChildSp(c.sp, childMin), rax := 0)
  }

  function ChildOf(p: Proc, pid: Pid, childMin: nat): Proc {
    Proc(Ready, 0, None, ChildContext(p.context, childMin), Some(pid), [], p.data, Some(childMin))
  }

  function Spawned(parent: Pid, pid: Pid, entry: Context, stackMin: nat): Proc {
    Proc(Ready, 0, None, entry, Some(parent), [], Some(pid), Some(stackMin))
  }

  // ---------------------------------------------------------------------------
  // Building blocks of the manager
  // ---------------------------------------------------------------------------

  function Put(k: Kernel, pid: Pid, p: Proc): Kernel { k.(procs := k.procs[pid := p]) }

  function PushReady(k: Kernel, pid: Pid): Kernel { k.(ready := k.ready + [pid]) }

  function SetRax(k: Kernel, v: nat): Kernel { k.(frame := k.frame.(rax := v)) }

  function SaveCurrent(k: Kernel): Kernel
    requires k.current in k.procs
  {
    var p := k.procs[k.current];
    Put(k, k.current, Save(p.(ticks := p.ticks + 1), k.frame))
  }

  function BlockProc(k: Kernel, pid: Pid): Kernel
    requires pid in k.procs
  {
    Put(k, pid, k.procs[pid].(status := Blocked))
  }

  function Wake(k: Kernel, pid: Pid): Kernel
    requires pid in k.procs
  {
    PushReady(Put(k, pid, k.procs[pid].(status := Ready)), pid)
  }

  /** Insertion into an ordered set of pids. */
  function Insert(s: seq<Pid>, pid: Pid): seq<Pid> {
    if s == [] || pid < s[0] then [pid] + s
    else if pid == s[0] then s
    else [s[0]] + Insert(s[1..], pid)
  }

  function WaitersOf(k: Kernel, pid: Pid): seq<Pid> {
    if pid in k.waiting then k.waiting[pid] else []
  }

  function AddWaiting(k: Kernel, pid: Pid): Kernel {
    k.(waiting := k.waiting[pid := Insert(WaitersOf(k, pid), k.current)])
  }

  /** Hand a return value to a process and wake it up. */
  function Deliver(k: Kernel, pid: Pid, ret: Code): Kernel
    requires pid in k.procs
  {
    var p := k.procs[pid];
    Wake(Put(k, pid, p.(context := p.context.(rax := AsWord(ret)))), pid)
  }

  function WakeEach(k: Kernel, pids: seq<Pid>, ret: Code): Kernel
    requires forall p <- pids :: p in k.procs
    decreases |pids|
  {
    if pids == [] then k
    else WakeEach(Deliver(k, pids[0], ret), pids[1..], ret)
  }

  function WakeWaiting(k: Kernel, ret: Code): Kernel
    requires forall p <- WaitersOf(k, k.current) :: p in k.procs
  {
    if k.current in k.waiting then
      WakeEach(k.(waiting := k.waiting - {k.current}), k.waiting[k.current], ret)
    else k
  }

  function Kill(k: Kernel, pid: Pid, ret: Code): Kernel {
    if pid in k.procs && !k.procs[pid].status.Dead? then Put(k, pid, Killed(k.procs[pid], ret))
    else k
  }

  /** The first ready process in the queue from index `i` on, if the scan gets there. */
  function Scan(k: Kernel, i: nat): (r: Option<nat>)
    requires i <= |k.ready|
    ensures r.Some? ==> i <= r.value < |k.ready| && k.ready[r.value] in k.procs
    decreases |k.ready| - i
  {
    if i == |k.ready| || k.ready[i] !in k.procs then None
    else if k.procs[k.ready[i]].status.Ready? then Some(i)
    else Scan(k, i + 1)
  }

  /** Dispatching the process at index `i`: those skipped go to the back. */
  function Dispatched(k: Kernel, i: nat): Kernel
    requires i < |k.ready| && k.ready[i] in k.procs
  {
    var p := k.procs[k.ready[i]];
    Put(k, k.ready[i], p.(status := Running)).(
      ready := k.ready[i + 1..] + k.ready[..i],
      frame := p.context,
      current := k.ready[i])
  }

  /** Restoring a process that has lost its address space panics. */
  function SwitchNext(k: Kernel): Outcome {
    match Scan(k, 0)
    case None => Crash
    case Some(i) => if k.procs[k.ready[i]].stackMin.Some? then Done(Dispatched(k, i)) else Crash
  }

  // ---------------------------------------------------------------------------
  // The atomic steps
  // ---------------------------------------------------------------------------

  function TickStep(k: Kernel): Outcome
    requires k.current in k.procs
  {
    SwitchNext(PushReady(SaveCurrent(k), k.current))
  }

  /** A child of the current process, which has just been saved, enters the table. */
  function AddChild(k: Kernel, childMin: nat): Kernel
    requires k.current in k.procs
  {
    var parent := k.procs[k.current];
    var child := k.lastPid + 1;
    var parent' := parent.(children := parent.children + [child],
                           context := parent.context.(rax := child));
    k.(lastPid := child,
       procs := k.procs[k.current := parent'][child := ChildOf(parent, k.current, childMin)])
  }

  /** The state after a fork, before the next process is picked. */
  function Forked(k: Kernel, childMin: nat): Kernel
    requires k.current in k.procs
  {
    PushReady(PushReady(AddChild(SaveCurrent(k), childMin), k.lastPid + 1), k.current)
  }

  function ExitStep(k: Kernel, code: Code): Outcome
    requires k.current in k.procs
  {
    if forall p <- WaitersOf(k, k.current) :: p in k.procs then
      SwitchNext(Kill(WakeWaiting(k, code), k.current, code))
    else Crash
  }

  predicate Alive(k: Kernel, pid: Pid) { pid in k.procs && !k.procs[pid].status.Dead? }

  function WaitPidStep(k: Kernel, pid: Pid): Outcome
    requires k.current in k.procs
  {
    if Alive(k, pid) then SwitchNext(AddWaiting(BlockProc(SaveCurrent(k), k.current), pid))
    else if pid in k.procs && k.procs[pid].exitCode.Some? then
      Done(SetRax(k, AsWord(k.procs[pid].exitCode.value)))
    else Crash
  }

  function SemWaitStep(k: Kernel, key: nat): Outcome
    requires k.current in k.procs
  {
    if k.procs[k.current].data.None? then Crash else
    var id := SemId(k.procs[k.current].data.value, key);
    if id !in k.sems then Done(SetRax(k, 1)) else
    var (s, r) := WaitSem(k.sems[id], k.current);
    var k' := k.(sems := k.sems[id := s]);
    if r.Ok? then Done(SetRax(k', 0))
    else SwitchNext(BlockProc(SaveCurrent(k'), k.current))
  }

  function SemSignalStep(k: Kernel, key: nat): Outcome
    requires k.current in k.procs
  {
    if k.procs[k.current].data.None? then Crash else
    var id := SemId(k.procs[k.current].data.value, key);
    if id !in k.sems then Done(SetRax(k, 1)) else
    var (s, r) := SignalSem(k.sems[id]);
    var k' := k.(sems := k.sems[id := s]);
    if r.Ok? then Done(SetRax(k', 0))
    else if r.pid in k'.procs then Done(Wake(k', r.pid))
    else Crash
  }

  /** Creating a semaphore under a key in use replaces it, waiters and all; the
      call then reports 1. */
  function NewSemStep(k: Kernel, key: nat, value: nat): Outcome
    requires k.current in k.procs
  {
    if k.procs[k.current].data.None? then Crash else
    var id := SemId(k.procs[k.current].data.value, key);
    Done(SetRax(k.(sems := k.sems[id := NewSem(value)]), if id in k.sems then 1 else 0))
  }

  function RemoveSemStep(k: Kernel, key: nat): Outcome
    requires k.current in k.procs
  {
    if k.procs[k.current].data.None? then Crash else
    var id := SemId(k.procs[k.current].data.value, key);
    Done(SetRax(k.(sems := k.sems - {id}), if id in k.sems then 0 else 1))
  }

  function SpawnStep(k: Kernel, entry: Context, stackMin: nat): Kernel {
    var pid := k.lastPid + 1;
    var k' := k.(lastPid := pid, procs := k.procs[pid := Spawned(k.current, pid, entry, stackMin)]);
    SetRax(PushReady(k', pid), pid)
  }

  function Step(k: Kernel, op: Op): Outcome
    requires k.current in k.procs
  {
    match op
    case User(regs) => Done(k.(frame := regs))
    case Tick => TickStep(k)
    case Fork(childMin) =>
      if k.procs[k.current].data.None? || k.procs[k.current].stackMin.None? then Crash
      else SwitchNext(Forked(k, childMin))
    case Exit(code) => ExitStep(k, code)
    case WaitPid(pid) => WaitPidStep(k, pid)
    case SemWait(key) => SemWaitStep(k, key)
    case SemSignal(key) => SemSignalStep(k, key)
    case NewSemaphore(key, value) => NewSemStep(k, key, value)
    case RemoveSemaphore(key) => RemoveSemStep(k, key)
    case Spawn(entry, stackMin) => Done(SpawnStep(k, entry, stackMin))
  }

  /** The kernel process runs kernel code only: it is preempted and it spawns,
      but it makes no system call that blocks, forks, exits or uses semaphores. */
  predicate Allowed(k: Kernel, op: Op) {
    k.current == KERNEL_PID ==> op.User? || op.Tick? || op.Spawn?
  }

  /** The manager right after boot: one process, the kernel, running. */
  predicate Booted(k: Kernel) {
    && k.procs.Keys == {KERNEL_PID}
    && k.procs[KERNEL_PID].status.Running?
    && k.procs[KERNEL_PID].exitCode.None?
    && k.procs[KERNEL_PID].data.Some?
    && k.procs[KERNEL_PID].stackMin.Some?
    && k.ready == []
    && k.waiting == map[]
    && k.sems == map[]
    && k.current == KERNEL_PID
    && k.lastPid == KERNEL_PID
  }
}
