/** The machine the kernel is meant to provide: every process has registers of
    its own and runs by itself, there is no ready queue and no current process,
    and a semaphore is a ledger that grants its oldest requests.  The kernel of
    module `Kernel` refines it, preemption being invisible. */
module KernelRefinement {
  import opened Basics
  import opened Semaphores
  import opened Kernel
  import opened KernelInvariant

  datatype Task = Live(regs: Context, waits: bool, family: Pid) | Exited(code: Code)

  datatype Machine = Machine(
    tasks: map<Pid, Task>,
    waiters: map<Pid, set<Pid>>,
    ledgers: map<SemId, Ledger>,
    lastPid: Pid)

  predicate Runs(m: Machine, p: Pid) { p in m.tasks && m.tasks[p].Live? && !m.tasks[p].waits }

  function WithRegs(m: Machine, p: Pid, regs: Context): Machine
    requires Runs(m, p)
  {
    m.(tasks := m.tasks[p := m.tasks[p].(regs := regs)])
  }

  function Returning(m: Machine, p: Pid, v: nat): Machine
    requires Runs(m, p)
  {
    WithRegs(m, p, m.tasks[p].regs.(rax := v))
  }

  function WaitersFor(m: Machine, p: Pid): set<Pid> {
    if p in m.waiters then m.waiters[p] else {}
  }

  /** A register that holds a signed number: the number itself, or 2 to the 64th
      more if it is negative. */
  function Signed(code: Code): nat {
    if code >= 0 then code else code + 0x1_0000_0000_0000_0000
  }

  function Delivered(t: Task, code: Code): Task {
    if t.Live? then t.(regs := t.regs.(rax := Signed(code)), waits := false) else t
  }

  function Waiting(t: Task): Task {
    if t.Live? then t.(waits := true) else t
  }

  function Released(t: Task): Task {
    if t.Live? then t.(waits := false) else t
  }

  /** The child has the caller's registers, but 0 in `rax` and the stack pointer
      moved by the distance of the two stack slots. */
  function ForkedRegs(regs: Context, childMin: nat): Context {
    var from := regs.sp - regs.sp % 0x1_0000_0000;
    var to := childMin - childMin % 0x1_0000_0000;
    Context(0, regs.sp - from + to, regs.others)
  }

  function ForkTask(m: Machine, p: Pid, childMin: nat): Machine
    requires Runs(m, p)
  {
    var child := m.lastPid + 1;
    var t := m.tasks[p];
    m.(lastPid := child,
       tasks := m.tasks[p := t.(regs := t.regs.(rax := child))]
                       [child := Live(ForkedRegs(t.regs, childMin), false, t.family)])
  }

  /** Everybody waiting for `p` gets its code and runs again. */
  function ExitTask(m: Machine, p: Pid, code: Code): Machine
    requires Runs(m, p)
  {
    m.(waiters := m.waiters - {p},
       tasks := map q | q in m.tasks ::
         if q == p then Exited(code)
         else if q in WaitersFor(m, p) then Delivered(m.tasks[q], code)
         else m.tasks[q])
  }

  function WaitTask(m: Machine, p: Pid, q: Pid): Machine
    requires Runs(m, p) && q in m.tasks
  {
    match m.tasks[q]
    case Exited(code) => Returning(m, p, Signed(code))
    case Live(_, _, _) =>
      m.(tasks := m.tasks[p := Waiting(m.tasks[p])],
         waiters := m.waiters[q := WaitersFor(m, q) + {p}])
  }

  /** A request is entered in the ledger; the caller goes on if the ledger
      grants it at once. */
  function SemWaitTask(m: Machine, p: Pid, key: nat): Machine
    requires Runs(m, p)
  {
    var id := SemId(m.tasks[p].family, key);
    if id !in m.ledgers then Returning(m, p, 1) else
    var l := m.ledgers[id];
    var m' := m.(ledgers := m.ledgers[id := Request(l, p)]);
    if |l.requests| < l.Units() then Returning(m', p, 0)
    else m'.(tasks := m'.tasks[p := Waiting(m'.tasks[p])])
  }

  /** One more unit is issued; if a request was outstanding, the oldest is
      granted and its task goes on, with its registers as they were. */
  function SemSignalTask(m: Machine, p: Pid, key: nat): Machine
    requires Runs(m, p)
  {
    var id := SemId(m.tasks[p].family, key);
    if id !in m.ledgers then Returning(m, p, 1) else
    var l := m.ledgers[id];
    var m' := m.(ledgers := m.ledgers[id := Issue(l)]);
    if l.Units() < |l.requests| then
      var q := l.requests[l.Units()];
      if q in m'.tasks then m'.(tasks := m'.tasks[q := Released(m'.tasks[q])]) else m'
    else Returning(m', p, 0)
  }

  function MachineStep(m: Machine, p: Pid, op: Op): Machine
    requires Runs(m, p) && (op.WaitPid? ==> op.pid in m.tasks)
  {
    match op
    case User(regs) => WithRegs(m, p, regs)
    case Tick => m
    case Fork(childMin) => ForkTask(m, p, childMin)
    case Exit(code) => ExitTask(m, p, code)
    case WaitPid(q) => WaitTask(m, p, q)
    case SemWait(key) => SemWaitTask(m, p, key)
    case SemSignal(key) => SemSignalTask(m, p, key)
    case NewSemaphore(key, value) =>
      var id := SemId(m.tasks[p].family, key);
      Returning(m.(ledgers := m.ledgers[id := Ledger(value, 0, [])]), p, if id in m.ledgers then 1 else 0)
    case RemoveSemaphore(key) =>
      var id := SemId(m.tasks[p].family, key);
      Returning(m.(ledgers := m.ledgers - {id}), p, if id in m.ledgers then 0 else 1)
    case Spawn(entry, _) =>
      var pid := m.lastPid + 1;
      Returning(m.(lastPid := pid, tasks := m.tasks[pid := Live(entry, false, pid)]), p, pid)
  }

  // ---------------------------------------------------------------------------
  // The refinement
  // ---------------------------------------------------------------------------

  /** A process as a task, given its registers. */
  function TaskOf(p: Proc, regs: Context): Task
    requires WellFormed(p)
  {
    if p.status.Dead? then Exited(p.exitCode.value) else Live(regs, p.status.Blocked?, p.data.value)
  }

  /** The registers of a process are the live ones if it is current and the
      saved ones otherwise. */
  function RegsOf(k: Kernel, p: Pid): Context
    requires p in k.procs
  {
    if p == k.current then k.frame else k.procs[p].context
  }

  function Tasks(k: Kernel): map<Pid, Task>
    requires forall p <- k.procs :: WellFormed(k.procs[p])
  {
    map p | p in k.procs :: TaskOf(k.procs[p], RegsOf(k, p))
  }

  /** The same when nobody is running: all registers are saved ones. */
  function SavedTasks(k: Kernel): map<Pid, Task>
    requires forall p <- k.procs :: WellFormed(k.procs[p])
  {
    map p | p in k.procs :: TaskOf(k.procs[p], k.procs[p].context)
  }

  ghost predicate SameWaiters(waiting: map<Pid, seq<Pid>>, waiters: map<Pid, set<Pid>>) {
    && waiting.Keys == waiters.Keys
    && forall q, p :: q in waiting ==> (p in waiting[q] <==> p in waiters[q])
  }

  ghost predicate SameLedgers(sems: map<SemId, Sem>, ledgers: map<SemId, Ledger>) {
    && sems.Keys == ledgers.Keys
    && forall id <- sems :: Tracks(sems[id], ledgers[id])
  }

  /** Everything but the registers agrees. */
  ghost predicate Agrees(k: Kernel, m: Machine) {
    && SameWaiters(k.waiting, m.waiters)
    && SameLedgers(k.sems, m.ledgers)
    && m.lastPid == k.lastPid
  }

  ghost predicate Refines(k: Kernel, m: Machine) {
    Valid(k) && m.tasks == Tasks(k) && Agrees(k, m)
  }

  /** The part of validity that the comparison of registers needs. */
  ghost predicate Sound(k: Kernel) {
    && k.current in k.procs
    && k.procs[k.current].status.Running?
    && (forall p <- k.procs :: WellFormed(k.procs[p]) && p <= k.lastPid)
  }

  ghost predicate SoundTasks(k: Kernel, m: Machine) {
    Sound(k) && m.tasks == Tasks(k)
  }

  lemma DispatchTasks(k: Kernel)
    requires k.ready != [] && k.ready[0] in k.procs && k.procs[k.ready[0]].status.Ready?
    requires forall p <- k.procs :: WellFormed(k.procs[p])
    ensures forall p <- Dispatched(k, 0).procs :: WellFormed(Dispatched(k, 0).procs[p])
    ensures Tasks(Dispatched(k, 0)) == SavedTasks(k)
  {
  }

  lemma TickTasks(k: Kernel, m: Machine)
    requires SoundTasks(k, m)
    ensures var k' := PushReady(SaveCurrent(k), k.current);
            (forall p <- k'.procs :: WellFormed(k'.procs[p])) && SavedTasks(k') == m.tasks
  {
  }

  lemma ForkTasks(k: Kernel, m: Machine, childMin: nat)
    requires SoundTasks(k, m) && m.lastPid == k.lastPid
    ensures var k' := Forked(k, childMin);
            && (forall p <- k'.procs :: WellFormed(k'.procs[p]))
            && Runs(m, k.current)
            && SavedTasks(k') == ForkTask(m, k.current, childMin).tasks
  {
    var k' := Forked(k, childMin);
    var m' := ForkTask(m, k.current, childMin);
    assert SavedTasks(k').Keys == m'.tasks.Keys;
    forall p | p in k'.procs ensures WellFormed(k'.procs[p]) && SavedTasks(k')[p] == m'.tasks[p] {}
  }

  lemma ExitTasks(k: Kernel, m: Machine, code: Code)
    requires SoundTasks(k, m) && SameWaiters(k.waiting, m.waiters)
    ensures Runs(m, k.current)
    ensures var procs := Woken(k.procs, WaitersOf(k, k.current), code);
            var k' := k.(procs := procs[k.current := Killed(procs[k.current], code)]);
            (forall p <- WaitersOf(k, k.current) :: p in k.procs && k.procs[p].status.Blocked?) ==>
              (forall p <- k'.procs :: WellFormed(k'.procs[p]))
              && SavedTasks(k') == ExitTask(m, k.current, code).tasks
  {
  }

  lemma ParkTasks(k: Kernel, m: Machine)
    requires SoundTasks(k, m)
    ensures var k' := BlockProc(SaveCurrent(k), k.current);
            && (forall p <- k'.procs :: WellFormed(k'.procs[p]))
            && Runs(m, k.current)
            && SavedTasks(k') == m.tasks[k.current := Waiting(m.tasks[k.current])]
  {
  }

  lemma ReleaseTasks(k: Kernel, m: Machine, pid: Pid)
    requires SoundTasks(k, m) && pid in k.procs && k.procs[pid].status.Blocked?
    ensures var k' := Wake(k, pid);
            && (forall p <- k'.procs :: WellFormed(k'.procs[p]))
            && Tasks(k') == m.tasks[pid := Released(m.tasks[pid])]
  {
  }

  lemma FrameTasks(k: Kernel, m: Machine, regs: Context)
    requires SoundTasks(k, m)
    ensures Runs(m, k.current) && m.tasks[k.current].regs == k.frame
    ensures Tasks(k.(frame := regs)) == WithRegs(m, k.current, regs).tasks
  {
  }

  lemma SpawnTasks(k: Kernel, m: Machine, entry: Context, stackMin: nat)
    requires SoundTasks(k, m) && m.lastPid == k.lastPid
    ensures Runs(m, k.current)
    ensures var k' := SpawnStep(k, entry, stackMin);
            && (forall p <- k'.procs :: WellFormed(k'.procs[p]))
            && Tasks(k') == MachineStep(m, k.current, Spawn(entry, stackMin)).tasks
  {
  }

  lemma SemWaitTasks(k: Kernel, m: Machine, key: nat)
    requires Agrees(k, m) && SoundTasks(k, m) && Switches(k, Op.SemWait(key))
    requires forall p <- WaitersOf(k, k.current) :: p in k.procs
    ensures Runs(m, k.current)
    ensures var k' := Settled(k, Op.SemWait(key));
            && (forall p <- k'.procs :: WellFormed(k'.procs[p]))
            && SavedTasks(k') == MachineStep(m, k.current, Op.SemWait(key)).tasks
  {
    var id := SemOf(k, key);
    SemStepTracks(k.sems[id], m.ledgers[id], Wait(k.current));
    ParkTasks(k.(sems := k.sems[id := WaitSem(k.sems[id], k.current).0]), m);
  }

  lemma ExitSettledTasks(k: Kernel, m: Machine, code: Code)
    requires Agrees(k, m) && SoundTasks(k, m)
    requires forall p <- WaitersOf(k, k.current) :: p in k.procs && k.procs[p].status.Blocked?
    requires Delivers(k, code)
    ensures Runs(m, k.current)
    ensures var k' := Kill(WakeWaiting(k, code), k.current, code);
            (forall p <- k'.procs :: WellFormed(k'.procs[p])) && SavedTasks(k') == ExitTask(m, k.current, code).tasks
  {
    hide ExitTask, WakeWaiting, WellFormed;
    ExitTasks(k, m, code);
    assert k.current !in WaitersOf(k, k.current);
  }

  /** What a step that ends in `switch_next` leaves for the next process. */
  lemma SettledTasks(k: Kernel, m: Machine, op: Op)
    requires Agrees(k, m) && SoundTasks(k, m) && Switches(k, op)
    requires forall p <- WaitersOf(k, k.current) :: p in k.procs && k.procs[p].status.Blocked?
    requires op.Exit? ==> Delivers(k, op.code)
    ensures Runs(m, k.current) && (op.WaitPid? ==> op.pid in m.tasks)
    ensures var k' := Settled(k, op);
            && (forall p <- k'.procs :: WellFormed(k'.procs[p]))
            && SavedTasks(k') == MachineStep(m, k.current, op).tasks
  {
    hide Forked, SaveCurrent, BlockProc, WakeWaiting, Kill, WellFormed;
    match op
    case Fork(childMin) => ForkTasks(k, m, childMin);
    case Exit(code) => ExitSettledTasks(k, m, code);
    case WaitPid(pid) => ParkTasks(k, m);
    case SemWait(key) => SemWaitTasks(k, m, key);
    case _ => TickTasks(k, m);
  }

  lemma LedgerAgrees(sems: map<SemId, Sem>, ledgers: map<SemId, Ledger>, id: SemId, op: SemOp)
    requires SameLedgers(sems, ledgers) && id in sems
    ensures SameLedgers(sems[id := ApplySem(sems[id], op).0], ledgers[id := ApplyLedger(ledgers[id], op)])
  {
    SemStepTracks(sems[id], ledgers[id], op);
  }

  lemma WaiterAgrees(k: Kernel, m: Machine, pid: Pid)
    requires SameWaiters(k.waiting, m.waiters) && Ascending(WaitersOf(k, pid))
    ensures SameWaiters(AddWaiting(k, pid).waiting, m.waiters[pid := WaitersFor(m, pid) + {k.current}])
  {
    InsertIs(WaitersOf(k, pid), k.current);
  }

  lemma SettledAgrees(k: Kernel, m: Machine, op: Op)
    requires Agrees(k, m) && SoundTasks(k, m) && Switches(k, op)
    requires forall p <- WaitersOf(k, k.current) :: p in k.procs
    requires forall q <- k.waiting :: Ascending(k.waiting[q])
    requires op.Exit? ==> Delivers(k, op.code)
    requires Runs(m, k.current) && (op.WaitPid? ==> op.pid in m.tasks)
    ensures Agrees(Settled(k, op), MachineStep(m, k.current, op))
  {
    match op
    case WaitPid(pid) => WaiterAgrees(k, m, pid);
    case SemWait(key) =>
      LedgerAgrees(k.sems, m.ledgers, SemOf(k, key), Wait(k.current));
      SemStepTracks(k.sems[SemOf(k, key)], m.ledgers[SemOf(k, key)], Wait(k.current));
    case _ =>
  }

  lemma SignalAgrees(k: Kernel, m: Machine, key: nat)
    requires Agrees(k, m) && SoundTasks(k, m) && Runs(m, k.current)
    requires SemOf(k, key) in k.sems && k.sems[SemOf(k, key)].queue != [] ==>
               var q := k.sems[SemOf(k, key)].queue[0]; q in k.procs && k.procs[q].status.Blocked?
    ensures Step(k, SemSignal(key)).Done?
    ensures var k' := Step(k, SemSignal(key)).k;
            && (forall p <- k'.procs :: WellFormed(k'.procs[p]))
            && Tasks(k') == SemSignalTask(m, k.current, key).tasks
            && Agrees(k', SemSignalTask(m, k.current, key))
  {
    var id := SemOf(k, key);
    if id !in k.sems {
      FrameTasks(k, m, k.frame.(rax := 1));
    } else {
      LedgerAgrees(k.sems, m.ledgers, id, Signal);
      SemStepTracks(k.sems[id], m.ledgers[id], Signal);
      var k' := k.(sems := k.sems[id := SignalSem(k.sems[id]).0]);
      if k.sems[id].queue == [] {
        FrameTasks(k', m, k.frame.(rax := 0));
      } else {
        ReleaseTasks(k', m, k.sems[id].queue[0]);
      }
    }
  }

  lemma SemTakenAgrees(k: Kernel, m: Machine, key: nat)
    requires Agrees(k, m) && SoundTasks(k, m) && Runs(m, k.current)
    requires SemOf(k, key) in k.sems && k.sems[SemOf(k, key)].count > 0
    ensures var k' := SetRax(k.(sems := k.sems[SemOf(k, key) := WaitSem(k.sems[SemOf(k, key)], k.current).0]), 0);
            Tasks(k') == SemWaitTask(m, k.current, key).tasks && Agrees(k', SemWaitTask(m, k.current, key))
  {
    FrameTasks(k, m, k.frame.(rax := 0));
    LedgerAgrees(k.sems, m.ledgers, SemOf(k, key), Wait(k.current));
    SemStepTracks(k.sems[SemOf(k, key)], m.ledgers[SemOf(k, key)], Wait(k.current));
  }

  lemma SetAgrees(k: Kernel, m: Machine, op: Op)
    requires Agrees(k, m) && SoundTasks(k, m) && Runs(m, k.current)
    requires op.NewSemaphore? || op.RemoveSemaphore?
    ensures Step(k, op).Done?
    ensures var k' := Step(k, op).k;
            && (forall p <- k'.procs :: WellFormed(k'.procs[p]))
            && Tasks(k') == MachineStep(m, k.current, op).tasks
            && Agrees(k', MachineStep(m, k.current, op))
  {
    FrameTasks(k, m, Step(k, op).k.frame);
  }

  lemma DirectAgrees(k: Kernel, m: Machine, op: Op)
    requires Agrees(k, m) && SoundTasks(k, m) && Runs(m, k.current)
    requires Step(k, op).Done? && !Switches(k, op) && !op.SemSignal?
    ensures op.WaitPid? ==> op.pid in m.tasks
    ensures var k' := Step(k, op).k;
            && (forall p <- k'.procs :: WellFormed(k'.procs[p]))
            && Tasks(k') == MachineStep(m, k.current, op).tasks
            && Agrees(k', MachineStep(m, k.current, op))
  {
    FrameTasks(k, m, Step(k, op).k.frame);
    if op.NewSemaphore? || op.RemoveSemaphore? {
      SetAgrees(k, m, op);
    } else if op.Spawn? {
      SpawnTasks(k, m, op.entry, op.stackMin);
    } else if op.SemWait? && SemOf(k, op.key) in k.sems {
      SemTakenAgrees(k, m, op.key);
    }
  }

  /** A step that switches. */
  lemma SwitchRefines(k: Kernel, m: Machine, op: Op)
    requires Refines(k, m) && Allowed(k, op) && Switches(k, op)
    ensures Runs(m, k.current) && (op.WaitPid? ==> op.pid in m.tasks)
    ensures Step(k, op).Done? && Valid(Step(k, op).k)
    ensures Refines(Step(k, op).k, MachineStep(m, k.current, op))
  {
    hide Step, Settled, MachineStep, Tasks, SavedTasks, QueueOk, TaskOf;
    StepKeepsValid(k, op);
    StepShape(k, op);
    WakeWaitingIs(k, if op.Exit? then op.code else 0);
    SettledTasks(k, m, op);
    SettledAgrees(k, m, op);
    HeadIsReady(Settled(k, op));
    DispatchTasks(Settled(k, op));
  }

  lemma HeadIsReady(k: Kernel)
    requires Inv(k, {}) && k.ready != []
    ensures k.ready[0] in k.procs && k.procs[k.ready[0]].status.Ready?
  {
    assert k.ready[0] in k.ready;
  }

  /** The process that a signal finds at the head of a queue is blocked. */
  lemma HeadIsBlocked(k: Kernel, id: SemId)
    requires Valid(k)
    ensures id in k.sems && k.sems[id].queue != [] ==>
              k.sems[id].queue[0] in k.procs && k.procs[k.sems[id].queue[0]].status.Blocked?
  {
    assert id in k.sems && k.sems[id].queue != [] ==> At(k, OnSem(id), k.sems[id].queue[0]);
  }

  /** Every kernel step is a step of the machine by the current process, and a
      timer tick is no step at all: so a process always goes on with exactly the
      registers it had, but for the results the machine delivers. */
  lemma StepRefines(k: Kernel, m: Machine, op: Op)
    requires Refines(k, m) && Allowed(k, op) && Step(k, op).Done?
    ensures Runs(m, k.current) && (op.WaitPid? ==> op.pid in m.tasks)
    ensures Refines(Step(k, op).k, MachineStep(m, k.current, op))
  {
    hide Step, Tasks, Agrees, Inv, SemSignalTask;
    ValidIsSound(k);
    CurrentRuns(k, m);
    StepKeepsValid(k, op);
    if Switches(k, op) {
      SwitchRefines(k, m, op);
    } else if op.SemSignal? {
      HeadIsBlocked(k, SemOf(k, op.key));
      SignalAgrees(k, m, op.key);
    } else {
      DirectAgrees(k, m, op);
    }
  }

  lemma ValidIsSound(k: Kernel)
    requires Valid(k)
    ensures Sound(k) && k.procs[k.current].data.Some?
  {
  }

  lemma CurrentRuns(k: Kernel, m: Machine)
    requires SoundTasks(k, m)
    ensures Runs(m, k.current)
  {
  }
}
