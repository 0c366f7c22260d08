/** What fork hands to both sides, the parts of a process record that the machine
    of tasks does not have, and the exact order of the ready queue. */
module KernelRecords {
  import opened Basics
  import opened Semaphores
  import opened Kernel
  import opened KernelInvariant
  import opened KernelRefinement
  import opened KernelRuns

  // ---------------------------------------------------------------------------
  // Fork
  // ---------------------------------------------------------------------------

  lemma ForkedTasks(m: Machine, p: Pid, childMin: nat)
    requires Runs(m, p) && p <= m.lastPid
    ensures var m', child := MachineStep(m, p, Fork(childMin)), m.lastPid + 1;
            && p in m'.tasks && m'.tasks[p] == m.tasks[p].(regs := m.tasks[p].regs.(rax := child))
            && child in m'.tasks && m'.tasks[child].Live?
            && m'.tasks[child].regs.rax == 0 && m'.tasks[child].regs.others == m.tasks[p].regs.others
            && m'.tasks[child].regs.sp % 0x1_0000_0000 == m.tasks[p].regs.sp % 0x1_0000_0000
            && m'.tasks[child].regs.sp / 0x1_0000_0000 == childMin / 0x1_0000_0000
  {
  }

  /** Fork returns 0 to the child and the child's pid to the caller; every other
      register is the caller's in both, but that the child's stack pointer is at
      the caller's offset in the child's own slot. */
  lemma ForkReturns(k: Kernel, childMin: nat)
    requires Valid(k) && k.current != KERNEL_PID
    ensures Step(k, Fork(childMin)).Done?
    ensures var k', child := Step(k, Fork(childMin)).k, k.lastPid + 1;
            && child !in k.procs && child in k'.procs && k.current in k'.procs
            && !k'.procs[child].status.Blocked? && !k'.procs[k.current].status.Blocked?
            && !k'.procs[child].status.Dead? && !k'.procs[k.current].status.Dead?
            && RegsOf(k', k.current) == Context(child, k.frame.sp, k.frame.others)
            && RegsOf(k', child).rax == 0 && RegsOf(k', child).others == k.frame.others
            && RegsOf(k', child).sp % 0x1_0000_0000 == k.frame.sp % 0x1_0000_0000
            && RegsOf(k', child).sp / 0x1_0000_0000 == childMin / 0x1_0000_0000
  {
    hide Step, MachineStep;
    var op := Fork(childMin);
    StepKeepsValid(k, op);
    StepTask(k, op, k.lastPid + 1);
    StepTask(k, op, k.current);
    ForkedTasks(MachineOf(k), k.current, childMin);
    NewcomerRuns(k, op, k.lastPid + 1);
    BlockedAfter(k, op, k.current);
  }

  // ---------------------------------------------------------------------------
  // Between being queued and being dispatched
  // ---------------------------------------------------------------------------

  lemma RunnableTask(m: Machine, p: Pid, op: Op, q: Pid)
    requires CanStep(m, p, op) && Runs(m, q) && q <= m.lastPid && q != p && q !in WaitersFor(m, p)
    ensures q in MachineStep(m, p, op).tasks && MachineStep(m, p, op).tasks[q] == m.tasks[q]
  {
  }

  ghost predicate Runnable(k: Kernel, p: Pid) {
    p in k.procs && (k.procs[p].status.Ready? || k.procs[p].status.Running?)
  }

  /** Nobody touches the registers of a process that waits for the processor. */
  lemma ReadyKeeps(k: Kernel, op: Op, p: Pid)
    requires Valid(k) && Allowed(k, op) && Step(k, op).Done? && Runnable(k, p) && p != k.current
    ensures var k' := Step(k, op).k; Runnable(k', p) && RegsOf(k', p) == RegsOf(k, p)
  {
    hide Step, MachineStep;
    StepTask(k, op, p);
    assert !At(k, OnExit(k.current), p);
    RunnableTask(MachineOf(k), k.current, op, p);
  }

  lemma {:induction false} ReadyInRun(ks: seq<Kernel>, ops: seq<Op>, i: nat, n: nat, p: Pid)
    requires Run(ks, ops) && i <= n < |ks| && Runnable(ks[i], p)
    requires forall l :: i <= l < n ==> ks[l].current != p
    ensures Runnable(ks[n], p) && RegsOf(ks[n], p) == RegsOf(ks[i], p)
    decreases n - i
  {
    if i < n {
      ReadyInRun(ks, ops, i, n - 1, p);
      RunStaysValid(ks, ops, n - 1);
      assert Reached(ks, ops, n);
      ReadyKeeps(ks[n - 1], ops[n - 1], p);
    }
  }

  /** `n` is the first state after step `i` in which `p` is on the processor. */
  ghost predicate NextTurn(ks: seq<Kernel>, i: nat, n: nat, p: Pid) {
    i < n < |ks| && ks[n].current == p && forall l :: i < l < n ==> ks[l].current != p
  }

  /** Over a run: when the caller of the fork at step `i` is next on the
      processor it finds the child's pid in `rax`, and when the child is there for
      the first time it finds 0; all else is as `ForkReturns` says, whoever ran in
      between and whatever they did. */
  lemma ForkReturnsTwice(ks: seq<Kernel>, ops: seq<Op>, i: nat, n: nat, childMin: nat)
    requires Run(ks, ops) && i < |ops| && ops[i] == Fork(childMin)
    ensures var child := ks[i].lastPid + 1;
            && (NextTurn(ks, i, n, ks[i].current) ==>
                  ks[n].frame == Context(child, ks[i].frame.sp, ks[i].frame.others))
            && (NextTurn(ks, i, n, child) ==>
                  && ks[n].frame.rax == 0 && ks[n].frame.others == ks[i].frame.others
                  && ks[n].frame.sp % 0x1_0000_0000 == ks[i].frame.sp % 0x1_0000_0000
                  && ks[n].frame.sp / 0x1_0000_0000 == childMin / 0x1_0000_0000)
  {
    RunStaysValid(ks, ops, i);
    assert Reached(ks, ops, i + 1);
    ForkReturns(ks[i], childMin);
    if NextTurn(ks, i, n, ks[i].current) {
      ReadyInRun(ks, ops, i + 1, n, ks[i].current);
    }
    if NextTurn(ks, i, n, ks[i].lastPid + 1) {
      ReadyInRun(ks, ops, i + 1, n, ks[i].lastPid + 1);
    }
  }

  // ---------------------------------------------------------------------------
  // The rest of a process record
  // ---------------------------------------------------------------------------

  /** The current process is saved, to be dispatched again later. */
  predicate GivesWay(k: Kernel, op: Op) {
    SwitchesHere(k, op) && !op.Exit?
  }

  lemma RecordSettled(k: Kernel, op: Op, p: Pid)
    requires k.current in k.procs && k.procs[k.current].data.Some? && k.procs[k.current].status.Running?
    requires Switches(k, op) && p in k.procs && p <= k.lastPid
    requires forall p <- WaitersOf(k, k.current) :: p in k.procs
    requires op.Exit? ==> Settled(k, op) == KernelInvariant.Exited(k, op.code)
    ensures p in Settled(k, op).procs
    ensures var a, b := k.procs[p], Settled(k, op).procs[p];
            && b.ticks == a.ticks + (if p == k.current && GivesWay(k, op) then 1 else 0)
            && b.children == a.children + (if p == k.current && op.Fork? then [k.lastPid + 1] else [])
            && b.parent == a.parent
            && b.stackMin == if p == k.current && op.Exit? then None else a.stackMin
  {
  }

  /** A process is charged a tick exactly if it gives way to another, its children
      are the pids it forked in order, and its parent and its stack are for life. */
  lemma RecordAfter(k: Kernel, op: Op, p: Pid)
    requires Valid(k) && Allowed(k, op) && Step(k, op).Done? && p in k.procs
    ensures p in Step(k, op).k.procs
    ensures var a, b := k.procs[p], Step(k, op).k.procs[p];
            && b.ticks == a.ticks + (if p == k.current && GivesWay(k, op) then 1 else 0)
            && b.children == a.children + (if p == k.current && op.Fork? then [k.lastPid + 1] else [])
            && b.parent == a.parent
            && b.stackMin == if p == k.current && op.Exit? then None else a.stackMin
  {
    hide Inv, Settled;
    CurrentHas(k);
    PidsBelow(k);
    if Switches(k, op) {
      StepShape(k, op);
      if op.Exit? {
        ExitedIs(k, op.code);
        assert Settled(k, op) == KernelInvariant.Exited(k, op.code) by { SettledExit(k, op.code); }
      }
      RecordSettled(k, op, p);
    }
  }

  lemma SettledExit(k: Kernel, code: Code)
    requires k.current in k.procs && k.procs[k.current].data.Some?
    requires forall p <- WaitersOf(k, k.current) :: p in k.procs
    ensures Settled(k, Op.Exit(code)) == Kill(WakeWaiting(k, code), k.current, code)
  {
  }

  lemma PidsBelow(k: Kernel)
    requires Valid(k)
    ensures forall p <- k.procs :: p <= k.lastPid
  {
  }

  /** A new process is forked or spawned by the current one. */
  lemma RecordOfNew(k: Kernel, op: Op, p: Pid)
    requires Valid(k) && Allowed(k, op) && Step(k, op).Done? && p !in k.procs && p in Step(k, op).k.procs
    ensures (op.Fork? || op.Spawn?) && p == k.lastPid + 1
    ensures var b := Step(k, op).k.procs[p];
            && b.ticks == 0 && b.children == [] && b.parent == Some(k.current) && b.exitCode == None
            && b.stackMin == Some(if op.Fork? then op.childMin else op.stackMin)
            && b.data == if op.Fork? then k.procs[k.current].data else Some(p)
  {
    if Switches(k, op) {
      StepShape(k, op);
      NewSettled(k, op, p);
    }
  }

  lemma NewSettled(k: Kernel, op: Op, p: Pid)
    requires Valid(k) && Switches(k, op) && p !in k.procs
    requires forall p <- WaitersOf(k, k.current) :: p in k.procs
    requires p in Settled(k, op).procs
    ensures op.Fork? && p == k.lastPid + 1
    ensures var b := Settled(k, op).procs[p];
            && b.ticks == 0 && b.children == [] && b.parent == Some(k.current) && b.exitCode == None
            && b.stackMin == Some(op.childMin) && b.data == k.procs[k.current].data
  {
    if op.Exit? {
      WakeWaitingIs(k, op.code);
    }
  }

  /** A process killed while it was current is only charged the tick when it is saved: it
      stays dead, with its registers and its exit code. */
  lemma DeadIsNotSaved(k: Kernel)
    requires k.current in k.procs && k.procs[k.current].status.Dead?
    ensures var a, b := k.procs[k.current], SaveCurrent(k).procs[k.current];
            b.status.Dead? && b.exitCode == a.exitCode && b.context == a.context && b.ticks == a.ticks + 1
  {
  }

  /** The first kill counts: a second one, whatever its code, changes nothing, and killing
      one process changes no other. */
  lemma KilledOnce(k: Kernel, p: Pid, a: Code, b: Code)
    ensures Kill(Kill(k, p, a), p, b) == Kill(k, p, a)
    ensures p in k.procs && !k.procs[p].status.Dead? ==> Kill(k, p, a).procs[p].exitCode == Some(a)
    ensures forall q <- k.procs :: q in Kill(k, p, a).procs && (q != p ==> Kill(k, p, a).procs[q] == k.procs[q])
    ensures p !in k.procs ==> Kill(k, p, a) == k
  {
  }

  /** How often `p` has given way in the first `n` steps. */
  function Turns(ks: seq<Kernel>, ops: seq<Op>, n: nat, p: Pid): nat
    requires n <= |ops| < |ks|
  {
    if n == 0 then 0
    else Turns(ks, ops, n - 1, p) + if ks[n - 1].current == p && GivesWay(ks[n - 1], ops[n - 1]) then 1 else 0
  }

  /** The pids `p` has forked in the first `n` steps, in order. */
  function ForkedBy(ks: seq<Kernel>, ops: seq<Op>, n: nat, p: Pid): seq<Pid>
    requires n <= |ops| < |ks|
  {
    if n == 0 then []
    else ForkedBy(ks, ops, n - 1, p)
         + if ks[n - 1].current == p && ops[n - 1].Fork? then [ks[n - 1].lastPid + 1] else []
  }

  function TicksOf(k: Kernel, p: Pid): nat { if p in k.procs then k.procs[p].ticks else 0 }

  function ChildrenOf(k: Kernel, p: Pid): seq<Pid> { if p in k.procs then k.procs[p].children else [] }

  /** In every run, of every process, also of those that come into being in it. */
  lemma {:induction false} RecordInRun(ks: seq<Kernel>, ops: seq<Op>, n: nat, p: Pid)
    requires Run(ks, ops) && n < |ks|
    ensures TicksOf(ks[n], p) == TicksOf(ks[0], p) + Turns(ks, ops, n, p)
    ensures ChildrenOf(ks[n], p) == ChildrenOf(ks[0], p) + ForkedBy(ks, ops, n, p)
  {
    if n > 0 {
      var k, op := ks[n - 1], ops[n - 1];
      RecordInRun(ks, ops, n - 1, p);
      RunStaysValid(ks, ops, n - 1);
      assert Reached(ks, ops, n);
      if p in k.procs {
        RecordAfter(k, op, p);
      } else if p in ks[n].procs {
        RecordOfNew(k, op, p);
      }
    }
  }

  // ---------------------------------------------------------------------------
  // The ready queue
  // ---------------------------------------------------------------------------

  /** Who goes to the back of the queue in a step, in order: whoever is preempted,
      a new child before its parent, and by an exit those that waited for it in the
      order of their pids. */
  function Queued(k: Kernel, op: Op): seq<Pid>
    requires k.current in k.procs && k.procs[k.current].data.Some?
  {
    match op
    case Tick => [k.current]
    case Fork(_) => [k.lastPid + 1, k.current]
    case Spawn(_, _) => [k.lastPid + 1]
    case Exit(_) => if k.current in k.waiting then k.waiting[k.current] else []
    case SemSignal(key) =>
      if SemOf(k, key) in k.sems && k.sems[SemOf(k, key)].queue != [] then [k.sems[SemOf(k, key)].queue[0]] else []
    case _ => []
  }

  lemma QueuedSettled(k: Kernel, op: Op)
    requires Valid(k) && Switches(k, op)
    requires forall p <- WaitersOf(k, k.current) :: p in k.procs
    ensures Settled(k, op).ready == k.ready + Queued(k, op)
  {
    if op.Exit? {
      WakeWaitingIs(k, op.code);
    }
  }

  lemma QueueSwitched(k: Kernel, op: Op)
    requires Valid(k) && Allowed(k, op) && Switches(k, op)
    ensures Step(k, op).Done?
    ensures k.ready + Queued(k, op) == [Step(k, op).k.current] + Step(k, op).k.ready
  {
    hide Step, Settled, Queued, Inv;
    StepShape(k, op);
    QueuedSettled(k, op);
  }

  lemma QueueDirect(k: Kernel, op: Op)
    requires Valid(k) && !Switches(k, op) && Step(k, op).Done?
    ensures Step(k, op).k.current == k.current && Step(k, op).k.ready == k.ready + Queued(k, op)
  {
    if op.SemSignal? && SemOf(k, op.key) in k.sems && k.sems[SemOf(k, op.key)].queue != [] {
      assert At(k, OnSem(SemOf(k, op.key)), k.sems[SemOf(k, op.key)].queue[0]);
    }
  }

  /** Exactly the queue after a step: a switch takes its head. */
  lemma QueueAfter(k: Kernel, op: Op)
    requires Valid(k) && Allowed(k, op) && Step(k, op).Done?
    ensures op.Exit? ==> Ascending(Queued(k, op)) && forall p :: p in Queued(k, op) <==> At(k, OnExit(k.current), p)
    ensures var k', queue := Step(k, op).k, k.ready + Queued(k, op);
            if Switches(k, op) then queue == [k'.current] + k'.ready
            else k'.current == k.current && k'.ready == queue
  {
    hide Step;
    if Switches(k, op) {
      QueueSwitched(k, op);
    } else {
      QueueDirect(k, op);
    }
  }

  /** Position `i` of the queue is what `switch_next` finds, in any state at all. */
  ghost predicate Picks(k: Kernel, i: nat) {
    && i < |k.ready|
    && (forall j :: 0 <= j <= i ==> k.ready[j] in k.procs && (k.procs[k.ready[j]].status.Ready? <==> j == i))
    && k.procs[k.ready[i]].stackMin.Some?
  }

  lemma {:induction false} ScanIs(k: Kernel, i: nat)
    requires i <= |k.ready|
    requires forall j :: 0 <= j < i ==> k.ready[j] in k.procs && !k.procs[k.ready[j]].status.Ready?
    ensures Scan(k, i).Some? && k.procs[k.ready[Scan(k, i).value]].stackMin.Some? ==> Picks(k, Scan(k, i).value)
    ensures forall j | i <= j && Picks(k, j) :: Scan(k, i) == Some(j)
    decreases |k.ready| - i
  {
    if i < |k.ready| && k.ready[i] in k.procs && !k.procs[k.ready[i]].status.Ready? {
      ScanIs(k, i + 1);
    }
  }

  /** From any state: the first ready process is dispatched with its saved
      registers, everybody before it goes to the back in order, so that the queue
      is turned and nobody in it is lost; and it fails exactly if there is none. */
  lemma SwitchTurnsQueue(k: Kernel, i: nat)
    ensures SwitchNext(k).Done? <==> exists j :: Picks(k, j)
    ensures Picks(k, i) ==>
              && SwitchNext(k).Done?
              && var k' := SwitchNext(k).k;
              && k'.current == k.ready[i] && k'.frame == k.procs[k.ready[i]].context
              && |k'.ready| == |k.ready| - 1
              && k'.ready[|k'.ready| - i..] + [k'.current] + k'.ready[..|k'.ready| - i] == k.ready
              && k'.procs.Keys == k.procs.Keys
              && (forall p <- k.procs :: k'.procs[p] ==
                    if p == k'.current then k.procs[p].(status := Running) else k.procs[p])
              && k'.waiting == k.waiting && k'.sems == k.sems && k'.lastPid == k.lastPid
  {
    ScanIs(k, 0);
    if Picks(k, i) {
      var k', rest := SwitchNext(k).k, |k.ready| - 1 - i;
      assert k'.ready == k.ready[i + 1..] + k.ready[..i];
      assert k'.ready[rest..] == k.ready[..i] && k'.ready[..rest] == k.ready[i + 1..];
    }
  }
}
