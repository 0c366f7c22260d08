/** Runs of the kernel, from boot on, in which it does not do what it is meant to. */
module KernelWitnesses {
  import opened Basics
  import opened Semaphores
  import opened Kernel
  import opened KernelInvariant
  import opened KernelRuns

  function Registers(): Context { Context(0, 0, []) }

  /** The manager right after boot. */
  function AtBoot(): (k: Kernel)
    ensures Booted(k)
  {
    var kernel := Proc(Running, 0, None, Registers(), None, [], Some(KERNEL_PID), Some(0));
    Kernel(map[KERNEL_PID := kernel], [], map[], map[], KERNEL_PID, KERNEL_PID, Registers())
  }

  /** What matters of a state here: who runs, who is queued, and of every process its
      status; all belong to the family of pid 2 but for the kernel itself. */
  predicate Looks(k: Kernel, current: Pid, ready: seq<Pid>, status: map<Pid, Status>) {
    && k.current == current && k.ready == ready && k.procs.Keys == status.Keys
    && forall p <- k.procs ::
         && k.procs[p].status == status[p] && k.procs[p].stackMin.Some?
         && k.procs[p].data == Some(if p == KERNEL_PID then KERNEL_PID else 2)
  }

  /** A run goes on by one step that does not crash. */
  lemma RunOn(ks: seq<Kernel>, ops: seq<Op>, op: Op) returns (ks': seq<Kernel>)
    requires Run(ks, ops) && Allowed(ks[|ops|], op)
    ensures Valid(ks[|ops|])
    ensures Step(ks[|ops|], op).Done? ==> Run(ks', ops + [op]) && ks' == ks + [Step(ks[|ops|], op).k]
    ensures !(op.WaitPid?) ==> Step(ks[|ops|], op).Done?
  {
    RunStaysValid(ks, ops, |ops|);
    StepKeepsValid(ks[|ops|], op);
    ks' := if Step(ks[|ops|], op).Done? then ks + [Step(ks[|ops|], op).k] else ks;
    if Step(ks[|ops|], op).Done? {
      forall i | 0 <= i < |ks'| ensures Reached(ks', ops + [op], i) {
        if i < |ks| {
          assert Reached(ks, ops, i);
        }
      }
    }
  }

  lemma FirstSpawn(k: Kernel)
    requires k == AtBoot()
    ensures Step(k, Spawn(Registers(), 0)).Done?
    ensures var k' := Step(k, Spawn(Registers(), 0)).k;
            Looks(k', 1, [2], map[1 := Running, 2 := Ready]) && k'.lastPid == 2 && k'.sems == map[]
  {
  }

  /** A tick, and the next process of the queue runs. */
  lemma TickLooks(k: Kernel, current: Pid, next: Pid, rest: seq<Pid>, status: map<Pid, Status>)
    requires Looks(k, current, [next] + rest, status) && current in status && next in status && next != current
    requires status[current].Running? && status[next].Ready?
    ensures Step(k, Tick).Done?
    ensures var k' := Step(k, Tick).k;
            && Looks(k', next, rest + [current], status[current := Ready][next := Running])
            && k'.lastPid == k.lastPid && k'.sems == k.sems
  {
    var k1 := PushReady(SaveCurrent(k), current);
    assert k1.ready[0] == next && k1.ready[1..] + k1.ready[..0] == rest + [current];
    assert k1.procs[next].status.Ready?;
    assert Scan(k1, 0) == Some(0);
  }

  /** The first program has been spawned and is running. */
  lemma FirstProgram() returns (ks: seq<Kernel>, ops: seq<Op>)
    ensures ops == [Spawn(Registers(), 0), Tick] && Run(ks, ops) && |ks| == 3 && ks[0] == AtBoot()
    ensures Looks(ks[2], 2, [1], map[1 := Ready, 2 := Running]) && ks[2].lastPid == 2 && ks[2].sems == map[]
  {
    hide Step, Valid, Run, Looks;
    ks, ops := [AtBoot()], [];
    StartsRun(AtBoot());
    ks := RunOn(ks, ops, Spawn(Registers(), 0));
    ops := [] + [Spawn(Registers(), 0)];
    FirstSpawn(AtBoot());
    TickLooks(ks[1], 1, 2, [], map[1 := Running, 2 := Ready]);
    ks := RunOn(ks, ops, Tick);
    ops := ops + [Tick];
    assert map[1 := Running, 2 := Ready][1 := Ready][2 := Running] == map[1 := Ready, 2 := Running];
    assert [2] + [] == [2] && [] + [1] == [1];
  }

  lemma StartsRun(k: Kernel)
    requires Booted(k)
    ensures Run([k], [])
  {
    BootIsValid(k);
  }

  /** A program that waits for a pid nobody has: the kernel stops. */
  lemma WaitingForNobody() returns (ks: seq<Kernel>, ops: seq<Op>)
    ensures Run(ks, ops) && |ks| == 3 && ks[0] == AtBoot() && ops == [Spawn(Registers(), 0), Tick]
    ensures Allowed(ks[2], WaitPid(7)) && ks[2].current in ks[2].procs && Step(ks[2], WaitPid(7)).Crash?
  {
    ks, ops := FirstProgram();
  }

  /** The operations of a program that forks a child, and then creates anew the
      semaphore on which the child waits. */
  function Recreating(): seq<Op> {
    [Spawn(Registers(), 0), Tick, NewSemaphore(5, 0), Fork(0), Tick, SemWait(5), NewSemaphore(5, 0)]
  }

  lemma NewLooks(k: Kernel)
    requires Looks(k, 2, [1], map[1 := Ready, 2 := Running]) && k.sems == map[]
    ensures Step(k, NewSemaphore(5, 0)).Done?
    ensures var k' := Step(k, NewSemaphore(5, 0)).k;
            && Looks(k', 2, [1], map[1 := Ready, 2 := Running]) && k'.lastPid == k.lastPid
            && k'.sems == map[SemId(2, 5) := Sem(0, [])]
  {
  }

  lemma ForkLooks(k: Kernel)
    requires Looks(k, 2, [1], map[1 := Ready, 2 := Running]) && k.lastPid == 2
    ensures Step(k, Fork(0)).Done?
    ensures var k' := Step(k, Fork(0)).k;
            Looks(k', 1, [3, 2], map[1 := Running, 2 := Ready, 3 := Ready]) && k'.sems == k.sems
  {
    var k1 := Forked(k, 0);
    assert k1.ready == [1, 3, 2];
    assert k1.procs[1] == k.procs[1] && Scan(k1, 0) == Some(0);
    assert k1.ready[1..] + k1.ready[..0] == [3, 2];
  }

  lemma WaitPicks(k: Kernel, k1: Kernel)
    requires Looks(k, 3, [2, 1], map[1 := Ready, 2 := Ready, 3 := Running])
    requires k1 == BlockProc(SaveCurrent(k.(sems := map[SemId(2, 5) := Sem(0, [3])])), 3)
    ensures SwitchNext(k1).Done?
    ensures Looks(SwitchNext(k1).k, 2, [1], map[1 := Ready, 2 := Running, 3 := Blocked])
    ensures SwitchNext(k1).k.sems == map[SemId(2, 5) := Sem(0, [3])]
  {
    assert k1.procs[2] == k.procs[2] && Scan(k1, 0) == Some(0);
    assert k1.ready[1..] + k1.ready[..0] == [1];
  }

  lemma WaitLooks(k: Kernel)
    requires Looks(k, 3, [2, 1], map[1 := Ready, 2 := Ready, 3 := Running]) && k.sems == map[SemId(2, 5) := Sem(0, [])]
    ensures Step(k, SemWait(5)).Done?
    ensures var k' := Step(k, SemWait(5)).k;
            && Looks(k', 2, [1], map[1 := Ready, 2 := Running, 3 := Blocked])
            && k'.sems == map[SemId(2, 5) := Sem(0, [3])]
  {
    hide SwitchNext, Step, BlockProc, Looks;
    WaitBlocks(k);
    WaitPicks(k, BlockProc(SaveCurrent(k.(sems := map[SemId(2, 5) := Sem(0, [3])])), 3));
  }

  lemma WaitBlocks(k: Kernel)
    requires Looks(k, 3, [2, 1], map[1 := Ready, 2 := Ready, 3 := Running]) && k.sems == map[SemId(2, 5) := Sem(0, [])]
    ensures k.current == 3 && 3 in k.procs
    ensures Step(k, SemWait(5)) == SwitchNext(BlockProc(SaveCurrent(k.(sems := map[SemId(2, 5) := Sem(0, [3])])), 3))
  {
    hide SwitchNext;
    assert Sem(0, []).queue + [3] == [3];
    assert k.sems[SemId(2, 5) := Sem(0, [3])] == map[SemId(2, 5) := Sem(0, [3])];
  }

  /** Program and child up to the wait. */
  lemma ChildRuns() returns (ks: seq<Kernel>)
    ensures Run(ks, Recreating()[..5]) && |ks| == 6 && ks[0] == AtBoot()
    ensures Looks(ks[5], 3, [2, 1], map[1 := Ready, 2 := Ready, 3 := Running])
    ensures ks[5].sems == map[SemId(2, 5) := Sem(0, [])]
  {
    hide Step, Valid, Run, Looks;
    var ops;
    ks, ops := FirstProgram();
    NewLooks(ks[2]);
    MayCall(ks[2], 2, [1], map[1 := Ready, 2 := Running]);
    ks := RunOn(ks, ops, NewSemaphore(5, 0));
    ops := ops + [NewSemaphore(5, 0)];
    ForkLooks(ks[3]);
    MayCall(ks[3], 2, [1], map[1 := Ready, 2 := Running]);
    ks := RunOn(ks, ops, Fork(0));
    ops := ops + [Fork(0)];
    assert [3] + [2] == [3, 2] && [2] + [1] == [2, 1];
    assert map[1 := Running, 2 := Ready, 3 := Ready][1 := Ready][3 := Running] == map[1 := Ready, 2 := Ready, 3 := Running];
    TickLooks(ks[4], 1, 3, [2], map[1 := Running, 2 := Ready, 3 := Ready]);
    ks := RunOn(ks, ops, Tick);
    assert ops + [Tick] == Recreating()[..5];
  }

  lemma MayCall(k: Kernel, current: Pid, ready: seq<Pid>, status: map<Pid, Status>)
    requires Looks(k, current, ready, status) && current != KERNEL_PID
    ensures forall op :: Allowed(k, op)
  {
  }

  /** The child is left blocked with nobody to wake it. */
  lemma RecreatedUnderWaiter() returns (ks: seq<Kernel>)
    ensures Run(ks, Recreating()) && |ks| == 8 && ks[0] == AtBoot() && Orphan(ks[7], 3)
  {
    hide Step, Run, Valid;
    ks := ChildRuns();
    WaitLooks(ks[5]);
    ks := RunOn(ks, Recreating()[..5], SemWait(5));
    assert Recreating()[..5] + [SemWait(5)] == Recreating()[..6];
    ks := RunOn(ks, Recreating()[..6], NewSemaphore(5, 0));
    assert Recreating()[..6] + [NewSemaphore(5, 0)] == Recreating();
    assert At(ks[6], OnSem(SemId(2, 5)), 3);
    OrphansExactly(ks[6], NewSemaphore(5, 0), 3);
  }
}
