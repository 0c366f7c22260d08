/** Properties of whole runs of the process manager. */
module KernelRuns {
  import opened Basics
  import opened Semaphores
  import opened Kernel
  import opened KernelInvariant
  import opened KernelRefinement

  /** `ks` are the states passed through when the operations `ops` are made
      from a valid state. */
  ghost predicate Run(ks: seq<Kernel>, ops: seq<Op>) {
    && |ks| == |ops| + 1
    && forall i :: 0 <= i < |ks| ==> Reached(ks, ops, i)
  }

  ghost predicate Reached(ks: seq<Kernel>, ops: seq<Op>, i: nat)
    requires i < |ks| == |ops| + 1
  {
    if i == 0 then Valid(ks[0])
    else
      && ks[i - 1].current in ks[i - 1].procs
      && Allowed(ks[i - 1], ops[i - 1])
      && Step(ks[i - 1], ops[i - 1]) == Done(ks[i])
  }

  /** Pids are handed out in order and none is ever taken out of the table. */
  ghost predicate AllPids(k: Kernel) {
    forall p: Pid :: p in k.procs <==> 1 <= p <= k.lastPid
  }

  lemma PidsStep(k: Kernel, op: Op)
    requires Valid(k) && AllPids(k) && Allowed(k, op) && Step(k, op).Done?
    ensures AllPids(Step(k, op).k)
  {
    var m := MachineOf(k);
    forall p: Pid ensures p in Step(k, op).k.procs <==> 1 <= p <= Step(k, op).k.lastPid {
      StepTask(k, op, p);
      TasksGrow(m, k.current, op, p);
    }
  }

  lemma TasksGrow(m: Machine, p: Pid, op: Op, q: Pid)
    requires CanStep(m, p, op)
    ensures var born := op.Fork? || op.Spawn?;
            && (q in MachineStep(m, p, op).tasks <==> q in m.tasks || (born && q == m.lastPid + 1))
            && MachineStep(m, p, op).lastPid == if born then m.lastPid + 1 else m.lastPid
  {
  }

  lemma {:induction false} RunKeepsPids(ks: seq<Kernel>, ops: seq<Op>, i: nat)
    requires Run(ks, ops) && AllPids(ks[0]) && i < |ks|
    ensures AllPids(ks[i])
  {
    if i > 0 {
      RunKeepsPids(ks, ops, i - 1);
      RunStaysValid(ks, ops, i - 1);
      assert Reached(ks, ops, i);
      PidsStep(ks[i - 1], ops[i - 1]);
    }
  }

  lemma {:induction false} RunStaysValid(ks: seq<Kernel>, ops: seq<Op>, i: nat)
    requires Run(ks, ops) && i < |ks|
    ensures Valid(ks[i])
  {
    assert Reached(ks, ops, i);
    if i > 0 {
      RunStaysValid(ks, ops, i - 1);
      assert Reached(ks, ops, i);
      StepKeepsValid(ks[i - 1], ops[i - 1]);
    }
  }

  /** In every reachable state exactly one process is running and it is the
      current one, the ready queue lists every ready process once and nothing
      else, each blocked process waits in at most one place, exactly the dead have
      an exit code and no resources, and the only step that can fail is a `wait_pid`
      for a pid that was never handed out. */
  lemma ReachableStates(ks: seq<Kernel>, ops: seq<Op>, i: nat, op: Op)
    requires Run(ks, ops) && Booted(ks[0]) && i < |ks| && Allowed(ks[i], op)
    ensures var k := ks[i];
            && k.current in k.procs
            && (forall p <- k.procs :: k.procs[p].status.Running? <==> p == k.current)
            && (forall p :: multiset(k.ready)[p] == if p in k.procs && k.procs[p].status.Ready? then 1 else 0)
            && (forall p, a, b :: At(k, a, p) && At(k, b, p) ==> a == b && p in k.procs && k.procs[p].status.Blocked?)
            && (forall p <- k.procs :: WellFormed(k.procs[p]))
            && (Step(k, op).Crash? <==> op.WaitPid? && !(1 <= op.pid <= k.lastPid))
  {
    RunStaysValid(ks, ops, i);
    StepKeepsValid(ks[i], op);
    RunKeepsPids(ks, ops, i);
    forall p ensures multiset(ks[i].ready)[p] == if p in ks[i].ready then 1 else 0 {
      OnceInNoDup(ks[i].ready, p);
    }
  }

  lemma {:induction false} OnceInNoDup(s: seq<Pid>, p: Pid)
    requires NoDup(s)
    ensures multiset(s)[p] == if p in s then 1 else 0
  {
    if s != [] {
      assert s == [s[0]] + s[1..];
      OnceInNoDup(s[1..], p);
      assert multiset(s) == multiset{s[0]} + multiset(s[1..]);
    }
  }

  /** If no semaphore is created over, or removed from under, its waiters, then
      every blocked process waits in some place. */
  lemma {:induction false} NobodyLost(ks: seq<Kernel>, ops: seq<Op>, i: nat, pid: Pid)
    requires Run(ks, ops) && i < |ks| && pid in ks[i].procs
    requires pid in ks[0].procs ==> !Orphan(ks[0], pid)
    requires forall j :: 0 <= j < i && (ops[j].NewSemaphore? || ops[j].RemoveSemaphore?) ==>
               Valid(ks[j]) && !At(ks[j], OnSem(SemOf(ks[j], ops[j].key)), pid)
    ensures !Orphan(ks[i], pid)
  {
    if i > 0 {
      var k := ks[i - 1];
      RunStaysValid(ks, ops, i - 1);
      assert Reached(ks, ops, i);
      if pid in k.procs {
        NobodyLost(ks, ops, i - 1, pid);
        OrphansExactly(k, ops[i - 1], pid);
      } else {
        NewcomerRuns(k, ops[i - 1], pid);
      }
    }
  }

  // ---------------------------------------------------------------------------
  // Refinement
  // ---------------------------------------------------------------------------

  function Opened(sems: map<SemId, Sem>): map<SemId, Ledger> {
    map id | id in sems :: Ledger(sems[id].count, 0, sems[id].queue)
  }

  lemma OpenedTracks(sems: map<SemId, Sem>)
    requires forall id <- sems :: sems[id].count > 0 ==> sems[id].queue == []
    ensures SameLedgers(sems, Opened(sems))
  {
  }

  /** The machine a valid state stands for, its ledgers opened at that state. */
  function MachineOf(k: Kernel): Machine
    requires forall p <- k.procs :: WellFormed(k.procs[p])
  {
    Machine(
      Tasks(k),
      (map q | q in k.waiting :: (set p | p in k.waiting[q])),
      Opened(k.sems),
      k.lastPid)
  }

  lemma MachineOfRefines(k: Kernel)
    requires Valid(k)
    ensures Refines(k, MachineOf(k))
  {
    OpenedTracks(k.sems);
  }

  /** The machine after `n` steps of a kernel run, each taken by whichever task
      is current there. */
  function MachineAt(ks: seq<Kernel>, ops: seq<Op>, n: nat): Machine
    requires n <= |ops| < |ks| && forall p <- ks[0].procs :: WellFormed(ks[0].procs[p])
  {
    if n == 0 then MachineOf(ks[0])
    else
      var m := MachineAt(ks, ops, n - 1);
      if CanStep(m, ks[n - 1].current, ops[n - 1]) then MachineStep(m, ks[n - 1].current, ops[n - 1]) else m
  }

  predicate CanStep(m: Machine, p: Pid, op: Op) {
    Runs(m, p) && (op.WaitPid? ==> op.pid in m.tasks)
  }

  /** Every run of the kernel is an interleaving of the machine's tasks: at each
      point the kernel refines the machine, and whichever task acts is one the
      machine lets run. */
  lemma {:induction false} RunRefines(ks: seq<Kernel>, ops: seq<Op>, n: nat)
    requires Run(ks, ops) && Valid(ks[0]) && n <= |ops|
    ensures Refines(ks[n], MachineAt(ks, ops, n))
    ensures n < |ops| ==> CanStep(MachineAt(ks, ops, n), ks[n].current, ops[n])
  {
    if n == 0 {
      MachineOfRefines(ks[0]);
    } else {
      RunRefines(ks, ops, n - 1);
      assert Reached(ks, ops, n);
      StepRefines(ks[n - 1], MachineAt(ks, ops, n - 1), ops[n - 1]);
    }
    if n < |ops| {
      assert Reached(ks, ops, n + 1);
      StepRefines(ks[n], MachineAt(ks, ops, n), ops[n]);
    }
  }

  /** One process across a step, as the machine sees it. */
  lemma StepTask(k: Kernel, op: Op, p: Pid)
    requires Valid(k) && Allowed(k, op) && Step(k, op).Done?
    ensures CanStep(MachineOf(k), k.current, op) && Valid(Step(k, op).k)
    ensures Step(k, op).k.lastPid == MachineStep(MachineOf(k), k.current, op).lastPid
    ensures var k' := Step(k, op).k;
            var m' := MachineStep(MachineOf(k), k.current, op);
            && (p in k'.procs <==> p in m'.tasks)
            && (p in k'.procs ==> WellFormed(k'.procs[p]) && TaskOf(k'.procs[p], RegsOf(k', p)) == m'.tasks[p])
  {
    MachineOfRefines(k);
    StepRefines(k, MachineOf(k), op);
  }

  lemma NewTaskRuns(m: Machine, p: Pid, op: Op, q: Pid)
    requires CanStep(m, p, op) && q !in m.tasks && q in MachineStep(m, p, op).tasks
    ensures Runs(MachineStep(m, p, op), q)
  {
  }

  lemma NewcomerRuns(k: Kernel, op: Op, pid: Pid)
    requires Valid(k) && Allowed(k, op) && Step(k, op).Done?
    requires pid !in k.procs && pid in Step(k, op).k.procs
    ensures !Step(k, op).k.procs[pid].status.Blocked?
  {
    StepTask(k, op, pid);
    NewTaskRuns(MachineOf(k), k.current, op, pid);
  }

  // ---------------------------------------------------------------------------
  // Exit and wait
  // ---------------------------------------------------------------------------

  /** The signal `op` by `p` grants the request of `w`. */
  predicate Grants(m: Machine, p: Pid, op: Op, w: Pid)
    requires Runs(m, p)
  {
    && op.SemSignal? && SemId(m.tasks[p].family, op.key) in m.ledgers
    && var l := m.ledgers[SemId(m.tasks[p].family, op.key)];
       l.Units() < |l.requests| && l.requests[l.Units()] == w
  }

  /** A waiting task changes only by a grant or by the exit it waits for. */
  lemma WaitingTask(m: Machine, p: Pid, op: Op, w: Pid)
    requires CanStep(m, p, op) && w in m.tasks && m.tasks[w].Live? && m.tasks[w].waits && w <= m.lastPid
    ensures w in MachineStep(m, p, op).tasks
    ensures MachineStep(m, p, op).tasks[w] ==
              if op.Exit? && w in WaitersFor(m, p) then Delivered(m.tasks[w], op.code)
              else if Grants(m, p, op, w) then Released(m.tasks[w])
              else m.tasks[w]
  {
  }

  /** A task that has exited never changes again. */
  lemma ExitedTask(m: Machine, p: Pid, op: Op, w: Pid)
    requires CanStep(m, p, op) && w in m.tasks && m.tasks[w].Exited? && w <= m.lastPid
    ensures w in MachineStep(m, p, op).tasks && MachineStep(m, p, op).tasks[w] == m.tasks[w]
  {
  }

  lemma DeadStays(k: Kernel, op: Op, q: Pid)
    requires Valid(k) && Allowed(k, op) && Step(k, op).Done?
    requires q in k.procs && k.procs[q].status.Dead?
    ensures var k' := Step(k, op).k;
            q in k'.procs && k'.procs[q].status.Dead? && k'.procs[q].exitCode == k.procs[q].exitCode
  {
    StepTask(k, op, q);
    ExitedTask(MachineOf(k), k.current, op, q);
  }

  /** A process waiting for `q` goes on waiting, registers untouched, until `q`
      exits; it then has the exit code in `rax` and nothing else changed. */
  lemma WaiterStep(k: Kernel, op: Op, p: Pid, q: Pid)
    requires Valid(k) && Allowed(k, op) && Step(k, op).Done? && At(k, OnExit(q), p)
    ensures var k' := Step(k, op).k;
            && p in k'.procs && p in k.procs && q in k'.procs
            && if op.Exit? && k.current == q then
                 && k'.procs[q].status.Dead? && k'.procs[q].exitCode == Some(op.code)
                 && !k'.procs[p].status.Blocked?
                 && RegsOf(k', p) == RegsOf(k, p).(
                      rax := if op.code >= 0 then op.code else op.code + 0x1_0000_0000_0000_0000)
               else
                 At(k', OnExit(q), p) && RegsOf(k', p) == RegsOf(k, p)
  {
    hide Step, Inv;
    WaiterIsBlocked(k, p, q);
    var m := MachineOf(k);
    StepTask(k, op, p);
    StepTask(k, op, q);
    PlacesAfter(k, op, OnExit(q), p);
    WaitingTask(m, k.current, op, p);
    WaiterIsNotGranted(k, op, p, q);
  }

  lemma WaiterIsBlocked(k: Kernel, p: Pid, q: Pid)
    requires Valid(k) && At(k, OnExit(q), p)
    ensures p in k.procs && k.procs[p].status.Blocked? && p <= k.lastPid && p != k.current && q in k.procs
    ensures forall x <- k.procs :: WellFormed(k.procs[x])
    ensures k.procs[k.current].data.Some?
  {
  }

  lemma WaiterIsNotGranted(k: Kernel, op: Op, p: Pid, q: Pid)
    requires Valid(k) && At(k, OnExit(q), p)
    ensures !Grants(MachineOf(k), k.current, op, p) && !Hands(k, op, p)
    ensures forall r :: p in WaitersFor(MachineOf(k), r) <==> r == q
  {
    forall r | p in WaitersFor(MachineOf(k), r) ensures r == q {
      assert At(k, OnExit(r), p);
    }
    if op.SemSignal? && SemOf(k, op.key) in k.sems {
      assert !At(k, OnSem(SemOf(k, op.key)), p);
    }
  }

  lemma {:induction false} DeadStaysInRun(ks: seq<Kernel>, ops: seq<Op>, i: nat, n: nat, q: Pid)
    requires Run(ks, ops) && i <= n < |ks|
    requires q in ks[i].procs && ks[i].procs[q].status.Dead?
    ensures q in ks[n].procs && ks[n].procs[q].status.Dead? && ks[n].procs[q].exitCode == ks[i].procs[q].exitCode
    decreases n - i
  {
    if i < n {
      RunStaysValid(ks, ops, i);
      assert Reached(ks, ops, i + 1);
      DeadStays(ks[i], ops[i], q);
      DeadStaysInRun(ks, ops, i + 1, n, q);
    }
  }

  /** `j` is the first state after `i` in which `p` is not blocked. */
  ghost predicate FirstUnblocked(ks: seq<Kernel>, i: nat, j: nat, p: Pid) {
    && i < j < |ks|
    && (forall l :: i < l < j ==> p in ks[l].procs && ks[l].procs[p].status.Blocked?)
    && p in ks[j].procs && !ks[j].procs[p].status.Blocked?
  }

  lemma WaiterMoves(ks: seq<Kernel>, ops: seq<Op>, i: nat, p: Pid, q: Pid)
    requires Run(ks, ops) && i < |ops| && At(ks[i], OnExit(q), p)
    ensures p in ks[i].procs && p in ks[i + 1].procs && q in ks[i + 1].procs
    ensures if ops[i].Exit? && ks[i].current == q then
              && ks[i + 1].procs[q].status.Dead? && ks[i + 1].procs[q].exitCode == Some(ops[i].code)
              && !ks[i + 1].procs[p].status.Blocked?
              && RegsOf(ks[i + 1], p) == RegsOf(ks[i], p).(rax := Signed(ops[i].code))
            else
              && At(ks[i + 1], OnExit(q), p) && ks[i + 1].procs[p].status.Blocked?
              && RegsOf(ks[i + 1], p) == RegsOf(ks[i], p)
  {
    RunStaysValid(ks, ops, i);
    RunStaysValid(ks, ops, i + 1);
    assert Reached(ks, ops, i + 1);
    WaiterStep(ks[i], ops[i], p, q);
  }

  lemma {:induction false} WaiterInRun(ks: seq<Kernel>, ops: seq<Op>, i: nat, n: nat, p: Pid, q: Pid)
      returns (j: nat)
    requires Run(ks, ops) && i < n < |ks| && At(ks[i], OnExit(q), p)
    requires p in ks[i].procs && p in ks[n].procs && !ks[n].procs[p].status.Blocked?
    ensures FirstUnblocked(ks, i, j, p) && j <= n
    ensures q in ks[n].procs && ks[n].procs[q].status.Dead? && ks[n].procs[q].exitCode.Some?
    ensures RegsOf(ks[j], p) == RegsOf(ks[i], p).(rax := Signed(ks[n].procs[q].exitCode.value))
    decreases n - i
  {
    WaiterMoves(ks, ops, i, p, q);
    if ops[i].Exit? && ks[i].current == q {
      DeadStaysInRun(ks, ops, i + 1, n, q);
      j := i + 1;
    } else {
      j := WaiterInRun(ks, ops, i + 1, n, p, q);
    }
  }

  lemma WaitPidParks(k: Kernel, q: Pid)
    requires Valid(k) && k.current != KERNEL_PID && Alive(k, q)
    ensures Step(k, WaitPid(q)).Done? && Valid(Step(k, WaitPid(q)).k)
    ensures var k' := Step(k, WaitPid(q)).k;
            && At(k', OnExit(q), k.current) && k.current in k'.procs
            && k'.procs[k.current].status.Blocked?
            && RegsOf(k', k.current) == k.frame
  {
    StepKeepsValid(k, WaitPid(q));
    StepTask(k, WaitPid(q), k.current);
    PlacesAfter(k, WaitPid(q), OnExit(q), k.current);
  }

  lemma WaitPidAtOnce(k: Kernel, q: Pid)
    requires Valid(k) && !Alive(k, q) && Step(k, WaitPid(q)).Done?
    ensures q in k.procs && k.procs[q].status.Dead? && k.procs[q].exitCode.Some?
    ensures var k' := Step(k, WaitPid(q)).k;
            && k.current in k'.procs && !k'.procs[k.current].status.Blocked?
            && RegsOf(k', k.current) == k.frame.(rax := Signed(k.procs[q].exitCode.value))
  {
  }

  lemma WaitPidMoves(ks: seq<Kernel>, ops: seq<Op>, i: nat, q: Pid)
    requires Run(ks, ops) && i < |ops| && ops[i] == WaitPid(q)
    ensures var p := ks[i].current;
            && p in ks[i + 1].procs
            && if ks[i + 1].procs[p].status.Blocked? then
                 At(ks[i + 1], OnExit(q), p) && RegsOf(ks[i + 1], p) == ks[i].frame
               else
                 && !At(ks[i + 1], OnExit(q), p)
                 && q in ks[i + 1].procs && ks[i + 1].procs[q].status.Dead? && ks[i + 1].procs[q].exitCode.Some?
                 && RegsOf(ks[i + 1], p) == ks[i].frame.(rax := Signed(ks[i + 1].procs[q].exitCode.value))
  {
    RunStaysValid(ks, ops, i);
    assert Reached(ks, ops, i + 1);
    if Alive(ks[i], q) {
      WaitPidParks(ks[i], q);
    } else {
      WaitPidAtOnce(ks[i], q);
    }
  }

  /** Whichever of `exit` and `wait_pid` comes first: when the caller of
      `wait_pid(q)` at step `i` next gets on, at state `j`, it has the registers
      it called with and the exit code of `q` in `rax`; in between it was
      blocked throughout. */
  lemma WaitPidReturnsExitCode(ks: seq<Kernel>, ops: seq<Op>, i: nat, n: nat, q: Pid) returns (j: nat)
    requires Run(ks, ops) && i < n < |ks| && ops[i] == WaitPid(q)
    requires ks[i].current in ks[n].procs && !ks[n].procs[ks[i].current].status.Blocked?
    ensures FirstUnblocked(ks, i, j, ks[i].current) && j <= n
    ensures q in ks[n].procs && ks[n].procs[q].status.Dead? && ks[n].procs[q].exitCode.Some?
    ensures var code := ks[n].procs[q].exitCode.value;
            RegsOf(ks[j], ks[i].current) == ks[i].frame.(
              rax := if code >= 0 then code else code + 0x1_0000_0000_0000_0000)
  {
    var p := ks[i].current;
    WaitPidMoves(ks, ops, i, q);
    if At(ks[i + 1], OnExit(q), p) {
      j := WaiterInRun(ks, ops, i + 1, n, p, q);
    } else {
      j := i + 1;
      DeadStaysInRun(ks, ops, i + 1, n, q);
    }
  }

  // ---------------------------------------------------------------------------
  // Round robin
  // ---------------------------------------------------------------------------

  lemma SettledAppends(k: Kernel, op: Op)
    requires Valid(k) && Switches(k, op)
    requires forall p <- WaitersOf(k, k.current) :: p in k.procs
    ensures k.ready <= Settled(k, op).ready
  {
    WakeWaitingIs(k, if op.Exit? then op.code else 0);
  }

  /** A switch takes the head of the queue and moves everybody else up by one;
      any other step leaves every position as it is. */
  lemma QueueStep(k: Kernel, op: Op, i: nat)
    requires Valid(k) && Allowed(k, op) && Step(k, op).Done? && i < |k.ready|
    ensures var k' := Step(k, op).k;
            if !Switches(k, op) then i < |k'.ready| && k'.ready[i] == k.ready[i]
            else if i == 0 then k'.current == k.ready[0]
            else i - 1 < |k'.ready| && k'.ready[i - 1] == k.ready[i]
  {
    if Switches(k, op) {
      StepShape(k, op);
      SettledAppends(k, op);
    } else if op.SemSignal? && SemOf(k, op.key) in k.sems && k.sems[SemOf(k, op.key)].queue != [] {
      assert At(k, OnSem(SemOf(k, op.key)), k.sems[SemOf(k, op.key)].queue[0]);
    }
  }

  predicate SwitchesHere(k: Kernel, op: Op) {
    k.current in k.procs && k.procs[k.current].data.Some? && Switches(k, op)
  }

  /** How many of the first `n` steps after state `i` are switches. */
  function Switched(ks: seq<Kernel>, ops: seq<Op>, i: nat, n: nat): nat
    requires i <= n <= |ops| <= |ks|
  {
    if n == i then 0
    else Switched(ks, ops, i, n - 1) + if SwitchesHere(ks[n - 1], ops[n - 1]) then 1 else 0
  }

  lemma QueueMoves(ks: seq<Kernel>, ops: seq<Op>, n: nat, pos: nat)
    requires Run(ks, ops) && n < |ops| && pos < |ks[n].ready|
    ensures if !SwitchesHere(ks[n], ops[n]) then pos < |ks[n + 1].ready| && ks[n + 1].ready[pos] == ks[n].ready[pos]
            else if pos == 0 then ks[n + 1].current == ks[n].ready[0]
            else pos - 1 < |ks[n + 1].ready| && ks[n + 1].ready[pos - 1] == ks[n].ready[pos]
  {
    RunStaysValid(ks, ops, n);
    assert Reached(ks, ops, n + 1);
    QueueStep(ks[n], ops[n], pos);
  }

  lemma {:induction false} QueueInRun(ks: seq<Kernel>, ops: seq<Op>, i: nat, n: nat, pos: nat)
    requires Run(ks, ops) && i <= n <= |ops| && pos < |ks[i].ready| && Switched(ks, ops, i, n) <= pos
    ensures var pos' := pos - Switched(ks, ops, i, n);
            pos' < |ks[n].ready| && ks[n].ready[pos'] == ks[i].ready[pos]
    decreases n
  {
    if i < n {
      QueueInRun(ks, ops, i, n - 1, pos);
      QueueMoves(ks, ops, n - 1, pos - Switched(ks, ops, i, n - 1));
    }
  }

  /** Round robin: the process at position `pos` of the ready queue is
      dispatched by exactly the `pos + 1`-th switch from there on, whatever other
      steps come in between, and by none before it. */
  lemma RoundRobin(ks: seq<Kernel>, ops: seq<Op>, i: nat, n: nat, pos: nat)
    requires Run(ks, ops) && i <= n < |ops| && pos < |ks[i].ready|
    requires SwitchesHere(ks[n], ops[n]) && Switched(ks, ops, i, n) <= pos
    ensures ks[n + 1].current == ks[i].ready[pos] <==> Switched(ks, ops, i, n) == pos
  {
    QueueInRun(ks, ops, i, n, pos);
    RunStaysValid(ks, ops, n + 1);
    var pos' := pos - Switched(ks, ops, i, n);
    QueueMoves(ks, ops, n, pos');
    if pos' > 0 {
      assert ks[n + 1].ready[pos' - 1] in ks[n + 1].ready;
    }
  }
}
