/** Programs of waits and signals on the kernel itself: what the processes of a family
    do there is a run of module `SemPrograms`, so what is proved of all such runs holds
    under the kernel's scheduler. */
module KernelPrograms {
  import opened Basics
  import opened Semaphores
  import opened Kernel
  import opened KernelInvariant
  import opened KernelRefinement
  import opened KernelRuns
  import P = SemPrograms
  import Counter
  import Fish
  import Philosophers
  import MessageQueue

  /** The family whose semaphores the program uses, and the pid of each of its
      processes. */
  datatype Team = Team(family: Pid, pids: seq<Pid>)

  function PidOf(t: Team, i: nat): Pid { if i < |t.pids| then t.pids[i] else 0 }

  /** A semaphore of the program with the kernel's names for those who wait. */
  function Renamed(t: Team, s: Sem): Sem {
    Sem(s.count, seq(|s.queue|, i requires 0 <= i < |s.queue| => PidOf(t, s.queue[i])))
  }

  ghost predicate Members(t: Team, k: Kernel) {
    && NoDup(t.pids)
    && forall i :: 0 <= i < |t.pids| ==>
         && t.pids[i] in k.procs
         && (k.procs[t.pids[i]].status.Dead? || k.procs[t.pids[i]].data == Some(t.family))
  }

  ghost predicate SameBlocked(t: Team, k: Kernel, blocked: seq<bool>)
    requires Members(t, k) && |blocked| == |t.pids|
  {
    forall i :: 0 <= i < |t.pids| ==> (k.procs[t.pids[i]].status.Blocked? <==> blocked[i])
  }

  ghost predicate SameSems(t: Team, sems: map<SemId, Sem>, s: seq<Sem>) {
    forall j :: 0 <= j < |s| ==> SemId(t.family, j) in sems && sems[SemId(t.family, j)] == Renamed(t, s[j])
  }

  /** The kernel is where the program is. */
  ghost predicate Joined<M>(sys: P.System<M>, t: Team, k: Kernel, s: P.State<M>) {
    && P.Shaped(sys, s) && P.Inv(sys, s) && |t.pids| == sys.n && Members(t, k)
    && SameBlocked(t, k, s.blocked) && SameSems(t, k.sems, s.sems)
  }

  /** The process that is current. */
  ghost function Mover(t: Team, k: Kernel): (i: nat)
    requires k.current in t.pids
    ensures i < |t.pids| && t.pids[i] == k.current
  {
    var i :| 0 <= i < |t.pids| && t.pids[i] == k.current; i
  }

  /** The system calls that name a semaphore. */
  predicate OnSemaphore(op: Op) { op.SemWait? || op.SemSignal? || op.NewSemaphore? || op.RemoveSemaphore? }

  /** `op` is what the code allows here: the call that the instruction stands for, the
      statement, the exit at the end, and at any time computing on registers or being
      preempted.  Others keep away from the semaphores of the family. */
  ghost predicate Obeys<M>(sys: P.System<M>, t: Team, k: Kernel, s: P.State<M>, op: Op)
    requires Joined(sys, t, k, s) && k.current in k.procs
  {
    if k.current in t.pids then
      || op.Tick? || op.User?
      || match P.At(sys, s, Mover(t, k))
         case Down(j) => op == SemWait(j)
         case Up(j) => op == SemSignal(j)
         case Act => false
         case Halt => op.Exit?
    else k.procs[k.current].data == Some(t.family) ==> !OnSemaphore(op)
  }

  /** Whether the step is an instruction of the program. */
  ghost predicate Executes<M>(sys: P.System<M>, t: Team, k: Kernel, s: P.State<M>, op: Op)
    requires Joined(sys, t, k, s)
  {
    && k.current in t.pids
    && match P.At(sys, s, Mover(t, k))
       case Down(_) => op.SemWait?
       case Up(_) => op.SemSignal?
       case Act => op.User?
       case Halt => false
  }

  /** Where the program is after the step. */
  ghost function Next<M>(sys: P.System<M>, t: Team, k: Kernel, s: P.State<M>, op: Op): P.State<M>
    requires Joined(sys, t, k, s)
  {
    if Executes(sys, t, k, s, op) && P.CanStep(sys, s, Mover(t, k)) then P.Step(sys, s, Mover(t, k)) else s
  }

  // ---------------------------------------------------------------------------
  // What a kernel step does to semaphores and data
  // ---------------------------------------------------------------------------

  /** The semaphores after a call on one of them, or any other step. */
  function Semaphored(k: Kernel, op: Op): map<SemId, Sem>
    requires k.current in k.procs && k.procs[k.current].data.Some?
  {
    if !OnSemaphore(op) then k.sems else
    var id := SemOf(k, op.key);
    match op
    case NewSemaphore(_, value) => k.sems[id := NewSem(value)]
    case RemoveSemaphore(_) => k.sems - {id}
    case SemWait(_) => if id in k.sems then k.sems[id := WaitSem(k.sems[id], k.current).0] else k.sems
    case _ => if id in k.sems then k.sems[id := SignalSem(k.sems[id]).0] else k.sems
  }

  lemma SettledSems(k: Kernel, op: Op)
    requires k.current in k.procs && k.procs[k.current].data.Some? && Switches(k, op)
    requires forall p <- WaitersOf(k, k.current) :: p in k.procs
    requires op.Exit? ==> Delivers(k, op.code)
    ensures Settled(k, op).sems == Semaphored(k, op)
  {
  }

  lemma SemsAfter(k: Kernel, op: Op)
    requires Valid(k) && Allowed(k, op) && Step(k, op).Done?
    ensures k.procs[k.current].data.Some? && Step(k, op).k.sems == Semaphored(k, op)
  {
    CurrentHas(k);
    if Switches(k, op) {
      SwitchSems(k, op);
    } else {
      DirectSems(k, op);
    }
  }

  lemma SwitchSems(k: Kernel, op: Op)
    requires Valid(k) && Allowed(k, op) && Switches(k, op) && Step(k, op).Done?
    ensures Step(k, op).k.sems == Semaphored(k, op)
  {
    hide Step, Settled, Semaphored, Inv;
    CurrentHas(k);
    StepShape(k, op);
    WakeWaitingIs(k, if op.Exit? then op.code else 0);
    SettledSems(k, op);
  }

  lemma DirectSems(k: Kernel, op: Op)
    requires k.current in k.procs && k.procs[k.current].data.Some? && !Switches(k, op) && Step(k, op).Done?
    ensures Step(k, op).k.sems == Semaphored(k, op)
  {
  }

  lemma FamilyStays(m: Machine, p: Pid, op: Op, q: Pid)
    requires CanStep(m, p, op) && q in m.tasks && q <= m.lastPid
    ensures var m' := MachineStep(m, p, op);
            && q in m'.tasks
            && (m'.tasks[q].Exited? <==> m.tasks[q].Exited? || (q == p && op.Exit?))
            && (m.tasks[q].Live? ==> m'.tasks[q].Exited? || m'.tasks[q].family == m.tasks[q].family)
  {
  }

  lemma MembersStay(t: Team, k: Kernel, op: Op)
    requires Valid(k) && Allowed(k, op) && Step(k, op).Done? && Members(t, k)
    ensures Members(t, Step(k, op).k)
  {
    hide Step, MachineStep;
    var k' := Step(k, op).k;
    forall i | 0 <= i < |t.pids|
      ensures t.pids[i] in k'.procs && (k'.procs[t.pids[i]].status.Dead? || k'.procs[t.pids[i]].data == Some(t.family))
    {
      StepTask(k, op, t.pids[i]);
      FamilyStays(MachineOf(k), k.current, op, t.pids[i]);
    }
  }

  // ---------------------------------------------------------------------------
  // One step
  // ---------------------------------------------------------------------------

  /** A blocked process of the team waits on a semaphore of the program. */
  lemma WaitsInTeam<M>(sys: P.System<M>, t: Team, k: Kernel, s: P.State<M>, i: nat) returns (j: nat)
    requires Joined(sys, t, k, s) && i < sys.n && s.blocked[i]
    ensures j < |s.sems| && At(k, OnSem(SemId(t.family, j)), t.pids[i])
  {
    assert P.BlockedOk(sys, s, i);
    j := P.At(sys, s, i).k;
    var q := s.sems[j].queue;
    var n :| 0 <= n < |q| && q[n] == i;
    assert Renamed(t, s.sems[j]).queue[n] == t.pids[i];
  }

  /** Who is current runs, and has not been blocked. */
  lemma MoverEnabled<M>(sys: P.System<M>, t: Team, k: Kernel, s: P.State<M>)
    requires Joined(sys, t, k, s) && Valid(k) && k.current in t.pids
    ensures Mover(t, k) < sys.n && !s.blocked[Mover(t, k)]
    ensures k.procs[k.current].data == Some(t.family)
  {
    CurrentHas(k);
  }

  /** Handing a unit to a process of the team takes a signal on its own semaphores. */
  lemma HandsInTeam<M>(sys: P.System<M>, t: Team, k: Kernel, s: P.State<M>, op: Op, i: nat)
    requires Joined(sys, t, k, s) && Valid(k) && i < sys.n && s.blocked[i]
    ensures forall q :: !At(k, OnExit(q), t.pids[i])
    ensures Hands(k, op, t.pids[i]) ==> op.SemSignal? && k.procs[k.current].data == Some(t.family)
  {
    hide Inv;
    CurrentHas(k);
    var j := WaitsInTeam(sys, t, k, s, i);
    WaitsBlocked(k, t.pids[i]);
    if Hands(k, op, t.pids[i]) {
      assert At(k, OnSem(SemOf(k, op.key)), t.pids[i]);
    }
  }

  /** A step that is no instruction of the program leaves it where it is. */
  lemma QuietStep<M>(sys: P.System<M>, t: Team, k: Kernel, s: P.State<M>, op: Op)
    requires Joined(sys, t, k, s) && Valid(k) && Allowed(k, op) && Step(k, op).Done?
    requires Obeys(sys, t, k, s, op) && !Executes(sys, t, k, s, op)
    ensures Joined(sys, t, Step(k, op).k, s)
  {
    hide Step, Inv, P.Inv;
    var k' := Step(k, op).k;
    CurrentHas(k);
    MembersStay(t, k, op);
    SemsAfter(k, op);
    if k.current in t.pids {
      MoverEnabled(sys, t, k, s);
      assert !OnSemaphore(op) && !op.WaitPid?;
    }
    forall i | 0 <= i < |t.pids| ensures k'.procs[t.pids[i]].status.Blocked? <==> s.blocked[i] {
      BlockedAfter(k, op, t.pids[i]);
      if s.blocked[i] {
        HandsInTeam(sys, t, k, s, op, i);
      }
    }
  }

  lemma RenamedWait(t: Team, s: Sem, i: nat)
    ensures WaitSem(Renamed(t, s), PidOf(t, i)).0 == Renamed(t, WaitSem(s, i).0)
    ensures WaitSem(s, i).1.Ok? <==> s.count > 0
  {
    assert Renamed(t, s).queue + [PidOf(t, i)] == Renamed(t, s.(queue := s.queue + [i])).queue;
  }

  lemma RenamedSignal(t: Team, s: Sem)
    ensures SignalSem(Renamed(t, s)).0 == Renamed(t, SignalSem(s).0)
    ensures s.queue != [] ==> Renamed(t, s).queue[0] == PidOf(t, s.queue[0])
    ensures s.queue == [] <==> Renamed(t, s).queue == []
  {
    if s.queue != [] {
      assert Renamed(t, s).queue[1..] == Renamed(t, s.(queue := s.queue[1..])).queue;
    }
  }

  /** A wait of the program. */
  lemma WaitStep<M>(sys: P.System<M>, t: Team, k: Kernel, s: P.State<M>, i: nat, j: nat)
    requires Joined(sys, t, k, s) && Valid(k) && Allowed(k, SemWait(j)) && Step(k, SemWait(j)).Done?
    requires i < sys.n && t.pids[i] == k.current && k.procs[k.current].data == Some(t.family) && !s.blocked[i]
    requires P.At(sys, s, i) == P.Down(j) && P.CanStep(sys, s, i) && P.Inv(sys, P.Step(sys, s, i))
    ensures Joined(sys, t, Step(k, SemWait(j)).k, P.Step(sys, s, i))
  {
    hide Step, Inv, P.Inv;
    var op, k' := SemWait(j), Step(k, SemWait(j)).k;
    var s' := P.Step(sys, s, i);
    MembersStay(t, k, op);
    SemsAfter(k, op);
    RenamedWait(t, s.sems[j], i);
    forall x | 0 <= x < |t.pids| ensures k'.procs[t.pids[x]].status.Blocked? <==> s'.blocked[x] {
      BlockedAfter(k, op, t.pids[x]);
    }
  }

  /** A signal of the program. */
  lemma SignalStep<M>(sys: P.System<M>, t: Team, k: Kernel, s: P.State<M>, i: nat, j: nat)
    requires Joined(sys, t, k, s) && Valid(k) && Allowed(k, SemSignal(j)) && Step(k, SemSignal(j)).Done?
    requires i < sys.n && t.pids[i] == k.current && k.procs[k.current].data == Some(t.family) && !s.blocked[i]
    requires P.At(sys, s, i) == P.Up(j) && P.CanStep(sys, s, i) && P.Inv(sys, P.Step(sys, s, i))
    ensures Joined(sys, t, Step(k, SemSignal(j)).k, P.Step(sys, s, i))
  {
    hide Step, Inv, P.Inv;
    var op, k' := SemSignal(j), Step(k, SemSignal(j)).k;
    var s' := P.Step(sys, s, i);
    MembersStay(t, k, op);
    SemsAfter(k, op);
    RenamedSignal(t, s.sems[j]);
    var queue := s.sems[j].queue;
    assert queue != [] ==> queue[0] in queue;
    forall x | 0 <= x < |t.pids| ensures k'.procs[t.pids[x]].status.Blocked? <==> s'.blocked[x] {
      BlockedAfter(k, op, t.pids[x]);
      assert Hands(k, op, t.pids[x]) <==> queue != [] && queue[0] == x;
    }
  }

  lemma ActStep<M>(sys: P.System<M>, t: Team, k: Kernel, s: P.State<M>, i: nat, regs: Context)
    requires Joined(sys, t, k, s) && k.current in k.procs && i < sys.n && !s.blocked[i]
    requires P.At(sys, s, i).Act? && P.CanStep(sys, s, i) && P.Inv(sys, P.Step(sys, s, i))
    ensures Joined(sys, t, Step(k, User(regs)).k, P.Step(sys, s, i))
  {
    hide P.Inv;
  }

  /** Every kernel step keeps kernel and program together: an instruction of the
      program is a step it can make, anything else leaves it where it is. */
  lemma StepJoined<M>(sys: P.System<M>, t: Team, k: Kernel, s: P.State<M>, op: Op)
    requires P.WellFormed(sys) && Joined(sys, t, k, s) && Valid(k) && Allowed(k, op) && Step(k, op).Done?
    requires Obeys(sys, t, k, s, op)
    ensures Executes(sys, t, k, s, op) ==> P.CanStep(sys, s, Mover(t, k))
    ensures Joined(sys, t, Step(k, op).k, Next(sys, t, k, s, op))
  {
    hide Step, Valid, P.Inv, P.Step, Members, SameBlocked, SameSems;
    if !Executes(sys, t, k, s, op) {
      QuietStep(sys, t, k, s, op);
    } else {
      MoverEnabled(sys, t, k, s);
      CurrentHas(k);
      var i := Mover(t, k);
      P.StepInv(sys, s, i);
      match P.At(sys, s, i)
      case Down(j) => WaitStep(sys, t, k, s, i, j);
      case Up(j) => SignalStep(sys, t, k, s, i, j);
      case Act => ActStep(sys, t, k, s, i, op.regs);
    }
  }

  // ---------------------------------------------------------------------------
  // Whole runs
  // ---------------------------------------------------------------------------

  /** Who has exited was at the end of its code. */
  ghost predicate EndedAtHalt<M>(sys: P.System<M>, t: Team, k: Kernel, s: P.State<M>)
    requires Joined(sys, t, k, s)
  {
    forall i :: 0 <= i < |t.pids| && k.procs[t.pids[i]].status.Dead? ==> P.At(sys, s, i).Halt?
  }

  lemma OthersStay<M>(sys: P.System<M>, s: P.State<M>, p: nat, i: nat)
    requires P.Inv(sys, s) && P.CanStep(sys, s, p) && i < sys.n && i != p && !s.blocked[i]
    ensures P.Step(sys, s, p).pc[i] == s.pc[i]
  {
    if P.At(sys, s, p).Up? {
      assert P.QueueOk(sys, s, P.At(sys, s, p).k);
      var queue := s.sems[P.At(sys, s, p).k].queue;
      assert queue != [] ==> queue[0] in queue;
    }
  }

  lemma DeadAfter(k: Kernel, op: Op, p: Pid)
    requires Valid(k) && Allowed(k, op) && Step(k, op).Done? && p in k.procs
    ensures p in Step(k, op).k.procs
    ensures Step(k, op).k.procs[p].status.Dead? <==> k.procs[p].status.Dead? || (p == k.current && op.Exit?)
  {
    hide Step, MachineStep;
    StepTask(k, op, p);
    FamilyStays(MachineOf(k), k.current, op, p);
  }

  lemma StepEnds<M>(sys: P.System<M>, t: Team, k: Kernel, s: P.State<M>, op: Op)
    requires P.WellFormed(sys) && Joined(sys, t, k, s) && Valid(k) && Allowed(k, op) && Step(k, op).Done?
    requires Obeys(sys, t, k, s, op) && EndedAtHalt(sys, t, k, s)
    ensures Joined(sys, t, Step(k, op).k, Next(sys, t, k, s, op))
    ensures EndedAtHalt(sys, t, Step(k, op).k, Next(sys, t, k, s, op))
  {
    hide Step, Inv, P.Inv, P.Step;
    StepJoined(sys, t, k, s, op);
    CurrentHas(k);
    var k', s' := Step(k, op).k, Next(sys, t, k, s, op);
    forall i | 0 <= i < |t.pids| && k'.procs[t.pids[i]].status.Dead? ensures P.At(sys, s', i).Halt? {
      DeadAfter(k, op, t.pids[i]);
      if Executes(sys, t, k, s, op) {
        OthersStay(sys, s, Mover(t, k), i);
      }
    }
  }

  /** `ss` is where the program is at each state of a kernel run on which its processes
      keep to their code, from its start on. */
  ghost predicate Plays<M>(sys: P.System<M>, t: Team, ks: seq<Kernel>, ops: seq<Op>, ss: seq<P.State<M>>) {
    && Run(ks, ops) && |ss| == |ks| && ss[0] == P.Start(sys, ss[0].mem)
    && Joined(sys, t, ks[0], ss[0]) && EndedAtHalt(sys, t, ks[0], ss[0])
    && forall i :: 0 <= i < |ops| ==> Plied(sys, t, ks, ops, ss, i)
  }

  ghost predicate Plied<M>(sys: P.System<M>, t: Team, ks: seq<Kernel>, ops: seq<Op>, ss: seq<P.State<M>>, i: nat)
    requires i < |ops| && |ss| == |ks| == |ops| + 1
  {
    Joined(sys, t, ks[i], ss[i]) && ks[i].current in ks[i].procs ==>
      Obeys(sys, t, ks[i], ss[i], ops[i]) && ss[i + 1] == Next(sys, t, ks[i], ss[i], ops[i])
  }

  lemma {:induction false} JoinedThroughout<M>(
      sys: P.System<M>, t: Team, ks: seq<Kernel>, ops: seq<Op>, ss: seq<P.State<M>>, i: nat)
    requires P.WellFormed(sys) && Plays(sys, t, ks, ops, ss) && i < |ks|
    ensures Joined(sys, t, ks[i], ss[i]) && EndedAtHalt(sys, t, ks[i], ss[i])
  {
    hide Joined, EndedAtHalt, Valid;
    if i > 0 {
      JoinedThroughout(sys, t, ks, ops, ss, i - 1);
      RunStaysValid(ks, ops, i - 1);
      assert Reached(ks, ops, i);
      assert Plied(sys, t, ks, ops, ss, i - 1);
      StepEnds(sys, t, ks[i - 1], ss[i - 1], ops[i - 1]);
    }
  }

  /** Whatever the kernel schedules, its run, seen from the program, is a run of the
      program's own semantics that ends where the program is. */
  lemma {:induction false} KernelRunIsProgramRun<M>(
      sys: P.System<M>, t: Team, ks: seq<Kernel>, ops: seq<Op>, ss: seq<P.State<M>>, i: nat)
      returns (rs: seq<P.State<M>>, ps: seq<nat>)
    requires P.WellFormed(sys) && Plays(sys, t, ks, ops, ss) && i < |ks|
    ensures P.Run(sys, rs, ps) && |rs| == |ps| + 1 && |ps| <= i && rs[0] == ss[0] && rs[|ps|] == ss[i]
    ensures Joined(sys, t, ks[i], ss[i])
  {
    hide Joined, EndedAtHalt, Valid, Obeys;
    JoinedThroughout(sys, t, ks, ops, ss, i);
    if i == 0 {
      rs, ps := [ss[0]], [];
    } else {
      rs, ps := KernelRunIsProgramRun(sys, t, ks, ops, ss, i - 1);
      RunStaysValid(ks, ops, i - 1);
      assert Reached(ks, ops, i);
      assert Plied(sys, t, ks, ops, ss, i - 1);
      var k, s, op := ks[i - 1], ss[i - 1], ops[i - 1];
      StepJoined(sys, t, k, s, op);
      if Executes(sys, t, k, s, op) {
        rs, ps := RunOn(sys, rs, ps, Mover(t, k));
      }
    }
  }

  lemma RunOn<M>(sys: P.System<M>, rs: seq<P.State<M>>, ps: seq<nat>, p: nat)
      returns (rs': seq<P.State<M>>, ps': seq<nat>)
    requires P.Run(sys, rs, ps) && P.CanStep(sys, rs[|ps|], p)
    ensures P.Run(sys, rs', ps') && ps' == ps + [p] && |rs'| == |ps'| + 1 && rs'[0] == rs[0] && rs'[|ps|] == rs[|ps|]
    ensures rs'[|ps'|] == P.Step(sys, rs[|ps|], p)
  {
    hide P.Step, P.CanStep;
    rs', ps' := rs + [P.Step(sys, rs[|ps|], p)], ps + [p];
    forall i | 0 <= i < |ps'| ensures P.Follows(sys, rs', ps', i) {
      assert i < |ps| ==> P.Follows(sys, rs, ps, i);
    }
  }

  /** Once every process has exited, the program can go no further. */
  lemma AllExitedIsStuck<M>(sys: P.System<M>, t: Team, k: Kernel, s: P.State<M>)
    requires Joined(sys, t, k, s) && EndedAtHalt(sys, t, k, s)
    requires forall p <- t.pids :: p in k.procs && k.procs[p].status.Dead?
    ensures P.Shaped(sys, s) && P.Stuck(sys, s)
  {
    forall i: nat | i < sys.n ensures P.At(sys, s, i).Halt? {
      assert t.pids[i] in t.pids;
    }
  }

  /** The counter program on the kernel: at no time are two of its processes between the
      wait and the signal. */
  lemma ExclusionOnKernel(n: nat, rounds: nat, t: Team, ks: seq<Kernel>, ops: seq<Op>,
                          ss: seq<P.State<Counter.Memory>>, i: nat, p: nat, q: nat)
    requires Plays(Counter.Program(n, rounds), t, ks, ops, ss) && ss[0].mem == Counter.Memory(0, seq(n, _ => 0))
    requires i < |ks| && p < n && q < n && p != q
    ensures |ss[i].pc| == n && !(Counter.Inside(ss[i].pc[p]) && Counter.Inside(ss[i].pc[q]))
  {
    hide Joined, EndedAtHalt, Run, P.Run, Counter.Inside;
    Counter.ProgramWellFormed(n, rounds);
    var rs, ps := KernelRunIsProgramRun(Counter.Program(n, rounds), t, ks, ops, ss, i);
    Counter.MutualExclusion(n, rounds, rs, ps, |ps|, p, q);
  }

  /** And once all of them have exited no increment is missing. */
  lemma CounterOnKernel(n: nat, rounds: nat, t: Team, ks: seq<Kernel>, ops: seq<Op>,
                        ss: seq<P.State<Counter.Memory>>, i: nat)
    requires Plays(Counter.Program(n, rounds), t, ks, ops, ss) && ss[0].mem == Counter.Memory(0, seq(n, _ => 0))
    requires i < |ks| && forall p <- t.pids :: p in ks[i].procs && ks[i].procs[p].status.Dead?
    ensures ss[i].mem.counter == n * rounds
  {
    hide Joined, EndedAtHalt, Run, P.Run, P.Stuck;
    var sys := Counter.Program(n, rounds);
    Counter.ProgramWellFormed(n, rounds);
    var rs, ps := KernelRunIsProgramRun(sys, t, ks, ops, ss, i);
    JoinedThroughout(sys, t, ks, ops, ss, i);
    AllExitedIsStuck(sys, t, ks[i], ss[i]);
    Counter.MaximalRunCountsAll(n, rounds, rs, ps);
  }

  /** The fish program on the kernel: what has been printed is always a beginning of the
      repeated pattern. */
  lemma FishOnKernel(rounds: nat, t: Team, ks: seq<Kernel>, ops: seq<Op>, ss: seq<P.State<string>>, i: nat, j: nat)
    requires Plays(Fish.Program(rounds), t, ks, ops, ss) && ss[0].mem == "" && i < |ks|
    ensures j < |ss[i].mem| ==> ss[i].mem[j] == Fish.FISH[j % 8]
  {
    hide Joined, EndedAtHalt, Run, P.Run;
    Fish.ProgramWellFormed(rounds);
    var rs, ps := KernelRunIsProgramRun(Fish.Program(rounds), t, ks, ops, ss, i);
    Fish.OutputIsPrefix(rounds, rs, ps, |ps|, j);
  }

  /** The philosophers on the kernel: neighbours never eat at the same time. */
  lemma NeighboursOnKernel(n: nat, t: Team, ks: seq<Kernel>, ops: seq<Op>, ss: seq<P.State<()>>, i: nat, p: nat)
    requires n >= 2 && Plays(Philosophers.Program(n), t, ks, ops, ss) && i < |ks| && p < n
    ensures P.Shaped(Philosophers.Program(n), ss[i])
    ensures !(Philosophers.Eating(ss[i].pc[p]) && Philosophers.Eating(ss[i].pc[Philosophers.Next(n, p)]))
  {
    hide Joined, EndedAtHalt, Run, P.Run, Philosophers.Eating;
    Philosophers.ProgramWellFormed(n);
    var rs, ps := KernelRunIsProgramRun(Philosophers.Program(n), t, ks, ops, ss, i);
    Philosophers.NeighboursDoNotEatTogether(n, rs, ps, |ps|, p);
  }

  /** A program that can go on has a process that is ready or running. */
  lemma SomebodyReady<M>(sys: P.System<M>, t: Team, k: Kernel, s: P.State<M>) returns (p: nat)
    requires Joined(sys, t, k, s) && EndedAtHalt(sys, t, k, s) && !P.Stuck(sys, s)
    ensures p < |t.pids| && t.pids[p] in k.procs
    ensures k.procs[t.pids[p]].status.Ready? || k.procs[t.pids[p]].status.Running?
  {
    p :| P.Enabled(sys, s, p);
  }

  /** And there is no deadlock: at any time some philosopher is ready or running. */
  lemma NoDeadlockOnKernel(n: nat, t: Team, ks: seq<Kernel>, ops: seq<Op>, ss: seq<P.State<()>>, i: nat) returns (p: nat)
    requires n >= 2 && Plays(Philosophers.Program(n), t, ks, ops, ss) && i < |ks|
    ensures p < |t.pids| && t.pids[p] in ks[i].procs
    ensures ks[i].procs[t.pids[p]].status.Ready? || ks[i].procs[t.pids[p]].status.Running?
  {
    hide Joined, EndedAtHalt, Run, P.Run, P.Stuck;
    var sys := Philosophers.Program(n);
    Philosophers.ProgramWellFormed(n);
    var rs, ps := KernelRunIsProgramRun(sys, t, ks, ops, ss, i);
    JoinedThroughout(sys, t, ks, ops, ss, i);
    Philosophers.NoDeadlock(n, rs, ps, |ps|);
    p := SomebodyReady(sys, t, ks[i], ss[i]);
  }

  /** The message queue on the kernel: never more than its capacity unread. */
  lemma QueueOnKernel(u: MessageQueue.Setup, t: Team, ks: seq<Kernel>, ops: seq<Op>,
                      ss: seq<P.State<MessageQueue.Memory>>, i: nat)
    requires Plays(MessageQueue.Program(u), t, ks, ops, ss) && ss[0].mem == MessageQueue.Fresh(u) && i < |ks|
    ensures MessageQueue.Readable(u, ss[i]) && |MessageQueue.Unread(u, ss[i])| <= u.cap
  {
    hide Joined, EndedAtHalt, Run, P.Run;
    MessageQueue.ProgramWellFormed(u);
    var rs, ps := KernelRunIsProgramRun(MessageQueue.Program(u), t, ks, ops, ss, i);
    MessageQueue.RunIsGood(u, rs, ps, |ps|);
    MessageQueue.WithinCapacity(u, ss[i]);
  }

  /** And first in, first out: a kernel step leaves the program alone, or one of its
      processes appends its message, takes the oldest, or touches neither end. */
  lemma FifoOnKernel(u: MessageQueue.Setup, t: Team, ks: seq<Kernel>, ops: seq<Op>,
                     ss: seq<P.State<MessageQueue.Memory>>, i: nat)
    requires Plays(MessageQueue.Program(u), t, ks, ops, ss) && ss[0].mem == MessageQueue.Fresh(u) && i < |ops|
    ensures MessageQueue.Readable(u, ss[i]) && MessageQueue.Readable(u, ss[i + 1])
    ensures ss[i + 1] == ss[i] ||
              (ks[i].current in t.pids && Mover(t, ks[i]) < |ss[i].pc|
               && MessageQueue.FifoMove(u, ss[i], ss[i + 1], Mover(t, ks[i])))
  {
    hide Joined, EndedAtHalt, Valid, Obeys, Step, P.Run, P.Step, MessageQueue.FifoMove, MessageQueue.Readable;
    var sys, k, s := MessageQueue.Program(u), ks[i], ss[i];
    MessageQueue.ProgramWellFormed(u);
    QueueOnKernel(u, t, ks, ops, ss, i);
    QueueOnKernel(u, t, ks, ops, ss, i + 1);
    var rs, ps := KernelRunIsProgramRun(sys, t, ks, ops, ss, i);
    RunStaysValid(ks, ops, i);
    assert Reached(ks, ops, i + 1);
    assert Plied(sys, t, ks, ops, ss, i);
    InTable(ks[i]);
    StepJoined(sys, t, k, s, ops[i]);
    if Executes(sys, t, k, s, ops[i]) {
      var rs', ps' := RunOn(sys, rs, ps, Mover(t, k));
      MessageQueue.IsBoundedFifo(u, rs', ps', |ps|);
    }
  }

  lemma InTable(k: Kernel)
    requires Valid(k)
    ensures k.current in k.procs
  {
  }

  /** Once all have exited, every message has been sent and read. */
  lemma QueueEmptiedOnKernel(u: MessageQueue.Setup, t: Team, ks: seq<Kernel>, ops: seq<Op>,
                             ss: seq<P.State<MessageQueue.Memory>>, i: nat)
    requires u.cap > 0 && Plays(MessageQueue.Program(u), t, ks, ops, ss) && ss[0].mem == MessageQueue.Fresh(u)
    requires i < |ks| && forall p <- t.pids :: p in ks[i].procs && ks[i].procs[p].status.Dead?
    ensures |ss[i].mem.sent| == u.n * u.m && ss[i].mem.head == ss[i].mem.tail
  {
    hide Joined, EndedAtHalt, Run, P.Run, P.Stuck;
    var sys := MessageQueue.Program(u);
    MessageQueue.ProgramWellFormed(u);
    var rs, ps := KernelRunIsProgramRun(sys, t, ks, ops, ss, i);
    JoinedThroughout(sys, t, ks, ops, ss, i);
    AllExitedIsStuck(sys, t, ks[i], ss[i]);
    MessageQueue.MaximalRunEmptiesQueue(u, rs, ps);
  }
}
