/** Processes and their memory together: the steps of the kernel with those of one fork
    family, where a fork takes the child's stack from where the memory put it, and the
    users of the page table are counted. */
module KernelMemory {
  import opened Basics
  import opened Frames
  import opened Paging
  import opened Ownership
  import opened Kernel
  import opened KernelInvariant
  import opened KernelRefinement
  import opened KernelRuns
  import F = Families
  import Stacks
  import FamilyRuns
  import Loader

  datatype World = World(k: Kernel, v: F.Family, users: nat)

  /** Steps of the family's processes that touch its memory, and all others. */
  datatype WorldOp =
    | ForkHere
    | ExitHere(code: Code, debug: bool, tables: seq<Table>)
    | TouchHere(touch: F.FamilyOp, regs: Context)
    | Elsewhere(op: Op, others: seq<MemOp>)

  /** A live process of family `f`. */
  predicate Member(k: Kernel, f: Pid, p: Pid) {
    p in k.procs && !k.procs[p].status.Dead? && k.procs[p].data == Some(f)
  }

  /** The memory's side of a fork: as many slots down as there will be children. */
  function ForkOf(k: Kernel): F.FamilyOp
    requires k.current in k.procs
  {
    F.Fork(k.current, k.lastPid + 1, |k.procs[k.current].children| + 1)
  }

  predicate Can(w: World, f: Pid, space: Space, op: WorldOp) {
    w.k.current in w.k.procs &&
    match op
    case ForkHere => Member(w.k, f, w.k.current) && w.k.current != KERNEL_PID && F.Allowed(w.v, space, ForkOf(w.k))
    case ExitHere(code, debug, tables) =>
      && Member(w.k, f, w.k.current) && w.k.current != KERNEL_PID
      && F.Allowed(w.v, space, F.Exit(w.k.current, debug, tables))
    case TouchHere(fop, _) =>
      && Member(w.k, f, w.k.current) && F.Allowed(w.v, space, fop)
      && (fop.Brk? || (fop.Fault? && fop.pid == w.k.current))
    case Elsewhere(kop, others) =>
      && Allowed(w.k, kop) && F.Allowed(w.v, space, F.Others(others))
      && (Member(w.k, f, w.k.current) ==> !kop.Fork? && !kop.Exit?)
  }

  /** Where the child's stack begins. */
  function ChildMin(v: F.Family, child: Pid): nat
    requires child in v.live
  {
    v.live[child].start * PAGE_SIZE
  }

  /** What the step is for the memory, and given that for the kernel. */
  function MemoryOp(w: World, op: WorldOp): F.FamilyOp
    requires w.k.current in w.k.procs
  {
    match op
    case ForkHere => ForkOf(w.k)
    case ExitHere(_, debug, tables) => F.Exit(w.k.current, debug, tables)
    case TouchHere(fop, _) => fop
    case Elsewhere(_, others) => F.Others(others)
  }

  function KernelOp(w: World, v': F.Family, op: WorldOp): Op {
    match op
    case ForkHere => Fork(if w.k.lastPid + 1 in v'.live then ChildMin(v', w.k.lastPid + 1) else 0)
    case ExitHere(code, _, _) => Exit(code)
    case TouchHere(_, regs) => User(regs)
    case Elsewhere(kop, _) => kop
  }

  function Counted(users: nat, op: WorldOp): nat {
    if op.ForkHere? then users + 1 else if op.ExitHere? && users > 0 then users - 1 else users
  }

  /** One step of both; `None` is the kernel stopping. */
  function Next(w: World, f: Pid, space: Space, op: WorldOp): Option<World>
    requires Can(w, f, space, op)
  {
    var v := F.Step(w.v, space, MemoryOp(w, op));
    if v.None? then None
    else
      match Step(w.k, KernelOp(w, v.value, op))
      case Crash => None
      case Done(k) => Some(World(k, v.value, Counted(w.users, op)))
  }

  /** Both are in order, the family's memory is that of its live processes, and the page
      table has so many users. */
  ghost predicate Together(w: World, f: Pid, space: Space, claims: F.Claims) {
    && Valid(w.k) && F.Accounted(w.v, space, claims)
    && f == w.v.loader <= w.k.lastPid && w.users == |w.v.live|
    && forall p :: p in w.v.live <==> Member(w.k, f, p)
  }

  // ---------------------------------------------------------------------------
  // Who belongs to a family after a step
  // ---------------------------------------------------------------------------

  predicate InFamily(m: Machine, f: Pid, q: Pid) { q in m.tasks && m.tasks[q].Live? && m.tasks[q].family == f }

  lemma FamilyAfter(m: Machine, p: Pid, op: Op, f: Pid, q: Pid)
    requires CanStep(m, p, op) && forall x <- m.tasks :: x <= m.lastPid
    ensures InFamily(MachineStep(m, p, op), f, q) <==>
              || (InFamily(m, f, q) && !(q == p && op.Exit?))
              || (op.Fork? && q == m.lastPid + 1 && InFamily(m, f, p))
              || (op.Spawn? && q == f == m.lastPid + 1)
  {
  }

  lemma MembersAfter(k: Kernel, op: Op, f: Pid, q: Pid)
    requires Valid(k) && Allowed(k, op) && Step(k, op).Done?
    ensures Member(Step(k, op).k, f, q) <==>
              || (Member(k, f, q) && !(q == k.current && op.Exit?))
              || (op.Fork? && q == k.lastPid + 1 && Member(k, f, k.current))
              || (op.Spawn? && q == f == k.lastPid + 1)
  {
    hide Step, MachineStep;
    StepTask(k, op, q);
    FamilyAfter(MachineOf(k), k.current, op, f, q);
  }

  // ---------------------------------------------------------------------------
  // Every step
  // ---------------------------------------------------------------------------

  lemma LiveAfter(v: F.Family, space: Space, op: F.FamilyOp)
    requires F.Allowed(v, space, op) && F.Step(v, space, op).Some?
    ensures var live := F.Step(v, space, op).value.live;
            live.Keys == if op.Fork? then v.live.Keys + {op.child} else if op.Exit? then v.live.Keys - {op.pid} else v.live.Keys
    ensures F.Step(v, space, op).value.loader == v.loader
  {
  }

  lemma CountAfter(keys: set<Pid>, p: Pid)
    ensures p !in keys ==> |keys + {p}| == |keys| + 1
    ensures p in keys ==> |keys - {p}| == |keys| - 1
  {
  }

  lemma AllowedToo(w: World, f: Pid, space: Space, op: WorldOp, v: F.Family)
    requires Can(w, f, space, op)
    ensures w.k.current in w.k.procs && F.Allowed(w.v, space, MemoryOp(w, op)) && Allowed(w.k, KernelOp(w, v, op))
  {
  }

  /** The two sides agree on who is alive. */
  lemma SameLive(w: World, f: Pid, space: Space, claims: F.Claims, op: WorldOp, v: F.Family, kop: Op, p: Pid)
    requires Together(w, f, space, claims) && Can(w, f, space, op) && F.Allowed(w.v, space, MemoryOp(w, op))
    requires F.Step(w.v, space, MemoryOp(w, op)) == Some(v) && kop == KernelOp(w, v, op)
    requires Allowed(w.k, kop) && Step(w.k, kop).Done?
    ensures p in v.live <==> Member(Step(w.k, kop).k, f, p)
  {
    hide Valid, Step, F.Step, F.Allowed, F.Accounted;
    LiveAfter(w.v, space, MemoryOp(w, op));
    MembersAfter(w.k, kop, f, p);
  }

  lemma WhoCounts(w: World, f: Pid, space: Space, claims: F.Claims, op: WorldOp)
    requires Together(w, f, space, claims) && Can(w, f, space, op)
    ensures w.k.current in w.k.procs && w.users == |w.v.live.Keys| && w.k.lastPid + 1 !in w.v.live
    ensures op.ForkHere? || op.ExitHere? ==> w.k.current in w.v.live
    ensures var m := MemoryOp(w, op);
            if op.ForkHere? then m.Fork? && m.child == w.k.lastPid + 1
            else if op.ExitHere? then m.Exit? && m.pid == w.k.current else !m.Fork? && !m.Exit?
  {
    hide Valid, F.Accounted, F.Allowed;
    PidsKnown(w.k);
    assert |w.v.live| == |w.v.live.Keys|;
  }

  lemma SameCount(w: World, f: Pid, space: Space, claims: F.Claims, op: WorldOp, v: F.Family)
    requires Together(w, f, space, claims) && Can(w, f, space, op) && F.Allowed(w.v, space, MemoryOp(w, op))
    requires F.Step(w.v, space, MemoryOp(w, op)) == Some(v)
    ensures Counted(w.users, op) == |v.live| && v.loader == w.v.loader
  {
    hide F.Step, F.Allowed, Together, Can, MemoryOp;
    WhoCounts(w, f, space, claims, op);
    LiveAfter(w.v, space, MemoryOp(w, op));
    CountAfter(w.v.live.Keys, w.k.current);
    CountAfter(w.v.live.Keys, w.k.lastPid + 1);
    assert |v.live| == |v.live.Keys|;
  }

  /** The accounts of both stay right through every step, and the users of the page table
      stay exactly the live members of the family. */
  lemma StepTogether(w: World, f: Pid, space: Space, claims: F.Claims, op: WorldOp) returns (claims': F.Claims)
    requires Together(w, f, space, claims) && Can(w, f, space, op) && Next(w, f, space, op).Some?
    ensures Together(Next(w, f, space, op).value, f, space, claims')
    ensures F.LooseOf(claims') == F.LooseOf(claims) + F.Gap(w.v, space, MemoryOp(w, op))
  {
    hide Valid, Step, F.Step, F.Allowed, F.Accounted, F.Gap, F.LooseOf, Member, MemoryOp, KernelOp, Counted, Can;
    AllowedToo(w, f, space, op, w.v);
    var v := F.Step(w.v, space, MemoryOp(w, op)).value;
    AllowedToo(w, f, space, op, v);
    var kop := KernelOp(w, v, op);
    claims' := F.StepAccounted(w.v, space, claims, MemoryOp(w, op));
    StepKeepsValid(w.k, kop);
    forall p ensures p in v.live <==> Member(Step(w.k, kop).k, f, p) {
      SameLive(w, f, space, claims, op, v, kop, p);
    }
    SameCount(w, f, space, claims, op, v);
    PidsGrow(w.k, kop);
  }

  lemma PidsGrow(k: Kernel, op: Op)
    requires Valid(k) && Allowed(k, op) && Step(k, op).Done?
    ensures k.lastPid <= Step(k, op).k.lastPid && forall p <- k.procs :: p <= k.lastPid
  {
    hide Step, MachineStep;
    StepTask(k, op, k.current);
    TasksGrow(MachineOf(k), k.current, op, k.current);
  }

  /** A member can always call fork, and is the last exactly if the table has one user. */
  lemma MembersMay(w: World, f: Pid, space: Space, claims: F.Claims)
    requires Together(w, f, space, claims) && Member(w.k, f, w.k.current)
    ensures F.Allowed(w.v, space, ForkOf(w.k))
    ensures w.users == 1 <==> w.v.live - {w.k.current} == map[]
  {
    var p, live := w.k.current, w.v.live;
    assert p in live;
    assert !Member(w.k, f, w.k.lastPid + 1);
    CountAfter(live.Keys, p);
    assert (live - {p}).Keys == live.Keys - {p};
    assert live - {p} == map[] <==> live.Keys - {p} == {};
    assert |live| == |live.Keys|;
  }

  // ---------------------------------------------------------------------------
  // What a fork gives the child
  // ---------------------------------------------------------------------------

  lemma ForkRegisters(k: Kernel, childMin: nat)
    requires Valid(k) && k.current != KERNEL_PID
    ensures Step(k, Fork(childMin)).Done? && k.lastPid + 1 in Step(k, Fork(childMin)).k.procs
    ensures RegsOf(Step(k, Fork(childMin)).k, k.lastPid + 1).sp == ChildSp(k.frame.sp, childMin)
    ensures Step(k, Fork(childMin)).k.procs[k.lastPid + 1].stackMin == Some(childMin)
  {
    hide Valid, Step, SwitchNext;
    CurrentHas(k);
    StepKeepsValid(k, Fork(childMin));
    StepTask(k, Fork(childMin), k.lastPid + 1);
    ForkedTask(k, childMin);
    ForkedStack(k, childMin);
  }

  lemma ForkedTask(k: Kernel, childMin: nat)
    requires Valid(k) && CanStep(MachineOf(k), k.current, Fork(childMin))
    ensures var t := MachineStep(MachineOf(k), k.current, Fork(childMin)).tasks;
            k.lastPid + 1 in t && t[k.lastPid + 1].Live? && t[k.lastPid + 1].regs.sp == ChildSp(k.frame.sp, childMin)
  {
  }

  lemma ForkedStack(k: Kernel, childMin: nat)
    requires Valid(k) && k.current != KERNEL_PID && Step(k, Fork(childMin)).Done?
    requires k.lastPid + 1 in Step(k, Fork(childMin)).k.procs
    ensures Step(k, Fork(childMin)).k.procs[k.lastPid + 1].stackMin == Some(childMin)
  {
    hide Step;
    StepShape(k, Fork(childMin));
  }

  /** The child's stack is in a slot that no other member has, the kernel knows where, and
      the child's stack pointer lies in it where the parent's lies in its own. */
  lemma ForkPlaces(w: World, f: Pid, space: Space, claims: F.Claims)
    requires Together(w, f, space, claims) && Can(w, f, space, ForkHere) && Next(w, f, space, ForkHere).Some?
    ensures var w', p, child := Next(w, f, space, ForkHere).value, w.k.current, w.k.lastPid + 1;
            && p in w.v.live && child in w'.v.live && child in w'.k.procs
            && w'.k.procs[child].stackMin == Some(ChildMin(w'.v, child))
            && (Stacks.OnStack(w.v.live[p], w.k.frame.sp) ==>
                  RegsOf(w'.k, child).sp + (w.v.live[p].start - w'.v.live[child].start) * PAGE_SIZE == w.k.frame.sp)
            && forall q <- w.v.live :: w'.v.live[child].end != w.v.live[q].end
  {
    hide Valid, Step, F.Step, F.Accounted, F.Allowed, Stacks.OnStack, RegsOf;
    var p, child := w.k.current, w.k.lastPid + 1;
    PidsKnown(w.k);
    var v := F.Step(w.v, space, ForkOf(w.k)).value;
    StackForked(w.v, space, claims, p, child, |w.k.procs[p].children| + 1, w.k.frame.sp);
    ForkRegisters(w.k, ChildMin(v, child));
  }

  /** With frames enough for every attempt, a fork stops the kernel exactly if there is no
      room in any slot further below the caller's than the number of its children; else the
      child's stack is in the first of these that has room, as the caller's is in its own. */
  lemma ForkLands(w: World, f: Pid, space: Space, claims: F.Claims, n: nat)
    requires Together(w, f, space, claims) && Can(w, f, space, ForkHere)
    requires w.k.current in w.v.live
    requires var s := w.v.live[w.k.current]; Available(w.v.mem.pool) >= Stacks.FramesFor(s.usage, s.start, 0)
    ensures var s, born := w.v.live[w.k.current], |w.k.procs[w.k.current].children|;
            && (Next(w, f, space, ForkHere) == None <==>
                  forall k :: born + 1 <= k ==> !Stacks.RoomBelow(w.v.mem, space, s, k))
            && (born + 1 <= n && Stacks.RoomBelow(w.v.mem, space, s, n)
                && (forall k :: born + 1 <= k < n ==> !Stacks.RoomBelow(w.v.mem, space, s, k)) ==>
                  && Next(w, f, space, ForkHere).Some?
                  && var live := Next(w, f, space, ForkHere).value.v.live;
                     && w.k.lastPid + 1 in live
                     && live[w.k.lastPid + 1] ==
                          Stacks.Stack(s.start - n * Stacks.SLOT_PAGES, s.end - n * Stacks.SLOT_PAGES, s.usage))
  {
    hide Valid, Step, F.Accounted, Stacks.ForkStack, Stacks.RoomBelow, Member;
    var p := w.k.current;
    var s := w.v.live[p];
    F.StackMapped(w.v, space, claims, p);
    Stacks.ForkFinds(w.v.mem, space, s, |w.k.procs[p].children| + 1, n);
    var v := F.Step(w.v, space, ForkOf(w.k));
    if v.Some? {
      StepKeepsValid(w.k, KernelOp(w, v.value, ForkHere));
    }
  }

  /** The memory's side of it. */
  lemma StackForked(v: F.Family, space: Space, claims: F.Claims, p: Pid, child: Pid, slots: nat, sp: nat)
    requires F.Accounted(v, space, claims) && F.Allowed(v, space, F.Fork(p, child, slots))
    requires F.Step(v, space, F.Fork(p, child, slots)).Some?
    ensures var v' := F.Step(v, space, F.Fork(p, child, slots)).value;
            && child in v'.live
            && (Stacks.OnStack(v.live[p], sp) ==>
                  ChildSp(sp, ChildMin(v', child)) + (v.live[p].start - v'.live[child].start) * PAGE_SIZE == sp)
            && forall q <- v.live :: v'.live[child].end != v.live[q].end
  {
    hide Stacks.ForkStack, Stacks.OnStack, ChildSp, F.LooseOf, F.Gap;
    var op := F.Fork(p, child, slots);
    var v' := F.Step(v, space, op).value;
    Stacks.ForkIsSafe(v.mem, space, v.live[p], slots);
    if Stacks.OnStack(v.live[p], sp) {
      Stacks.ChildStackPointer(v.live[p], v'.live[child], sp);
    }
    var claims' := F.StepAccounted(v, space, claims, op);
    forall q | q in v.live ensures v'.live[child].end != v.live[q].end {
      assert v'.live[q] == v.live[q];
      F.DistinctSlots(v', space, claims', q, child);
    }
  }

  lemma PidsKnown(k: Kernel)
    requires Valid(k)
    ensures forall p <- k.procs :: p <= k.lastPid
  {
  }

  // ---------------------------------------------------------------------------
  // From spawning on
  // ---------------------------------------------------------------------------

  /** Families are named by pids that have been handed out. */
  ghost predicate Known(k: Kernel) { forall f: Pid, p: Pid :: Member(k, f, p) ==> f <= k.lastPid }

  lemma KnownStays(k: Kernel, op: Op)
    requires Valid(k) && Known(k) && Allowed(k, op) && Step(k, op).Done?
    ensures Known(Step(k, op).k)
  {
    hide Valid, Step;
    PidsGrow(k, op);
    SpawnCounts(k, op);
    CurrentHas(k);
    var k' := Step(k, op).k;
    forall f: Pid, p: Pid | Member(k', f, p) ensures f <= k'.lastPid {
      MembersAfter(k, op, f, p);
    }
  }

  lemma SpawnCounts(k: Kernel, op: Op)
    requires Valid(k) && Allowed(k, op) && Step(k, op).Done?
    ensures op.Spawn? ==> Step(k, op).k.lastPid == k.lastPid + 1
  {
  }

  /** A spawned program begins a family of one, in a space of its own. */
  lemma SpawnTogether(k: Kernel, entry: Context, image: Loader.Image, space: Space,
                      segs: seq<Loader.Segment>, file: Loader.Elf, o: Owners)
      returns (w: World, claims: F.Claims)
    requires Valid(k) && Known(k) && Owned(image.mem, o) && Loader.AllLoadable(segs, file)
    requires F.SpacePages(image.mem, space) == {} && FamilyRuns.Start(image, space, k.lastPid + 1, segs, file).Some?
    ensures var v := FamilyRuns.Start(image, space, k.lastPid + 1, segs, file).value;
            && k.lastPid + 1 in v.live
            && w == World(SpawnStep(k, entry, ChildMin(v, k.lastPid + 1)), v, 1)
            && Together(w, k.lastPid + 1, space, claims)
  {
    hide Valid, SpawnStep, F.Accounted, Owned, FamilyRuns.Start;
    var pid := k.lastPid + 1;
    var v := FamilyRuns.Start(image, space, pid, segs, file).value;
    var o';
    claims, o' := FamilyRuns.StartAccounted(image, space, pid, segs, file, o);
    var op := Spawn(entry, ChildMin(v, pid));
    w := World(SpawnStep(k, entry, ChildMin(v, pid)), v, 1);
    StepKeepsValid(k, op);
    SpawnCounts(k, op);
    forall q ensures q in v.live <==> Member(w.k, pid, q) {
      MembersAfter(k, op, pid, q);
    }
    assert |v.live| == |v.live.Keys|;
  }

  /** The states that kernel and family pass through together. */
  ghost predicate Worlds(ws: seq<World>, ops: seq<WorldOp>, f: Pid, space: Space) {
    |ws| == |ops| + 1 && forall i :: 0 <= i < |ops| ==> WorldFollows(ws, ops, f, space, i)
  }

  ghost predicate WorldFollows(ws: seq<World>, ops: seq<WorldOp>, f: Pid, space: Space, i: nat)
    requires i + 1 < |ws| && i < |ops|
  {
    Can(ws[i], f, space, ops[i]) && Next(ws[i], f, space, ops[i]) == Some(ws[i + 1])
  }

  /** In every state of every run: the kernel is valid, every page of the family has one
      holder, its memory is that of its live processes, and the users of its page table
      are counted right. */
  lemma {:induction false} AlwaysTogether(
      ws: seq<World>, ops: seq<WorldOp>, f: Pid, space: Space, claims: F.Claims, i: nat) returns (claims': F.Claims)
    requires Worlds(ws, ops, f, space) && Together(ws[0], f, space, claims) && i < |ws|
    ensures Together(ws[i], f, space, claims')
  {
    hide Together, Can, Next;
    claims' := claims;
    if i > 0 {
      claims' := AlwaysTogether(ws, ops, f, space, claims, i - 1);
      assert WorldFollows(ws, ops, f, space, i - 1);
      claims' := StepTogether(ws[i - 1], f, space, claims', ops[i - 1]);
    }
  }
}
