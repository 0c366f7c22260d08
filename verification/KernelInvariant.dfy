/** What every reachable state of the process manager satisfies. */
module KernelInvariant {
  import opened Basics
  import opened Semaphores
  import opened Kernel

  /** The places where a blocked process can be waiting. */
  datatype Place = OnExit(pid: Pid) | OnSem(id: SemId)

  ghost predicate At(k: Kernel, place: Place, pid: Pid) {
    match place
    case OnExit(q) => q in k.waiting && pid in k.waiting[q]
    case OnSem(id) => id in k.sems && pid in k.sems[id].queue
  }

  ghost predicate Ascending(s: seq<Pid>) {
    forall i, j :: 0 <= i < j < |s| ==> s[i] < s[j]
  }

  /** A killed process has an exit code and no resources; any other has
      resources and no exit code. */
  predicate WellFormed(p: Proc) {
    && (p.status.Dead? <==> p.exitCode.Some?)
    && (p.status.Dead? <==> p.data.None?)
    && (p.status.Dead? <==> p.stackMin.None?)
  }

  ghost predicate TableOk(k: Kernel, running: set<Pid>) {
    && KERNEL_PID in k.procs
    && (k.procs[KERNEL_PID].status.Running? || k.procs[KERNEL_PID].status.Ready?)
    && (forall p <- k.procs :: p <= k.lastPid)
    && (forall p <- k.procs :: WellFormed(k.procs[p]))
    && (forall p <- k.procs :: k.procs[p].status.Running? <==> p in running)
  }

  ghost predicate QueueOk(k: Kernel) {
    && NoDup(k.ready)
    && (forall p :: p in k.ready <==> p in k.procs && k.procs[p].status.Ready?)
  }

  ghost predicate PlacesOk(k: Kernel) {
    && (forall q <- k.waiting :: Alive(k, q) && Ascending(k.waiting[q]))
    && (forall id <- k.sems :: NoDup(k.sems[id].queue) && (k.sems[id].count > 0 ==> k.sems[id].queue == []))
    && (forall place, p :: At(k, place, p) ==> p in k.procs && k.procs[p].status.Blocked?)
    && (forall id, p :: At(k, OnSem(id), p) ==> k.procs[p].data == Some(id.family))
    && (forall a, b, p :: At(k, a, p) && At(k, b, p) ==> a == b)
  }

  ghost predicate Inv(k: Kernel, running: set<Pid>) {
    TableOk(k, running) && QueueOk(k) && PlacesOk(k)
  }

  /** Between steps: exactly the current process is running. */
  ghost predicate Valid(k: Kernel) {
    k.current in k.procs && Inv(k, {k.current})
  }

  lemma BootIsValid(k: Kernel)
    requires Booted(k)
    ensures Valid(k)
  {
  }

  // ---------------------------------------------------------------------------
  // Picking the next process
  // ---------------------------------------------------------------------------

  /** With nobody running and the invariant in place, `switch_next` takes the
      head of the queue at once, and never finds the queue empty. */
  lemma DispatchHead(k: Kernel)
    requires Inv(k, {})
    ensures k.ready != []
    ensures SwitchNext(k) == Done(Dispatched(k, 0))
    ensures Valid(Dispatched(k, 0))
  {
    assert KERNEL_PID in k.ready;
    assert k.ready[0] in k.ready;
    var k' := Dispatched(k, 0);
    assert k.ready == [k.ready[0]] + k.ready[1..];
    assert k'.ready == k.ready[1..];
    forall p ensures p in k'.ready <==> p in k'.procs && k'.procs[p].status.Ready? {
      assert p in k.ready <==> p == k.ready[0] || p in k.ready[1..];
    }
    forall place, p | At(k', place, p) ensures At(k, place, p) {}
  }

  // ---------------------------------------------------------------------------
  // Putting the current process aside
  // ---------------------------------------------------------------------------

  lemma PreemptSettles(k: Kernel)
    requires Valid(k)
    ensures Inv(PushReady(SaveCurrent(k), k.current), {})
  {
    var k' := PushReady(SaveCurrent(k), k.current);
    forall place, p | At(k', place, p) ensures At(k, place, p) {}
  }

  lemma ForkQueues(k: Kernel, childMin: nat)
    requires Valid(k)
    ensures QueueOk(Forked(k, childMin))
  {
    hide PlacesOk;
    var k' := Forked(k, childMin);
    assert k'.ready == k.ready + [k.lastPid + 1, k.current];
    NoDupAppend(k.ready, [k.lastPid + 1, k.current]);
  }

  lemma ForkSettles(k: Kernel, childMin: nat)
    requires Valid(k) && k.current != KERNEL_PID
    ensures Inv(Forked(k, childMin), {})
  {
    ForkQueues(k, childMin);
    hide QueueOk;
    forall place, p | At(Forked(k, childMin), place, p) ensures At(k, place, p) {}
  }

  lemma AscendingFrom(x: Pid, s: seq<Pid>)
    requires Ascending(s) && forall i :: 0 <= i < |s| ==> x < s[i]
    ensures Ascending([x] + s)
    ensures forall p :: p in [x] + s <==> p == x || p in s
  {
  }

  lemma {:induction false} InsertIs(s: seq<Pid>, pid: Pid)
    requires Ascending(s)
    ensures Ascending(Insert(s, pid))
    ensures forall p :: p in Insert(s, pid) <==> p in s || p == pid
  {
    if s == [] || pid < s[0] {
      AscendingFrom(pid, s);
    } else if pid > s[0] {
      assert s == [s[0]] + s[1..];
      InsertIs(s[1..], pid);
      var r := Insert(s[1..], pid);
      hide Ascending, Insert;
      forall i | 0 <= i < |r| ensures s[0] < r[i] {
        assert r[i] in r;
        AfterFirst(s, r[i]);
      }
      AscendingFrom(s[0], r);
    }
  }

  lemma AfterFirst(s: seq<Pid>, p: Pid)
    requires Ascending(s) && s != []
    ensures p in s[1..] ==> s[0] < p
  {
  }

  lemma WaitSettles(k: Kernel, pid: Pid)
    requires Valid(k) && k.current != KERNEL_PID && Alive(k, pid)
    ensures Inv(AddWaiting(BlockProc(SaveCurrent(k), k.current), pid), {})
  {
    var k' := AddWaiting(BlockProc(SaveCurrent(k), k.current), pid);
    InsertIs(WaitersOf(k, pid), k.current);
    forall place, p | At(k', place, p)
      ensures At(k, place, p) || (p == k.current && place == OnExit(pid))
    {}
    forall place | At(k, place, k.current) ensures false {}
  }

  lemma SemBlockPlaces(k: Kernel, id: SemId, k': Kernel)
    requires Valid(k) && k.current != KERNEL_PID
    requires id in k.sems && k.sems[id].count == 0 && k.procs[k.current].data == Some(id.family)
    requires k' == BlockProc(SaveCurrent(k.(sems := k.sems[id := WaitSem(k.sems[id], k.current).0])), k.current)
    ensures PlacesOk(k')
  {
    hide QueueOk;
    assert !At(k, OnSem(id), k.current);
    forall place, p | At(k', place, p)
      ensures At(k, place, p) || (p == k.current && place == OnSem(id))
    {}
    forall place | At(k, place, k.current) ensures false {}
  }

  lemma SemBlockSettles(k: Kernel, id: SemId)
    requires Valid(k) && k.current != KERNEL_PID
    requires id in k.sems && k.sems[id].count == 0 && k.procs[k.current].data == Some(id.family)
    ensures Inv(BlockProc(SaveCurrent(k.(sems := k.sems[id := WaitSem(k.sems[id], k.current).0])), k.current), {})
  {
    hide PlacesOk;
    SemBlockPlaces(k, id, BlockProc(SaveCurrent(k.(sems := k.sems[id := WaitSem(k.sems[id], k.current).0])), k.current));
  }

  /** The table after everybody in `pids` has been given `ret` and made ready. */
  function Woken(procs: map<Pid, Proc>, pids: seq<Pid>, ret: Code): map<Pid, Proc> {
    map p | p in procs ::
      if p in pids then procs[p].(status := Ready, context := procs[p].context.(rax := AsWord(ret)))
      else procs[p]
  }

  lemma {:induction false} WakeEachIs(k: Kernel, pids: seq<Pid>, ret: Code)
    requires NoDup(pids) && forall p <- pids :: p in k.procs
    ensures WakeEach(k, pids, ret)
         == k.(procs := Woken(k.procs, pids, ret), ready := k.ready + pids)
    decreases |pids|
  {
    if pids == [] {
      assert Woken(k.procs, pids, ret) == k.procs;
      assert k.ready + pids == k.ready;
    } else {
      var k' := Deliver(k, pids[0], ret);
      WakeEachIs(k', pids[1..], ret);
      assert pids == [pids[0]] + pids[1..];
      assert k'.ready + pids[1..] == k.ready + pids;
      assert Woken(k'.procs, pids[1..], ret) == Woken(k.procs, pids, ret);
    }
  }

  /** `wake_waiting` does what it is meant to do. */
  ghost predicate Delivers(k: Kernel, code: Code)
    requires forall p <- WaitersOf(k, k.current) :: p in k.procs
  {
    WakeWaiting(k, code) == k.(
      procs := Woken(k.procs, WaitersOf(k, k.current), code),
      ready := k.ready + WaitersOf(k, k.current),
      waiting := k.waiting - {k.current})
  }

  lemma WakeWaitingIs(k: Kernel, ret: Code)
    requires Valid(k)
    ensures forall p <- WaitersOf(k, k.current) :: p in k.procs && k.procs[p].status.Blocked?
    ensures Delivers(k, ret)
  {
    var pids := WaitersOf(k, k.current);
    forall p | p in pids ensures p in k.procs && k.procs[p].status.Blocked? {
      assert At(k, OnExit(k.current), p);
    }
    if k.current in k.waiting {
      assert Ascending(pids);
      WakeEachIs(k.(waiting := k.waiting - {k.current}), pids, ret);
    } else {
      assert Woken(k.procs, pids, ret) == k.procs;
      assert k.ready + pids == k.ready;
      assert k.waiting - {k.current} == k.waiting;
    }
  }

  /** The current process of a valid state has its data and its memory. */
  lemma CurrentHas(k: Kernel)
    requires Valid(k)
    ensures k.current in k.procs && k.procs[k.current].data.Some? && k.procs[k.current].stackMin.Some?
    ensures k.procs[k.current].status.Running?
  {
  }

  /** The state after an exit, before the next process is picked. */
  function Exited(k: Kernel, code: Code): Kernel
    requires k.current in k.procs
  {
    var pids := WaitersOf(k, k.current);
    k.(procs := Woken(k.procs, pids, code)[k.current := Killed(k.procs[k.current], code)],
       ready := k.ready + pids,
       waiting := k.waiting - {k.current})
  }

  lemma ExitedIs(k: Kernel, code: Code)
    requires Valid(k)
    ensures forall p <- WaitersOf(k, k.current) :: p in k.procs && k.procs[p].status.Blocked?
    ensures Kill(WakeWaiting(k, code), k.current, code) == Exited(k, code)
  {
    WakeWaitingIs(k, code);
    assert k.current !in WaitersOf(k, k.current);
    assert Woken(k.procs, WaitersOf(k, k.current), code)[k.current] == k.procs[k.current];
  }

  lemma ExitQueues(k: Kernel, code: Code)
    requires Valid(k) && forall p <- WaitersOf(k, k.current) :: p in k.procs && k.procs[p].status.Blocked?
    ensures QueueOk(Exited(k, code))
  {
    var pids := WaitersOf(k, k.current);
    assert NoDup(pids) by {
      assert k.current in k.waiting ==> Ascending(pids);
    }
    hide PlacesOk;
    NoDupAppend(k.ready, pids);
  }

  lemma ExitPlaces(k: Kernel, code: Code)
    requires Valid(k) && forall p <- WaitersOf(k, k.current) :: p in k.procs && k.procs[p].status.Blocked?
    ensures PlacesOk(Exited(k, code))
  {
    hide QueueOk;
    var k' := Exited(k, code);
    var pids := WaitersOf(k, k.current);
    forall p | p in pids ensures At(k, OnExit(k.current), p) {}
    forall place, p | At(k', place, p) ensures At(k, place, p) && p !in pids && p != k.current {
      assert At(k, place, p);
    }
  }

  lemma ExitSettles(k: Kernel, code: Code)
    requires Valid(k) && k.current != KERNEL_PID
    requires forall p <- WaitersOf(k, k.current) :: p in k.procs
    ensures Inv(Kill(WakeWaiting(k, code), k.current, code), {})
  {
    hide QueueOk, PlacesOk, WakeWaiting, Kill;
    ExitedIs(k, code);
    ExitQueues(k, code);
    ExitPlaces(k, code);
  }

  lemma HandOffPlaces(k: Kernel, k': Kernel, id: SemId, q: seq<Pid>)
    requires Valid(k) && id in k.sems && q == k.sems[id].queue && q != [] && q[0] in k.procs
    requires k' == Wake(k.(sems := k.sems[id := k.sems[id].(queue := q[1..])]), q[0])
    ensures PlacesOk(k')
  {
    hide QueueOk;
    assert q == [q[0]] + q[1..];
    assert At(k, OnSem(id), q[0]);
    forall place, p | At(k', place, p) ensures At(k, place, p) && p != q[0] {
      assert At(k, place, p);
    }
  }

  lemma HandOffKeeps(k: Kernel, id: SemId)
    requires Valid(k) && id in k.sems && k.sems[id].queue != []
    ensures var (s, r) := SignalSem(k.sems[id]);
            r.pid in k.procs && Valid(Wake(k.(sems := k.sems[id := s]), r.pid))
  {
    var q := k.sems[id].queue;
    assert At(k, OnSem(id), q[0]);
    hide PlacesOk;
    HandOffPlaces(k, Wake(k.(sems := k.sems[id := SignalSem(k.sems[id]).0]), q[0]), id, q);
    NoDupAppend(k.ready, [q[0]]);
  }

  lemma SignalKeeps(k: Kernel, id: SemId)
    requires Valid(k) && id in k.sems
    ensures var (s, r) := SignalSem(k.sems[id]);
            var k' := k.(sems := k.sems[id := s]);
            if r.Ok? then Valid(k') else r.pid in k.procs && Valid(Wake(k', r.pid))
  {
    if k.sems[id].queue == [] {
      FewerWaiters(k, k.(sems := k.sems[id := SignalSem(k.sems[id]).0]));
    } else {
      HandOffKeeps(k, id);
    }
  }

  // ---------------------------------------------------------------------------
  // The shape of a step
  // ---------------------------------------------------------------------------

  function SemOf(k: Kernel, key: nat): SemId
    requires k.current in k.procs && k.procs[k.current].data.Some?
  {
    SemId(k.procs[k.current].data.value, key)
  }

  /** The operations that end in `switch_next`. */
  predicate Switches(k: Kernel, op: Op)
    requires k.current in k.procs && k.procs[k.current].data.Some?
  {
    || op.Tick? || op.Fork? || op.Exit?
    || (op.WaitPid? && Alive(k, op.pid))
    || (op.SemWait? && SemOf(k, op.key) in k.sems && k.sems[SemOf(k, op.key)].count == 0)
  }

  /** The state in which `switch_next` is called. */
  function Settled(k: Kernel, op: Op): Kernel
    requires k.current in k.procs && k.procs[k.current].data.Some? && Switches(k, op)
    requires forall p <- WaitersOf(k, k.current) :: p in k.procs
  {
    match op
    case Fork(childMin) => Forked(k, childMin)
    case Exit(code) => Kill(WakeWaiting(k, code), k.current, code)
    case WaitPid(pid) => AddWaiting(BlockProc(SaveCurrent(k), k.current), pid)
    case SemWait(key) =>
      var id := SemOf(k, key);
      BlockProc(SaveCurrent(k.(sems := k.sems[id := WaitSem(k.sems[id], k.current).0])), k.current)
    case _ => PushReady(SaveCurrent(k), k.current)
  }

  lemma SettledKeeps(k: Kernel, op: Op)
    requires Valid(k) && Allowed(k, op) && Switches(k, op)
    ensures forall p <- WaitersOf(k, k.current) :: p in k.procs
    ensures Inv(Settled(k, op), {})
  {
    WakeWaitingIs(k, 0);
    match op
    case Fork(childMin) => ForkSettles(k, childMin);
    case Exit(code) => ExitSettles(k, code);
    case WaitPid(pid) => WaitSettles(k, pid);
    case SemWait(key) => SemBlockSettles(k, SemOf(k, key));
    case _ => PreemptSettles(k);
  }

  lemma StepIsSwitch(k: Kernel, op: Op)
    requires k.current in k.procs && k.procs[k.current].data.Some? && k.procs[k.current].stackMin.Some?
    requires forall p <- WaitersOf(k, k.current) :: p in k.procs
    requires Switches(k, op)
    ensures Step(k, op) == SwitchNext(Settled(k, op))
  {
  }

  lemma StepShape(k: Kernel, op: Op)
    requires Valid(k) && Allowed(k, op) && Switches(k, op)
    ensures forall p <- WaitersOf(k, k.current) :: p in k.procs
    ensures Inv(Settled(k, op), {}) && Settled(k, op).ready != []
    ensures Step(k, op) == Done(Dispatched(Settled(k, op), 0))
  {
    SettledKeeps(k, op);
    StepIsSwitch(k, op);
    DispatchHead(Settled(k, op));
  }

  // ---------------------------------------------------------------------------
  // Every step
  // ---------------------------------------------------------------------------

  /** A step from a valid state either reaches a valid state or crashes, and it
      crashes exactly when `wait_pid` names a pid that was never allocated. */
  lemma StepKeepsValid(k: Kernel, op: Op)
    requires Valid(k) && Allowed(k, op)
    ensures Step(k, op).Crash? <==> op.WaitPid? && op.pid !in k.procs
    ensures Step(k, op).Done? ==> Valid(Step(k, op).k)
  {
    if Switches(k, op) {
      StepShape(k, op);
      DispatchHead(Settled(k, op));
    } else {
      DirectKeepsValid(k, op);
    }
  }

  lemma SpawnKeeps(k: Kernel, entry: Context, stackMin: nat)
    requires Valid(k)
    ensures Valid(SpawnStep(k, entry, stackMin))
  {
    var k' := SpawnStep(k, entry, stackMin);
    NoDupAppend(k.ready, [k.lastPid + 1]);
    forall place, p | At(k', place, p) ensures At(k, place, p) {}
  }

  lemma SignalStepKeeps(k: Kernel, key: nat)
    requires Valid(k)
    ensures SemSignalStep(k, key).Done? && Valid(SemSignalStep(k, key).k)
  {
    hide Inv, Wake;
    CurrentHas(k);
    var id := SemOf(k, key);
    if id !in k.sems {
      SameButFrame(k, SetRax(k, 1));
    } else {
      SignalKeeps(k, id);
      if k.sems[id].queue == [] {
        SameButFrame(k.(sems := k.sems[id := SignalSem(k.sems[id]).0]), SemSignalStep(k, key).k);
      }
    }
  }

  lemma DirectKeepsValid(k: Kernel, op: Op)
    requires Valid(k) && Allowed(k, op) && !Switches(k, op)
    ensures Step(k, op).Crash? <==> op.WaitPid? && op.pid !in k.procs
    ensures Step(k, op).Done? ==> Valid(Step(k, op).k)
  {
    hide SemSignalStep, SpawnStep;
    match op
    case WaitPid(pid) =>
      if pid in k.procs {
        SameButFrame(k, SetRax(k, AsWord(k.procs[pid].exitCode.value)));
      }
    case SemSignal(key) => SignalStepKeeps(k, key);
    case Spawn(entry, stackMin) => SpawnKeeps(k, entry, stackMin);
    case Tick | Fork(_) | Exit(_) =>
    case _ => FewerWaiters(k, Step(k, op).k);
  }

  lemma SameButFrame(k: Kernel, k': Kernel)
    requires Valid(k) && k' == k.(frame := k'.frame)
    ensures Valid(k')
  {
    forall place, p | At(k', place, p) ensures At(k, place, p) {}
  }

  /** Replacing or dropping a semaphore leaves its waiters nowhere. */
  lemma FewerWaiters(k: Kernel, k': Kernel)
    requires Valid(k) && k' == k.(frame := k'.frame, sems := k'.sems)
    requires forall id <- k'.sems :: (id in k.sems && k'.sems[id] == k.sems[id]) || k'.sems[id].queue == []
    ensures Valid(k')
  {
    forall place, p | At(k', place, p) ensures At(k, place, p) {}
  }

  // ---------------------------------------------------------------------------
  // Who waits where after a step
  // ---------------------------------------------------------------------------

  /** `pid` is the process that the signal `op` hands its unit to. */
  ghost predicate Hands(k: Kernel, op: Op, pid: Pid)
    requires k.current in k.procs && k.procs[k.current].data.Some?
  {
    && op.SemSignal? && SemOf(k, op.key) in k.sems
    && k.sems[SemOf(k, op.key)].queue != [] && k.sems[SemOf(k, op.key)].queue[0] == pid
  }

  /** `op` makes the current process wait at `place`. */
  ghost predicate Parks(k: Kernel, op: Op, place: Place)
    requires k.current in k.procs && k.procs[k.current].data.Some?
  {
    && Switches(k, op)
    && ((op.WaitPid? && place == OnExit(op.pid)) || (op.SemWait? && place == OnSem(SemOf(k, op.key))))
  }

  /** `op` empties `place`: an exit its wait set, a re-creation or removal its queue. */
  ghost predicate Empties(k: Kernel, op: Op, place: Place)
    requires k.current in k.procs && k.procs[k.current].data.Some?
  {
    || (op.Exit? && place == OnExit(k.current))
    || ((op.NewSemaphore? || op.RemoveSemaphore?) && place == OnSem(SemOf(k, op.key)))
  }

  lemma PlacesSettled(k: Kernel, op: Op, place: Place, pid: Pid)
    requires k.current in k.procs && k.procs[k.current].data.Some? && Switches(k, op)
    requires forall p <- WaitersOf(k, k.current) :: p in k.procs
    requires forall q <- k.waiting :: Ascending(k.waiting[q])
    requires op.Exit? ==> Delivers(k, op.code)
    ensures At(Settled(k, op), place, pid) <==>
              || (At(k, place, pid) && !Empties(k, op, place))
              || (Parks(k, op, place) && pid == k.current)
  {
    if op.WaitPid? {
      InsertIs(WaitersOf(k, op.pid), k.current);
    }
  }

  lemma PlacesSignalled(k: Kernel, key: nat, place: Place, pid: Pid)
    requires Valid(k) && SemOf(k, key) in k.sems && k.sems[SemOf(k, key)].queue != []
    requires Step(k, SemSignal(key)).Done?
    ensures At(Step(k, SemSignal(key)).k, place, pid) <==> At(k, place, pid) && !Hands(k, SemSignal(key), pid)
  {
    var id := SemOf(k, key);
    var q := k.sems[id].queue;
    assert q == [q[0]] + q[1..];
    assert At(k, OnSem(id), q[0]);
    if place == OnSem(id) {
      assert At(Step(k, SemSignal(key)).k, place, pid) <==> pid in q[1..];
    } else {
      assert At(Step(k, SemSignal(key)).k, place, pid) <==> At(k, place, pid);
    }
  }

  lemma PlacesDirect(k: Kernel, op: Op, place: Place, pid: Pid)
    requires k.current in k.procs && k.procs[k.current].data.Some? && Step(k, op).Done? && !Switches(k, op)
    requires op.SemSignal? && SemOf(k, op.key) in k.sems ==> k.sems[SemOf(k, op.key)].queue == []
    ensures At(Step(k, op).k, place, pid) <==> At(k, place, pid) && !Empties(k, op, place)
  {
  }

  /** A switch moves nobody from where they wait. */
  lemma PlacesSwitched(k: Kernel, op: Op, place: Place, pid: Pid)
    requires Valid(k) && Allowed(k, op) && Switches(k, op)
    ensures Step(k, op).Done? && (forall p <- WaitersOf(k, k.current) :: p in k.procs)
    ensures At(Step(k, op).k, place, pid) <==> At(Settled(k, op), place, pid)
    ensures (forall q <- k.waiting :: Ascending(k.waiting[q])) && (op.Exit? ==> Delivers(k, op.code))
  {
    hide Step, Settled, Delivers;
    StepShape(k, op);
    WakeWaitingIs(k, if op.Exit? then op.code else 0);
  }

  /** Exactly who waits where after a step. */
  lemma PlacesAfter(k: Kernel, op: Op, place: Place, pid: Pid)
    requires Valid(k) && Allowed(k, op) && Step(k, op).Done?
    ensures At(Step(k, op).k, place, pid) <==>
              || (At(k, place, pid) && !Empties(k, op, place) && !Hands(k, op, pid))
              || (Parks(k, op, place) && pid == k.current)
  {
    hide Valid, Step, Settled, At;
    CurrentHas(k);
    if Switches(k, op) {
      PlacesSwitched(k, op, place, pid);
      PlacesSettled(k, op, place, pid);
    } else if op.SemSignal? && SemOf(k, op.key) in k.sems && k.sems[SemOf(k, op.key)].queue != [] {
      PlacesSignalled(k, op.key, place, pid);
    } else {
      PlacesDirect(k, op, place, pid);
    }
  }

  lemma BlockedSettled(k: Kernel, op: Op, pid: Pid)
    requires Valid(k) && Switches(k, op) && pid in k.procs
    requires forall p <- WaitersOf(k, k.current) :: p in k.procs
    ensures pid in Settled(k, op).procs
    ensures Settled(k, op).procs[pid].status.Blocked? <==>
              || (k.procs[pid].status.Blocked? && !(op.Exit? && At(k, OnExit(k.current), pid)))
              || (pid == k.current && (op.WaitPid? || op.SemWait?))
  {
    if op.Exit? {
      WakeWaitingIs(k, op.code);
    }
  }

  /** A blocked process stops being blocked only by being handed a unit or by
      the exit it waits for; only a parked process becomes blocked. */
  lemma BlockedAfter(k: Kernel, op: Op, pid: Pid)
    requires Valid(k) && Allowed(k, op) && Step(k, op).Done? && pid in k.procs
    ensures pid in Step(k, op).k.procs
    ensures Step(k, op).k.procs[pid].status.Blocked? <==>
              || (k.procs[pid].status.Blocked? && !Hands(k, op, pid) && !(op.Exit? && At(k, OnExit(k.current), pid)))
              || (pid == k.current && Switches(k, op) && (op.WaitPid? || op.SemWait?))
  {
    if Switches(k, op) {
      StepShape(k, op);
      BlockedSettled(k, op, pid);
      assert Settled(k, op).ready[0] in Settled(k, op).ready;
    } else if op.SemSignal? && SemOf(k, op.key) in k.sems && k.sems[SemOf(k, op.key)].queue != [] {
      assert At(k, OnSem(SemOf(k, op.key)), k.sems[SemOf(k, op.key)].queue[0]);
    }
  }

  /** Blocked, but in no wait set and no semaphore queue: nothing will wake it. */
  ghost predicate Orphan(k: Kernel, pid: Pid) {
    && pid in k.procs && k.procs[pid].status.Blocked?
    && forall place :: !At(k, place, pid)
  }

  /** A process becomes an orphan exactly when the semaphore it waits on is
      re-created or removed under it, and it stays one for ever. */
  lemma OrphansExactly(k: Kernel, op: Op, pid: Pid)
    requires Valid(k) && Allowed(k, op) && Step(k, op).Done? && pid in k.procs
    ensures Orphan(Step(k, op).k, pid) <==>
              || Orphan(k, pid)
              || ((op.NewSemaphore? || op.RemoveSemaphore?) && At(k, OnSem(SemOf(k, op.key)), pid))
  {
    hide Step, Inv;
    WaitsBlocked(k, pid);
    CurrentHas(k);
    var k' := Step(k, op).k;
    BlockedAfter(k, op, pid);
    forall place ensures At(k', place, pid) <==>
                           || (At(k, place, pid) && !Empties(k, op, place) && !Hands(k, op, pid))
                           || (Parks(k, op, place) && pid == k.current)
    {
      PlacesAfter(k, op, place, pid);
    }
    if Hands(k, op, pid) {
      assert At(k, OnSem(SemOf(k, op.key)), pid);
    }
    if pid == k.current && Switches(k, op) && (op.WaitPid? || op.SemWait?) {
      assert Parks(k, op, if op.WaitPid? then OnExit(op.pid) else OnSem(SemOf(k, op.key)));
    }
  }

  /** Who waits is blocked, and in one place. */
  lemma WaitsBlocked(k: Kernel, pid: Pid)
    requires Valid(k) && pid in k.procs
    ensures forall place :: At(k, place, pid) ==> k.procs[pid].status.Blocked?
    ensures forall a, b :: At(k, a, pid) && At(k, b, pid) ==> a == b
  {
  }
}
