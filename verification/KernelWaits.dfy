/** What a semaphore wait means over a whole run of the kernel. */
module KernelWaits {
  import opened Basics
  import opened Kernel
  import opened KernelInvariant
  import opened KernelRefinement
  import opened KernelRuns

  /** If `p` waits anywhere, then on semaphore `id`. */
  ghost predicate OnlyAt(k: Kernel, p: Pid, id: SemId) {
    forall place :: At(k, place, p) ==> place == OnSem(id)
  }

  lemma OnlyAtStays(k: Kernel, op: Op, p: Pid, id: SemId)
    requires Valid(k) && Allowed(k, op) && Step(k, op).Done? && OnlyAt(k, p, id) && p != k.current
    ensures OnlyAt(Step(k, op).k, p, id)
  {
    hide Step, Empties, Hands, Parks;
    forall place | At(Step(k, op).k, place, p) ensures place == OnSem(id) {
      PlacesAfter(k, op, place, p);
    }
  }

  lemma HandsFrom(k: Kernel, op: Op, p: Pid, id: SemId)
    requires k.current in k.procs && k.procs[k.current].data.Some? && OnlyAt(k, p, id) && Hands(k, op, p)
    ensures op.SemSignal? && SemOf(k, op.key) == id
  {
    assert At(k, OnSem(SemOf(k, op.key)), p);
  }

  /** A blocked process that does not wait for an exit keeps its registers, `rax` too,
      and is let go exactly by the signal that hands it its unit. */
  lemma SemWaiterStep(k: Kernel, op: Op, p: Pid, id: SemId)
    requires Valid(k) && Allowed(k, op) && Step(k, op).Done?
    requires p in k.procs && k.procs[p].status.Blocked? && OnlyAt(k, p, id)
    ensures var k' := Step(k, op).k;
            && p in k'.procs && (k'.procs[p].status.Blocked? <==> !Hands(k, op, p))
            && RegsOf(k', p) == RegsOf(k, p) && OnlyAt(k', p, id)
  {
    BlockedAfter(k, op, p);
    OnlyAtStays(k, op, p, id);
    StepTask(k, op, p);
    NotAwaited(k, p, id);
    WaitingTask(MachineOf(k), k.current, op, p);
    assert !At(k, OnExit(k.current), p);
  }

  lemma NotAwaited(k: Kernel, p: Pid, id: SemId)
    requires Valid(k) && OnlyAt(k, p, id)
    ensures p !in WaitersFor(MachineOf(k), k.current)
  {
    assert !At(k, OnExit(k.current), p);
  }

  lemma SemWaiterMoves(ks: seq<Kernel>, ops: seq<Op>, i: nat, p: Pid, id: SemId)
    requires Run(ks, ops) && i < |ops|
    requires p in ks[i].procs && ks[i].procs[p].status.Blocked? && OnlyAt(ks[i], p, id)
    ensures Valid(ks[i]) && p in ks[i + 1].procs && OnlyAt(ks[i + 1], p, id) && RegsOf(ks[i + 1], p) == RegsOf(ks[i], p)
    ensures ks[i + 1].procs[p].status.Blocked? <==> !Hands(ks[i], ops[i], p)
  {
    RunStaysValid(ks, ops, i);
    assert Reached(ks, ops, i + 1);
    SemWaiterStep(ks[i], ops[i], p, id);
  }

  lemma {:induction false} SemWaiterInRun(ks: seq<Kernel>, ops: seq<Op>, i: nat, n: nat, p: Pid, id: SemId)
      returns (j: nat)
    requires Run(ks, ops) && i < n < |ks|
    requires p in ks[i].procs && ks[i].procs[p].status.Blocked? && OnlyAt(ks[i], p, id)
    requires p in ks[n].procs && !ks[n].procs[p].status.Blocked?
    ensures FirstUnblocked(ks, i, j, p) && j <= n && RegsOf(ks[j], p) == RegsOf(ks[i], p)
    ensures Valid(ks[j - 1]) && Hands(ks[j - 1], ops[j - 1], p) && OnlyAt(ks[j - 1], p, id)
    decreases n - i
  {
    hide Valid, Hands, OnlyAt, RegsOf;
    SemWaiterMoves(ks, ops, i, p, id);
    if ks[i + 1].procs[p].status.Blocked? {
      j := SemWaiterInRun(ks, ops, i + 1, n, p, id);
    } else {
      j := i + 1;
    }
  }

  lemma SemWaitParks(k: Kernel, key: nat)
    requires Valid(k) && Allowed(k, SemWait(key)) && Step(k, SemWait(key)).Done?
    ensures var k' := Step(k, SemWait(key)).k;
            && k.current in k'.procs
            && (k'.procs[k.current].status.Blocked? ==>
                  RegsOf(k', k.current) == k.frame && OnlyAt(k', k.current, SemOf(k, key)))
  {
    var op, p := SemWait(key), k.current;
    BlockedAfter(k, op, p);
    StepTask(k, op, p);
    forall place | At(Step(k, op).k, place, p) ensures place == OnSem(SemOf(k, key)) {
      PlacesAfter(k, op, place, p);
    }
  }

  /** A process parked by a semaphore wait at step `i` next gets on, at state `j`,
      exactly by a signal on that semaphore that hands it its unit, and with the very
      registers it called with, `rax` included; in between it was blocked throughout. */
  lemma SemWaitGoesOn(ks: seq<Kernel>, ops: seq<Op>, i: nat, n: nat, key: nat) returns (j: nat)
    requires Run(ks, ops) && i + 1 < n < |ks| && ops[i] == SemWait(key)
    requires ks[i].current in ks[i + 1].procs && ks[i + 1].procs[ks[i].current].status.Blocked?
    requires ks[i].current in ks[n].procs && !ks[n].procs[ks[i].current].status.Blocked?
    ensures FirstUnblocked(ks, i, j, ks[i].current) && j <= n
    ensures Valid(ks[i]) && Valid(ks[j - 1]) && ops[j - 1].SemSignal?
    ensures SemOf(ks[j - 1], ops[j - 1].key) == SemOf(ks[i], key) && Hands(ks[j - 1], ops[j - 1], ks[i].current)
    ensures RegsOf(ks[j], ks[i].current) == ks[i].frame
  {
    var p := ks[i].current;
    RunStaysValid(ks, ops, i);
    assert Reached(ks, ops, i + 1);
    SemWaitParks(ks[i], key);
    var id := SemOf(ks[i], key);
    j := SemWaiterInRun(ks, ops, i + 1, n, p, id);
    HandsFrom(ks[j - 1], ops[j - 1], p, id);
  }
}
