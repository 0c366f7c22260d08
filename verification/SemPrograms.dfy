/** Processes that share memory and semaphores and may be preempted between any
    two of their instructions.  A process is where it is in its (possibly
    endless) list of instructions; the semaphores are the kernel's.  What every
    run keeps is proved here once for all programs. */
module SemPrograms {
  import opened Basics
  import opened Semaphores

  /** `Down` and `Up` are the two semaphore calls, `Act` is a statement on the
      shared memory, and `Halt` is the end of a process. */
  datatype Instr = Down(k: nat) | Up(k: nat) | Act | Halt

  /** `n` processes with their code, what their statements do, and the initial
      values of the semaphores. */
  datatype System<!M> = System(n: nat, code: (nat, nat) -> Instr, act: (nat, nat, M) -> M, init: seq<nat>)

  datatype State<M> = State(pc: seq<nat>, blocked: seq<bool>, sems: seq<Sem>, mem: M)

  ghost predicate WellFormed<M>(sys: System<M>) {
    forall p, i :: sys.code(p, i).Down? || sys.code(p, i).Up? ==> sys.code(p, i).k < |sys.init|
  }

  predicate Shaped<M>(sys: System<M>, s: State<M>) {
    |s.pc| == sys.n && |s.blocked| == sys.n && |s.sems| == |sys.init|
  }

  function Start<M>(sys: System<M>, mem: M): State<M> {
    var sems := seq(|sys.init|, k requires 0 <= k < |sys.init| => NewSem(sys.init[k]));
    State(seq(sys.n, _ => 0), seq(sys.n, _ => false), sems, mem)
  }

  function At<M>(sys: System<M>, s: State<M>, p: nat): Instr
    requires p < |s.pc|
  {
    sys.code(p, s.pc[p])
  }

  predicate Enabled<M>(sys: System<M>, s: State<M>, p: nat)
    requires Shaped(sys, s)
  {
    p < sys.n && !s.blocked[p] && !At(sys, s, p).Halt?
  }

  ghost predicate Stuck<M>(sys: System<M>, s: State<M>)
    requires Shaped(sys, s)
  {
    forall p: nat :: !Enabled(sys, s, p)
  }

  function Advance<M>(s: State<M>, p: nat): State<M>
    requires p < |s.pc| == |s.blocked|
  {
    s.(pc := s.pc[p := s.pc[p] + 1], blocked := s.blocked[p := false])
  }

  function SetSem<M>(s: State<M>, k: nat, sem: Sem): State<M>
    requires k < |s.sems|
  {
    s.(sems := s.sems[k := sem])
  }

  predicate CanStep<M>(sys: System<M>, s: State<M>, p: nat) {
    && Shaped(sys, s) && Enabled(sys, s, p)
    && (At(sys, s, p).Down? || At(sys, s, p).Up? ==> At(sys, s, p).k < |s.sems|)
    && (At(sys, s, p).Up? ==> forall q <- s.sems[At(sys, s, p).k].queue :: q < sys.n)
  }

  /** One instruction of process `p`.  A wait on an empty semaphore queues and
      blocks the process; a signal that finds a waiter hands its unit over, so
      that the waiter is past its wait. */
  function Step<M>(sys: System<M>, s: State<M>, p: nat): (s': State<M>)
    requires CanStep(sys, s, p)
    ensures Shaped(sys, s')
  {
    match At(sys, s, p)
    case Down(k) =>
      var (sem, r) := WaitSem(s.sems[k], p);
      if r.Ok? then Advance(SetSem(s, k, sem), p)
      else SetSem(s, k, sem).(blocked := s.blocked[p := true])
    case Up(k) =>
      var (sem, r) := SignalSem(s.sems[k]);
      if r.Ok? then Advance(SetSem(s, k, sem), p)
      else assert r.pid in s.sems[k].queue; Advance(Advance(SetSem(s, k, sem), r.pid), p)
    case Act => Advance(s.(mem := sys.act(p, s.pc[p], s.mem)), p)
    case Halt => s
  }

  // ---------------------------------------------------------------------------
  // Sums over the processes
  // ---------------------------------------------------------------------------

  function Sum(f: (nat, nat) -> int, pc: seq<nat>): int {
    if pc == [] then 0 else Sum(f, pc[..|pc| - 1]) + f(|pc| - 1, pc[|pc| - 1])
  }

  lemma {:induction false} SumUpdate(f: (nat, nat) -> int, pc: seq<nat>, p: nat, v: nat)
    requires p < |pc|
    ensures Sum(f, pc[p := v]) == Sum(f, pc) - f(p, pc[p]) + f(p, v)
    decreases |pc|
  {
    var n := |pc| - 1;
    if p == n {
      assert pc[p := v][..n] == pc[..n];
    } else {
      assert pc[p := v][..n] == pc[..n][p := v];
      SumUpdate(f, pc[..n], p, v);
    }
  }

  lemma SumTwoMoves(f: (nat, nat) -> int, pc: seq<nat>, r: nat, p: nat)
    requires r < |pc| && p < |pc| && r != p
    ensures Sum(f, pc[r := pc[r] + 1][p := pc[p] + 1])
         == Sum(f, pc) - f(r, pc[r]) + f(r, pc[r] + 1) - f(p, pc[p]) + f(p, pc[p] + 1)
  {
    SumUpdate(f, pc, r, pc[r] + 1);
    SumUpdate(f, pc[r := pc[r] + 1], p, pc[p] + 1);
  }

  lemma {:induction false} SumLe(f: (nat, nat) -> int, g: (nat, nat) -> int, pc: seq<nat>)
    requires forall p :: 0 <= p < |pc| ==> f(p, pc[p]) <= g(p, pc[p])
    ensures Sum(f, pc) <= Sum(g, pc)
    decreases |pc|
  {
    if pc != [] {
      SumLe(f, g, pc[..|pc| - 1]);
    }
  }

  lemma {:induction false} SumLt(f: (nat, nat) -> int, g: (nat, nat) -> int, pc: seq<nat>, q: nat, d: int)
    requires forall p :: 0 <= p < |pc| ==> f(p, pc[p]) <= g(p, pc[p])
    requires q < |pc| && f(q, pc[q]) + d <= g(q, pc[q])
    ensures Sum(f, pc) + d <= Sum(g, pc)
    decreases |pc|
  {
    var n := |pc| - 1;
    if q == n {
      SumLe(f, g, pc[..n]);
    } else {
      SumLt(f, g, pc[..n], q, d);
    }
  }

  lemma {:induction false} SumTwo(f: (nat, nat) -> int, pc: seq<nat>, p: nat, q: nat)
    requires p < q < |pc| && forall i :: 0 <= i < |pc| ==> f(i, pc[i]) >= 0
    ensures Sum(f, pc) >= f(p, pc[p]) + f(q, pc[q])
    decreases |pc|
  {
    var n := |pc| - 1;
    if q < n {
      SumTwo(f, pc[..n], p, q);
    } else {
      SumOne(f, pc[..n], p);
    }
  }

  lemma {:induction false} SumOne(f: (nat, nat) -> int, pc: seq<nat>, p: nat)
    requires p < |pc| && forall i :: 0 <= i < |pc| ==> f(i, pc[i]) >= 0
    ensures Sum(f, pc) >= f(p, pc[p])
    decreases |pc|
  {
    var n := |pc| - 1;
    if p < n {
      SumOne(f, pc[..n], p);
    } else {
      SumConst(f, pc[..n], 0);
    }
  }

  lemma {:induction false} SumConst(f: (nat, nat) -> int, pc: seq<nat>, c: int)
    ensures (forall i :: 0 <= i < |pc| ==> f(i, pc[i]) >= c) ==> Sum(f, pc) >= |pc| * c
    ensures (forall i :: 0 <= i < |pc| ==> f(i, pc[i]) <= c) ==> Sum(f, pc) <= |pc| * c
    decreases |pc|
  {
    if pc != [] {
      var n := |pc| - 1;
      SumConst(f, pc[..n], c);
      assert |pc| * c == n * c + c;
    }
  }

  /** A sum to which only the processes from `lo` to `hi` contribute. */
  lemma {:induction false} SumPart(f: (nat, nat) -> int, pc: seq<nat>, lo: nat, hi: nat, c: int)
    requires lo <= hi <= |pc| && forall i :: 0 <= i < |pc| && !(lo <= i < hi) ==> f(i, pc[i]) == 0
    ensures (forall i :: lo <= i < hi ==> f(i, pc[i]) <= c) ==> Sum(f, pc) <= Times(hi - lo, c)
    ensures (forall i :: lo <= i < hi ==> f(i, pc[i]) >= c) ==> Sum(f, pc) >= Times(hi - lo, c)
    decreases |pc|
  {
    if pc != [] {
      var n := |pc| - 1;
      if hi <= n {
        SumPart(f, pc[..n], lo, hi, c);
      } else if lo <= n {
        SumPart(f, pc[..n], lo, n, c);
      } else {
        SumPart(f, pc[..n], n, n, c);
      }
    }
  }

  function Times(k: nat, c: int): int { if k == 0 then 0 else Times(k - 1, c) + c }

  lemma {:induction false} TimesIs(k: nat, c: int)
    ensures Times(k, c) == k * c
  {
    if k > 0 {
      TimesIs(k - 1, c);
      assert k * c == (k - 1) * c + c;
    }
  }

  lemma {:induction false} SumZero(f: (nat, nat) -> int, n: nat)
    requires forall p: nat :: f(p, 0) == 0
    ensures Sum(f, seq(n, _ => 0)) == 0
  {
    var pc := seq(n, _ => 0);
    if n > 0 {
      assert pc[..n - 1] == seq(n - 1, _ => 0);
      SumZero(f, n - 1);
    }
  }

  // ---------------------------------------------------------------------------
  // Units held
  // ---------------------------------------------------------------------------

  function Weight(i: Instr, k: nat): int {
    if i == Down(k) then 1 else if i == Up(k) then -1 else 0
  }

  /** Waits passed minus signals made on `k` by process `p` in its first `i`
      instructions. */
  function Held<M>(sys: System<M>, k: nat, p: nat, i: nat): int {
    if i == 0 then 0 else Held(sys, k, p, i - 1) + Weight(sys.code(p, i - 1), k)
  }

  function HeldBy<M>(sys: System<M>, k: nat): (nat, nat) -> int {
    (p: nat, i: nat) => Held(sys, k, p, i)
  }

  // ---------------------------------------------------------------------------
  // What every state keeps
  // ---------------------------------------------------------------------------

  /** The queue of `k` holds blocked processes that are at a wait on `k`. */
  ghost predicate QueueOk<M>(sys: System<M>, s: State<M>, k: nat)
    requires Shaped(sys, s) && k < |s.sems|
  {
    && NoDup(s.sems[k].queue)
    && (s.sems[k].count > 0 ==> s.sems[k].queue == [])
    && forall q <- s.sems[k].queue :: q < sys.n && s.blocked[q] && At(sys, s, q) == Down(k)
  }

  /** A blocked process is in the queue of the semaphore it waits on. */
  ghost predicate BlockedOk<M>(sys: System<M>, s: State<M>, p: nat)
    requires Shaped(sys, s) && p < sys.n
  {
    s.blocked[p] ==>
      At(sys, s, p).Down? && At(sys, s, p).k < |s.sems| && p in s.sems[At(sys, s, p).k].queue
  }

  /** The units of `k` that are not in its count are held by the processes. */
  ghost predicate Conserved<M>(sys: System<M>, s: State<M>, k: nat)
    requires Shaped(sys, s) && k < |s.sems|
  {
    s.sems[k].count + Sum(HeldBy(sys, k), s.pc) == sys.init[k]
  }

  ghost predicate Inv<M>(sys: System<M>, s: State<M>) {
    && Shaped(sys, s)
    && (forall k :: 0 <= k < |s.sems| ==> QueueOk(sys, s, k))
    && (forall p :: 0 <= p < sys.n ==> BlockedOk(sys, s, p))
    && (forall k :: 0 <= k < |s.sems| ==> Conserved(sys, s, k))
  }

  lemma StartInv<M>(sys: System<M>, mem: M)
    ensures Inv(sys, Start(sys, mem))
  {
    var s := Start(sys, mem);
    forall k | 0 <= k < |s.sems| ensures Conserved(sys, s, k) {
      SumZero(HeldBy(sys, k), sys.n);
    }
  }

  /** In a good state an enabled process can take its step. */
  lemma EnabledCanStep<M>(sys: System<M>, s: State<M>, p: nat)
    requires WellFormed(sys) && Inv(sys, s) && Enabled(sys, s, p)
    ensures CanStep(sys, s, p)
  {
    if At(sys, s, p).Up? {
      assert QueueOk(sys, s, At(sys, s, p).k);
    }
  }

  lemma AdvanceConserves<M>(sys: System<M>, s: State<M>, p: nat, k: nat)
    requires Shaped(sys, s) && p < sys.n
    ensures Sum(HeldBy(sys, k), s.pc[p := s.pc[p] + 1]) == Sum(HeldBy(sys, k), s.pc) + Weight(At(sys, s, p), k)
  {
    SumUpdate(HeldBy(sys, k), s.pc, p, s.pc[p] + 1);
  }

  /** A step that only moves `p` on, with what it does to a semaphore. */
  lemma MoveInv<M>(sys: System<M>, s: State<M>, p: nat, s': State<M>)
    requires Inv(sys, s) && Enabled(sys, s, p)
    requires s' == Advance(s.(mem := s'.mem, sems := s'.sems), p) && |s'.sems| == |s.sems|
    requires forall k :: 0 <= k < |s.sems| ==>
               && s'.sems[k].queue == s.sems[k].queue
               && s'.sems[k].count == s.sems[k].count - Weight(At(sys, s, p), k)
               && (s'.sems[k].count > 0 ==> s'.sems[k].queue == [])
    ensures Inv(sys, s')
  {
    forall k | 0 <= k < |s'.sems| ensures QueueOk(sys, s', k) && Conserved(sys, s', k) {
      assert QueueOk(sys, s, k) && Conserved(sys, s, k);
      AdvanceConserves(sys, s, p, k);
      assert p !in s.sems[k].queue;
    }
    forall q | 0 <= q < sys.n ensures BlockedOk(sys, s', q) {
      assert BlockedOk(sys, s, q);
    }
  }

  lemma BlockInv<M>(sys: System<M>, s: State<M>, p: nat)
    requires Inv(sys, s) && CanStep(sys, s, p) && At(sys, s, p).Down? && s.sems[At(sys, s, p).k].count == 0
    ensures Inv(sys, Step(sys, s, p))
  {
    var s' := Step(sys, s, p);
    forall k | 0 <= k < |s'.sems| ensures QueueOk(sys, s', k) && Conserved(sys, s', k) {
      assert QueueOk(sys, s, k) && Conserved(sys, s, k);
      assert p !in s.sems[k].queue;
    }
    forall q | 0 <= q < sys.n ensures BlockedOk(sys, s', q) {
      assert BlockedOk(sys, s, q);
    }
  }

  /** What a signal with a waiter does: both sides move on. */
  lemma HandOver<M>(sys: System<M>, s: State<M>, p: nat)
    requires Inv(sys, s) && CanStep(sys, s, p) && At(sys, s, p).Up? && s.sems[At(sys, s, p).k].queue != []
    ensures var i := At(sys, s, p).k;
            var r := s.sems[i].queue[0];
            && r < sys.n && r != p && At(sys, s, r) == Down(i) && s.blocked[r]
            && Step(sys, s, p) == Advance(Advance(SetSem(s, i, s.sems[i].(queue := s.sems[i].queue[1..])), r), p)
            && (forall q :: q in s.sems[i].queue[1..] <==> q in s.sems[i].queue && q != r)
  {
    var i := At(sys, s, p).k;
    var queue := s.sems[i].queue;
    assert QueueOk(sys, s, i);
    assert queue == [queue[0]] + queue[1..] && queue[0] in queue;
  }

  lemma HandOverConserves<M>(sys: System<M>, s: State<M>, p: nat, k: nat)
    requires Inv(sys, s) && CanStep(sys, s, p) && At(sys, s, p).Up? && s.sems[At(sys, s, p).k].queue != []
    requires k < |s.sems|
    ensures Conserved(sys, Step(sys, s, p), k)
  {
    hide Step, Sum;
    HandOver(sys, s, p);
    var r := s.sems[At(sys, s, p).k].queue[0];
    assert Conserved(sys, s, k);
    SumTwoMoves(HeldBy(sys, k), s.pc, r, p);
  }

  lemma HandOverInv<M>(sys: System<M>, s: State<M>, p: nat)
    requires Inv(sys, s) && CanStep(sys, s, p) && At(sys, s, p).Up? && s.sems[At(sys, s, p).k].queue != []
    ensures Inv(sys, Step(sys, s, p))
  {
    var i := At(sys, s, p).k;
    var r := s.sems[i].queue[0];
    HandOver(sys, s, p);
    var s' := Step(sys, s, p);
    forall k | 0 <= k < |s'.sems| ensures QueueOk(sys, s', k) {
      assert QueueOk(sys, s, k);
      assert k != i ==> r !in s.sems[k].queue;
    }
    forall k | 0 <= k < |s'.sems| ensures Conserved(sys, s', k) {
      HandOverConserves(sys, s, p, k);
    }
    forall q | 0 <= q < sys.n ensures BlockedOk(sys, s', q) {
      assert BlockedOk(sys, s, q);
    }
  }

  /** Every step keeps the invariant. */
  lemma StepInv<M>(sys: System<M>, s: State<M>, p: nat)
    requires WellFormed(sys) && Inv(sys, s) && Enabled(sys, s, p)
    ensures CanStep(sys, s, p) && Inv(sys, Step(sys, s, p))
  {
    EnabledCanStep(sys, s, p);
    match At(sys, s, p)
    case Down(k) =>
      assert QueueOk(sys, s, k);
      if s.sems[k].count == 0 {
        BlockInv(sys, s, p);
      } else {
        SameQueues(sys, s, p);
        MoveInv(sys, s, p, Step(sys, s, p));
      }
    case Up(k) =>
      if s.sems[k].queue != [] {
        HandOverInv(sys, s, p);
      } else {
        SameQueues(sys, s, p);
        MoveInv(sys, s, p, Step(sys, s, p));
      }
    case Act =>
      SameQueues(sys, s, p);
      MoveInv(sys, s, p, Step(sys, s, p));
    case Halt =>
  }

  lemma SameQueues<M>(sys: System<M>, s: State<M>, p: nat)
    requires Inv(sys, s) && CanStep(sys, s, p)
    requires At(sys, s, p).Down? ==> s.sems[At(sys, s, p).k].count > 0
    requires At(sys, s, p).Up? ==> s.sems[At(sys, s, p).k].queue == []
    ensures var s' := Step(sys, s, p);
            forall k :: 0 <= k < |s.sems| ==>
              && s'.sems[k].queue == s.sems[k].queue
              && s'.sems[k].count == s.sems[k].count - Weight(At(sys, s, p), k)
              && (s'.sems[k].count > 0 ==> s'.sems[k].queue == [])
  {
    var s' := Step(sys, s, p);
    forall k | 0 <= k < |s.sems|
      ensures s'.sems[k].queue == s.sems[k].queue
      ensures s'.sems[k].count == s.sems[k].count - Weight(At(sys, s, p), k)
      ensures s'.sems[k].count > 0 ==> s'.sems[k].queue == []
    {
      assert QueueOk(sys, s, k);
    }
  }

  // ---------------------------------------------------------------------------
  // Consequences
  // ---------------------------------------------------------------------------

  /** A process that cannot go on has halted or waits on a semaphore with no
      units left. */
  lemma StuckMeans<M>(sys: System<M>, s: State<M>, p: nat)
    requires Inv(sys, s) && Stuck(sys, s) && p < sys.n
    ensures At(sys, s, p).Halt? ||
            (At(sys, s, p).Down? && At(sys, s, p).k < |s.sems| && s.sems[At(sys, s, p).k].count == 0)
  {
    assert !Enabled(sys, s, p);
    assert BlockedOk(sys, s, p);
    if s.blocked[p] {
      assert QueueOk(sys, s, At(sys, s, p).k);
    }
  }

  /** The processes hold no more units than there are. */
  lemma Units<M>(sys: System<M>, s: State<M>, k: nat)
    requires Inv(sys, s) && k < |s.sems|
    ensures s.sems[k].count == sys.init[k] - Sum(HeldBy(sys, k), s.pc)
  {
    assert Conserved(sys, s, k);
  }

  /** A process only moves from an instruction that is not the end, and another
      process than the acting one only from a wait. */
  lemma StepMoves<M>(sys: System<M>, s: State<M>, p: nat, q: nat)
    requires Inv(sys, s) && CanStep(sys, s, p) && q < sys.n
    ensures var s' := Step(sys, s, p);
            || s'.pc[q] == s.pc[q]
            || (s'.pc[q] == s.pc[q] + 1 && if q == p then !At(sys, s, q).Halt? else At(sys, s, q).Down?)
    ensures At(sys, s, p).Act? ==> Step(sys, s, p).pc == s.pc[p := s.pc[p] + 1]
    ensures Step(sys, s, p).mem == if At(sys, s, p).Act? then sys.act(p, s.pc[p], s.mem) else s.mem
  {
    if At(sys, s, p).Up? && s.sems[At(sys, s, p).k].queue != [] {
      HandOver(sys, s, p);
    }
  }

  /** `f` changes only across statements. */
  ghost predicate OnlyActs<M>(sys: System<M>, f: (nat, nat) -> int) {
    forall p: nat, i: nat :: sys.code(p, i).Down? || sys.code(p, i).Up? ==> f(p, i + 1) == f(p, i)
  }

  /** A sum over such an `f` moves only with the statements. */
  lemma StepSum<M>(sys: System<M>, s: State<M>, p: nat, f: (nat, nat) -> int)
    requires Inv(sys, s) && CanStep(sys, s, p) && OnlyActs(sys, f)
    ensures Sum(f, Step(sys, s, p).pc)
         == Sum(f, s.pc) + if At(sys, s, p).Act? then f(p, s.pc[p] + 1) - f(p, s.pc[p]) else 0
  {
    SumUpdate(f, s.pc, p, s.pc[p] + 1);
    if At(sys, s, p).Up? && s.sems[At(sys, s, p).k].queue != [] {
      HandOver(sys, s, p);
      var r := s.sems[At(sys, s, p).k].queue[0];
      assert sys.code(r, s.pc[r]).Down?;
      SumTwoMoves(f, s.pc, r, p);
    }
  }

  // ---------------------------------------------------------------------------
  // Runs
  // ---------------------------------------------------------------------------

  /** `ss` are the states passed through when the processes `ps` step in turn. */
  ghost predicate Run<M>(sys: System<M>, ss: seq<State<M>>, ps: seq<nat>) {
    && |ss| == |ps| + 1
    && ss[0] == Start(sys, ss[0].mem)
    && forall i :: 0 <= i < |ps| ==> Follows(sys, ss, ps, i)
  }

  ghost predicate Follows<M>(sys: System<M>, ss: seq<State<M>>, ps: seq<nat>, i: nat)
    requires i < |ps| && i + 1 < |ss|
  {
    CanStep(sys, ss[i], ps[i]) && ss[i + 1] == Step(sys, ss[i], ps[i])
  }

  lemma {:induction false} RunInv<M>(sys: System<M>, ss: seq<State<M>>, ps: seq<nat>, i: nat)
    requires WellFormed(sys) && Run(sys, ss, ps) && i < |ss|
    ensures Inv(sys, ss[i])
  {
    if i == 0 {
      StartInv(sys, ss[0].mem);
    } else {
      RunInv(sys, ss, ps, i - 1);
      assert Follows(sys, ss, ps, i - 1);
      StepInv(sys, ss[i - 1], ps[i - 1]);
    }
  }

  function Pcs(): (nat, nat) -> int { (p: nat, i: nat) => i }

  function Blocked(b: seq<bool>): nat {
    if b == [] then 0 else Blocked(b[..|b| - 1]) + if b[|b| - 1] then 1 else 0
  }

  lemma {:induction false} BlockedUpdate(b: seq<bool>, p: nat, v: bool)
    requires p < |b|
    ensures Blocked(b[p := v]) == Blocked(b) - (if b[p] then 1 else 0) + if v then 1 else 0
    decreases |b|
  {
    var n := |b| - 1;
    if p == n {
      assert b[p := v][..n] == b[..n];
    } else {
      assert b[p := v][..n] == b[..n][p := v];
      BlockedUpdate(b[..n], p, v);
    }
  }

  lemma {:induction false} BlockedAtMost(b: seq<bool>)
    ensures Blocked(b) <= |b|
  {
    if b != [] {
      BlockedAtMost(b[..|b| - 1]);
    }
  }

  /** Instructions done, a wait that blocked counting for half. */
  function Progress<M>(s: State<M>): int { 2 * Sum(Pcs(), s.pc) + Blocked(s.blocked) }

  lemma AdvanceProgress<M>(s: State<M>, p: nat)
    requires p < |s.pc| == |s.blocked|
    ensures Progress(Advance(s, p)) >= Progress(s) + 1
  {
    SumUpdate(Pcs(), s.pc, p, s.pc[p] + 1);
    BlockedUpdate(s.blocked, p, false);
  }

  lemma StepProgress<M>(sys: System<M>, s: State<M>, p: nat)
    requires CanStep(sys, s, p)
    ensures Progress(Step(sys, s, p)) >= Progress(s) + 1
  {
    match At(sys, s, p)
    case Down(k) =>
      AdvanceProgress(SetSem(s, k, WaitSem(s.sems[k], p).0), p);
      BlockedUpdate(s.blocked, p, true);
    case Up(k) =>
      var s1 := SetSem(s, k, SignalSem(s.sems[k]).0);
      AdvanceProgress(s1, p);
      if s.sems[k].queue != [] {
        var r := s.sems[k].queue[0];
        assert r in s.sems[k].queue;
        AdvanceProgress(s1, r);
        AdvanceProgress(Advance(s1, r), p);
      }
    case Act => AdvanceProgress(s.(mem := sys.act(p, s.pc[p], s.mem)), p);
    case Halt =>
  }

  lemma {:induction false} RunProgress<M>(sys: System<M>, ss: seq<State<M>>, ps: seq<nat>, i: nat)
    requires Run(sys, ss, ps) && i < |ss|
    ensures Progress(ss[i]) >= i
  {
    if i == 0 {
      SumZero(Pcs(), sys.n);
      NobodyBlocked(sys.n);
    } else {
      RunProgress(sys, ss, ps, i - 1);
      assert Follows(sys, ss, ps, i - 1);
      StepProgress(sys, ss[i - 1], ps[i - 1]);
    }
  }

  lemma {:induction false} NobodyBlocked(n: nat)
    ensures Blocked(seq(n, _ => false)) == 0
  {
    if n > 0 {
      assert seq(n, _ => false)[..n - 1] == seq(n - 1, _ => false);
      NobodyBlocked(n - 1);
    }
  }

  /** A run is no longer than what its instructions allow. */
  lemma RunLength<M>(sys: System<M>, ss: seq<State<M>>, ps: seq<nat>)
    requires Run(sys, ss, ps)
    ensures |ps| <= 2 * Sum(Pcs(), ss[|ps|].pc) + sys.n
  {
    RunProgress(sys, ss, ps, |ps|);
    BlockedAtMost(ss[|ps|].blocked);
    if |ps| > 0 {
      assert Follows(sys, ss, ps, |ps| - 1);
    }
  }

  // ---------------------------------------------------------------------------
  // First come, first served
  // ---------------------------------------------------------------------------

  /** A waiter moves up by one with every signal on its semaphore, leaves the
      queue by the signal that finds it in front, and otherwise stays put. */
  lemma WaiterStep<M>(sys: System<M>, s: State<M>, p: nat, k: nat, i: nat)
    requires Inv(sys, s) && CanStep(sys, s, p) && k < |s.sems| && i < |s.sems[k].queue|
    ensures var s' := Step(sys, s, p);
            var q := s.sems[k].queue[i];
            if At(sys, s, p) != Up(k) then i < |s'.sems[k].queue| && s'.sems[k].queue[i] == q
            else if i == 0 then q < sys.n && !s'.blocked[q] && s'.pc[q] == s.pc[q] + 1
            else i - 1 < |s'.sems[k].queue| && s'.sems[k].queue[i - 1] == q
  {
    if At(sys, s, p) == Up(k) {
      HandOver(sys, s, p);
    }
  }

  /** The number of signals on `k` among steps `i` to `j` of a run. */
  function SignalsMade<M>(sys: System<M>, ss: seq<State<M>>, ps: seq<nat>, k: nat, i: nat, j: nat): nat
    requires i <= j <= |ps| <= |ss|
  {
    if i == j then 0
    else
      var here := ps[j - 1] < |ss[j - 1].pc| && At(sys, ss[j - 1], ps[j - 1]) == Up(k);
      SignalsMade(sys, ss, ps, k, i, j - 1) + if here then 1 else 0
  }

  /** From position `pos` of the queue of `k` at state `i`: as long as no more
      than `pos` signals on `k` have been made the waiter is still queued, that
      many places further up. */
  lemma {:induction false} WaiterInRun<M>(
      sys: System<M>, ss: seq<State<M>>, ps: seq<nat>, k: nat, i: nat, j: nat, pos: nat)
    requires WellFormed(sys) && Run(sys, ss, ps) && i <= j <= |ps|
    requires k < |ss[i].sems| && pos < |ss[i].sems[k].queue| && SignalsMade(sys, ss, ps, k, i, j) <= pos
    ensures k < |ss[j].sems|
    ensures var pos' := pos - SignalsMade(sys, ss, ps, k, i, j);
            pos' < |ss[j].sems[k].queue| && ss[j].sems[k].queue[pos'] == ss[i].sems[k].queue[pos]
    decreases j
  {
    if i < j {
      WaiterInRun(sys, ss, ps, k, i, j - 1, pos);
      RunInv(sys, ss, ps, j - 1);
      assert Follows(sys, ss, ps, j - 1);
      WaiterStep(sys, ss[j - 1], ps[j - 1], k, pos - SignalsMade(sys, ss, ps, k, i, j - 1));
    }
  }

  lemma {:induction false} PcsGrow<M>(sys: System<M>, ss: seq<State<M>>, ps: seq<nat>, i: nat, j: nat, q: nat)
    requires WellFormed(sys) && Run(sys, ss, ps) && i <= j < |ss| && q < sys.n
    ensures |ss[i].pc| == |ss[j].pc| == sys.n && ss[i].pc[q] <= ss[j].pc[q]
    decreases j
  {
    RunInv(sys, ss, ps, i);
    RunInv(sys, ss, ps, j);
    if i < j {
      PcsGrow(sys, ss, ps, i, j - 1, q);
      RunInv(sys, ss, ps, j - 1);
      assert Follows(sys, ss, ps, j - 1);
      StepMoves(sys, ss[j - 1], ps[j - 1], q);
    }
  }

  /** A process that is still where it queued up has seen no more signals on
      that semaphore than there were processes in front of it. */
  lemma {:induction false} ServedInOrder<M>(
      sys: System<M>, ss: seq<State<M>>, ps: seq<nat>, k: nat, i: nat, j: nat, pos: nat)
    requires WellFormed(sys) && Run(sys, ss, ps) && i <= j <= |ps| && Shaped(sys, ss[i]) && Shaped(sys, ss[j])
    requires k < |ss[i].sems| && pos < |ss[i].sems[k].queue| && ss[i].sems[k].queue[pos] < sys.n
    requires ss[j].pc[ss[i].sems[k].queue[pos]] == ss[i].pc[ss[i].sems[k].queue[pos]]
    ensures SignalsMade(sys, ss, ps, k, i, j) <= pos
    decreases j
  {
    var q := ss[i].sems[k].queue[pos];
    if i < j {
      PcsGrow(sys, ss, ps, i, j - 1, q);
      PcsGrow(sys, ss, ps, j - 1, j, q);
      RunInv(sys, ss, ps, j - 1);
      ServedInOrder(sys, ss, ps, k, i, j - 1, pos);
      WaiterInRun(sys, ss, ps, k, i, j - 1, pos);
      assert Follows(sys, ss, ps, j - 1);
      WaiterStep(sys, ss[j - 1], ps[j - 1], k, pos - SignalsMade(sys, ss, ps, k, i, j - 1));
    }
  }
}
