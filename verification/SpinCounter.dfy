/** The `spin` program: the counter of module `Counter` under a spin lock, taken
    by a compare-and-exchange that is tried until it succeeds. */
module SpinCounter {
  import opened Counter

  datatype Spin = Spin(pc: seq<nat>, bolt: bool, mem: Memory)

  predicate Runs(n: nat, rounds: nat, s: Spin, p: nat) {
    |s.pc| == n && p < n && s.pc[p] < 5 * rounds
  }

  /** One instruction of `p`: a failed exchange changes nothing. */
  function SpinStep(n: nat, rounds: nat, s: Spin, p: nat): Spin
    requires Runs(n, rounds, s, p)
  {
    var next := s.(pc := s.pc[p := s.pc[p] + 1]);
    match s.pc[p] % 5
    case 0 => if s.bolt then s else next.(bolt := true)
    case 4 => next.(bolt := false)
    case _ => next.(mem := Statement(p, s.pc[p], s.mem))
  }

  /** 1 for a process between its acquire and its release. */
  function Holding(): (nat, nat) -> int { (p: nat, i: nat) => if Inside(i) then 1 else 0 }

  ghost predicate GoodSpin(n: nat, rounds: nat, s: Spin) {
    && |s.pc| == n && |s.mem.vals| == n
    && SemPrograms.Sum(Holding(), s.pc) == (if s.bolt then 1 else 0)
    && s.mem.counter == SemPrograms.Sum(Stored(), s.pc)
    && (forall p :: 0 <= p < n ==> s.pc[p] <= 5 * rounds)
    && (forall p :: 0 <= p < n ==>
          && (s.pc[p] % 5 == 2 ==> s.mem.vals[p] == s.mem.counter)
          && (s.pc[p] % 5 == 3 ==> s.mem.vals[p] == s.mem.counter + 1))
  }

  lemma OneInside(n: nat, rounds: nat, s: Spin, p: nat, q: nat)
    requires GoodSpin(n, rounds, s) && p < n && q < n && p != q
    ensures !(Inside(s.pc[p]) && Inside(s.pc[q]))
  {
    if p < q {
      SemPrograms.SumTwo(Holding(), s.pc, p, q);
    } else {
      SemPrograms.SumTwo(Holding(), s.pc, q, p);
    }
  }

  lemma SpinSums(n: nat, rounds: nat, s: Spin, p: nat)
    requires GoodSpin(n, rounds, s) && Runs(n, rounds, s, p)
    ensures var s' := SpinStep(n, rounds, s, p);
            && SemPrograms.Sum(Holding(), s'.pc) == (if s'.bolt then 1 else 0)
            && s'.mem.counter == SemPrograms.Sum(Stored(), s'.pc)
  {
    hide SemPrograms.Sum;
    SemPrograms.SumUpdate(Holding(), s.pc, p, s.pc[p] + 1);
    SemPrograms.SumUpdate(Stored(), s.pc, p, s.pc[p] + 1);
    SemPrograms.SumOne(Holding(), s.pc, p);
  }

  lemma SpinStepIsGood(n: nat, rounds: nat, s: Spin, p: nat)
    requires GoodSpin(n, rounds, s) && Runs(n, rounds, s, p)
    ensures GoodSpin(n, rounds, SpinStep(n, rounds, s, p))
  {
    SpinSums(n, rounds, s, p);
    forall q | 0 <= q < n && q != p ensures !(Inside(s.pc[p]) && Inside(s.pc[q])) {
      OneInside(n, rounds, s, p, q);
    }
  }

  /** The states a schedule `ps` leads through. */
  ghost predicate SpinRun(n: nat, rounds: nat, ss: seq<Spin>, ps: seq<nat>) {
    && |ss| == |ps| + 1
    && ss[0] == Spin(seq(n, _ => 0), false, Memory(0, seq(n, _ => 0)))
    && forall i :: 0 <= i < |ps| ==> SpinFollows(n, rounds, ss, ps, i)
  }

  ghost predicate SpinFollows(n: nat, rounds: nat, ss: seq<Spin>, ps: seq<nat>, i: nat)
    requires i < |ps| && i + 1 < |ss|
  {
    Runs(n, rounds, ss[i], ps[i]) && ss[i + 1] == SpinStep(n, rounds, ss[i], ps[i])
  }

  lemma {:induction false} SpinRunIsGood(n: nat, rounds: nat, ss: seq<Spin>, ps: seq<nat>, i: nat)
    requires SpinRun(n, rounds, ss, ps) && i < |ss|
    ensures GoodSpin(n, rounds, ss[i])
  {
    if i == 0 {
      SemPrograms.SumZero(Stored(), n);
      SemPrograms.SumZero(Holding(), n);
    } else {
      SpinRunIsGood(n, rounds, ss, ps, i - 1);
      assert SpinFollows(n, rounds, ss, ps, i - 1);
      SpinStepIsGood(n, rounds, ss[i - 1], ps[i - 1]);
    }
  }

  /** The lock excludes: in no reachable state are two processes inside. */
  lemma LockExcludes(n: nat, rounds: nat, ss: seq<Spin>, ps: seq<nat>, i: nat, p: nat, q: nat)
    requires SpinRun(n, rounds, ss, ps) && i < |ss| && p < n && q < n && p != q
    ensures |ss[i].pc| == n && !(Inside(ss[i].pc[p]) && Inside(ss[i].pc[q]))
  {
    SpinRunIsGood(n, rounds, ss, ps, i);
    OneInside(n, rounds, ss[i], p, q);
  }

  lemma HolderIsInside(n: nat, rounds: nat, s: Spin) returns (q: nat)
    requires GoodSpin(n, rounds, s) && s.bolt
    ensures q < n && Inside(s.pc[q])
  {
    hide SemPrograms.Sum;
    if forall p :: 0 <= p < n ==> !Inside(s.pc[p]) {
      SemPrograms.SumConst(Holding(), s.pc, 0);
    }
    q :| 0 <= q < n && Inside(s.pc[q]);
  }

  /** Who is inside, or finds the lock free, moves on. */
  lemma MovesOn(n: nat, rounds: nat, s: Spin, p: nat)
    requires |s.pc| == n && p < n && s.pc[p] <= 5 * rounds
    requires Inside(s.pc[p]) || (!s.bolt && s.pc[p] < 5 * rounds)
    ensures Runs(n, rounds, s, p) && SpinStep(n, rounds, s, p).pc != s.pc
  {
    assert s.pc[p := s.pc[p] + 1][p] != s.pc[p];
  }

  /** While anybody is unfinished, some process has a step that is not a failed
      exchange: the processes never all spin. */
  lemma SomebodyMoves(n: nat, rounds: nat, ss: seq<Spin>, ps: seq<nat>, i: nat, p: nat)
    requires SpinRun(n, rounds, ss, ps) && i < |ss| && Runs(n, rounds, ss[i], p)
    ensures exists q :: Runs(n, rounds, ss[i], q) && SpinStep(n, rounds, ss[i], q).pc != ss[i].pc
  {
    hide SpinStep, SemPrograms.Sum;
    SpinRunIsGood(n, rounds, ss, ps, i);
    var q := p;
    if ss[i].bolt {
      q := HolderIsInside(n, rounds, ss[i]);
    }
    MovesOn(n, rounds, ss[i], q);
  }

  /** Once everybody has finished no increment is missing. */
  lemma SpinCountsAll(n: nat, rounds: nat, ss: seq<Spin>, ps: seq<nat>)
    requires SpinRun(n, rounds, ss, ps)
    requires forall p :: !Runs(n, rounds, ss[|ps|], p)
    ensures ss[|ps|].mem.counter == n * rounds && !ss[|ps|].bolt
  {
    var s := ss[|ps|];
    SpinRunIsGood(n, rounds, ss, ps, |ps|);
    forall p | 0 <= p < n ensures s.pc[p] == 5 * rounds {
      assert !Runs(n, rounds, s, p);
    }
    SemPrograms.SumConst(Stored(), s.pc, rounds);
    SemPrograms.SumConst(Holding(), s.pc, 0);
  }

  /** How many of the first `i` steps did some work: all but the failed exchanges. */
  function Worked(ss: seq<Spin>, i: nat): nat
    requires i < |ss|
  {
    if i == 0 then 0 else Worked(ss, i - 1) + if ss[i].pc != ss[i - 1].pc then 1 else 0
  }

  lemma StepWorks(n: nat, rounds: nat, s: Spin, p: nat)
    requires Runs(n, rounds, s, p)
    ensures var pc := SpinStep(n, rounds, s, p).pc;
            SemPrograms.Sum(SemPrograms.Pcs(), pc) == SemPrograms.Sum(SemPrograms.Pcs(), s.pc) + if pc != s.pc then 1 else 0
  {
    hide SemPrograms.Sum;
    SemPrograms.SumUpdate(SemPrograms.Pcs(), s.pc, p, s.pc[p] + 1);
    assert s.pc[p := s.pc[p] + 1][p] != s.pc[p];
  }

  lemma {:induction false} WorkedIs(n: nat, rounds: nat, ss: seq<Spin>, ps: seq<nat>, i: nat)
    requires SpinRun(n, rounds, ss, ps) && i < |ss|
    ensures Worked(ss, i) == SemPrograms.Sum(SemPrograms.Pcs(), ss[i].pc)
  {
    hide SpinStep, SemPrograms.Sum;
    if i == 0 {
      SemPrograms.SumZero(SemPrograms.Pcs(), n);
    } else {
      WorkedIs(n, rounds, ss, ps, i - 1);
      assert SpinFollows(n, rounds, ss, ps, i - 1);
      StepWorks(n, rounds, ss[i - 1], ps[i - 1]);
    }
  }

  lemma Unfinished(n: nat, rounds: nat, s: Spin, p: nat)
    requires GoodSpin(n, rounds, s) && Runs(n, rounds, s, p)
    ensures SemPrograms.Sum(SemPrograms.Pcs(), s.pc) < n * (5 * rounds)
  {
    hide SemPrograms.Sum;
    var last := (q: nat, i: nat) => 5 * rounds;
    SemPrograms.SumLt(SemPrograms.Pcs(), last, s.pc, p, 1);
    SemPrograms.SumConst(last, s.pc, 5 * rounds);
  }

  /** Whatever the schedule, at most five steps for each round of each process do any
      work, and exactly so many once all have finished; all others are failed exchanges. */
  lemma WorkIsFinite(n: nat, rounds: nat, ss: seq<Spin>, ps: seq<nat>)
    requires SpinRun(n, rounds, ss, ps)
    ensures Worked(ss, |ps|) <= n * (5 * rounds)
    ensures Worked(ss, |ps|) == n * (5 * rounds) <==> forall p :: !Runs(n, rounds, ss[|ps|], p)
  {
    hide SpinStep, SemPrograms.Sum;
    var s := ss[|ps|];
    WorkedIs(n, rounds, ss, ps, |ps|);
    SpinRunIsGood(n, rounds, ss, ps, |ps|);
    SemPrograms.SumConst(SemPrograms.Pcs(), s.pc, 5 * rounds);
    if p :| Runs(n, rounds, s, p) {
      Unfinished(n, rounds, s, p);
    } else {
      forall p | 0 <= p < n ensures s.pc[p] == 5 * rounds {
        assert !Runs(n, rounds, s, p);
      }
    }
  }
}
