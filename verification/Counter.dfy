/** The `sem` program: `n` processes each add one to a shared counter `rounds`
    times, by a load, an addition and a store that can be interrupted anywhere,
    under one semaphore. */
module Counter {
  import opened SemPrograms

  /** The shared counter and each process's own copy of it. */
  datatype Memory = Memory(counter: int, vals: seq<int>)

  function Body(j: nat): Instr {
    if j == 0 then Down(0) else if j == 4 then Up(0) else Act
  }

  function Code(rounds: nat, i: nat): Instr {
    if i < 5 * rounds then Body(i % 5) else Halt
  }

  /** Load, add, store. */
  function Statement(p: nat, i: nat, m: Memory): Memory {
    if p >= |m.vals| then m
    else if i % 5 == 1 then m.(vals := m.vals[p := m.counter])
    else if i % 5 == 2 then m.(vals := m.vals[p := m.vals[p] + 1])
    else m.(counter := m.vals[p])
  }

  function Program(n: nat, rounds: nat): System<Memory> {
    System(n, (p: nat, i: nat) => Code(rounds, i), Statement, [1])
  }

  lemma ProgramWellFormed(n: nat, rounds: nat)
    ensures WellFormed(Program(n, rounds))
  {
    var sys := Program(n, rounds);
    forall p, i ensures sys.code(p, i).Down? || sys.code(p, i).Up? ==> sys.code(p, i).k < |sys.init| {
      assert sys.code(p, i) == Code(rounds, i);
    }
  }

  /** Increments completed in the first `i` instructions. */
  function Stored(): (nat, nat) -> int { (p: nat, i: nat) => (i + 1) / 5 }

  lemma {:induction false} HeldIs(n: nat, rounds: nat, p: nat, i: nat)
    requires i <= 5 * rounds
    ensures Held(Program(n, rounds), 0, p, i) == if i % 5 == 0 then 0 else 1
  {
    if i > 0 {
      HeldIs(n, rounds, p, i - 1);
      assert Program(n, rounds).code(p, i - 1) == Code(rounds, i - 1);
    }
  }

  predicate Inside(i: nat) { i % 5 != 0 }

  ghost predicate Good(n: nat, rounds: nat, s: State<Memory>) {
    && Inv(Program(n, rounds), s)
    && |s.mem.vals| == n
    && (forall p :: 0 <= p < n ==> s.pc[p] <= 5 * rounds)
    && s.mem.counter == Sum(Stored(), s.pc)
    && (forall p :: 0 <= p < n ==>
          && (s.pc[p] % 5 == 2 ==> s.mem.vals[p] == s.mem.counter)
          && (s.pc[p] % 5 == 3 ==> s.mem.vals[p] == s.mem.counter + 1))
  }

  lemma HeldHere(n: nat, rounds: nat, s: State<Memory>)
    requires Good(n, rounds, s)
    ensures forall p :: 0 <= p < n ==> HeldBy(Program(n, rounds), 0)(p, s.pc[p]) == if Inside(s.pc[p]) then 1 else 0
  {
    forall p | 0 <= p < n
      ensures HeldBy(Program(n, rounds), 0)(p, s.pc[p]) == if Inside(s.pc[p]) then 1 else 0
    {
      HeldIs(n, rounds, p, s.pc[p]);
    }
  }

  lemma OneInside(n: nat, rounds: nat, s: State<Memory>, p: nat, q: nat)
    requires Good(n, rounds, s) && p < n && q < n && p != q
    ensures !(Inside(s.pc[p]) && Inside(s.pc[q]))
  {
    HeldHere(n, rounds, s);
    Units(Program(n, rounds), s, 0);
    if p < q {
      SumTwo(HeldBy(Program(n, rounds), 0), s.pc, p, q);
    } else {
      SumTwo(HeldBy(Program(n, rounds), 0), s.pc, q, p);
    }
  }

  lemma StoredOnlyActs(n: nat, rounds: nat)
    ensures OnlyActs(Program(n, rounds), Stored())
  {
    var sys := Program(n, rounds);
    forall p: nat, i: nat | sys.code(p, i).Down? || sys.code(p, i).Up?
      ensures Stored()(p, i + 1) == Stored()(p, i)
    {
      assert sys.code(p, i) == Code(rounds, i);
    }
  }

  /** The copies stay right: only the process inside changes anything. */
  lemma CopyStep(n: nat, rounds: nat, s: State<Memory>, p: nat, q: nat)
    requires Good(n, rounds, s) && CanStep(Program(n, rounds), s, p) && q < n
    ensures var s' := Step(Program(n, rounds), s, p);
            && |s'.mem.vals| == n
            && s'.pc[q] <= 5 * rounds
            && (s'.pc[q] % 5 == 2 ==> s'.mem.vals[q] == s'.mem.counter)
            && (s'.pc[q] % 5 == 3 ==> s'.mem.vals[q] == s'.mem.counter + 1)
  {
    var sys := Program(n, rounds);
    StepMoves(sys, s, p, q);
    assert At(sys, s, p) == Code(rounds, s.pc[p]) && At(sys, s, q) == Code(rounds, s.pc[q]);
    if q != p {
      OneInside(n, rounds, s, p, q);
    }
  }

  lemma CounterStep(n: nat, rounds: nat, s: State<Memory>, p: nat)
    requires Good(n, rounds, s) && CanStep(Program(n, rounds), s, p)
    ensures var s' := Step(Program(n, rounds), s, p);
            s'.mem.counter == Sum(Stored(), s'.pc)
  {
    var sys := Program(n, rounds);
    StoredOnlyActs(n, rounds);
    StepSum(sys, s, p, Stored());
    StepMoves(sys, s, p, p);
    assert At(sys, s, p) == Code(rounds, s.pc[p]);
  }

  lemma GoodStep(n: nat, rounds: nat, s: State<Memory>, p: nat)
    requires Good(n, rounds, s) && CanStep(Program(n, rounds), s, p)
    ensures Good(n, rounds, Step(Program(n, rounds), s, p))
  {
    ProgramWellFormed(n, rounds);
    StepInv(Program(n, rounds), s, p);
    CounterStep(n, rounds, s, p);
    CopyStep(n, rounds, s, p, p);
    forall q | 0 <= q < n
      ensures var s' := Step(Program(n, rounds), s, p);
              && s'.pc[q] <= 5 * rounds
              && (s'.pc[q] % 5 == 2 ==> s'.mem.vals[q] == s'.mem.counter)
              && (s'.pc[q] % 5 == 3 ==> s'.mem.vals[q] == s'.mem.counter + 1)
    {
      CopyStep(n, rounds, s, p, q);
    }
  }

  lemma {:induction false} RunIsGood(n: nat, rounds: nat, ss: seq<State<Memory>>, ps: seq<nat>, i: nat)
    requires Run(Program(n, rounds), ss, ps) && ss[0].mem == Memory(0, seq(n, _ => 0)) && i < |ss|
    ensures Good(n, rounds, ss[i])
  {
    var sys := Program(n, rounds);
    if i == 0 {
      StartInv(sys, ss[0].mem);
      SumZero(Stored(), n);
    } else {
      RunIsGood(n, rounds, ss, ps, i - 1);
      assert Follows(sys, ss, ps, i - 1);
      GoodStep(n, rounds, ss[i - 1], ps[i - 1]);
    }
  }

  /** In no reachable state are two processes between the wait and the signal. */
  lemma MutualExclusion(n: nat, rounds: nat, ss: seq<State<Memory>>, ps: seq<nat>, i: nat, p: nat, q: nat)
    requires Run(Program(n, rounds), ss, ps) && ss[0].mem == Memory(0, seq(n, _ => 0)) && i < |ss|
    requires p < n && q < n && p != q
    ensures |ss[i].pc| == n && !(Inside(ss[i].pc[p]) && Inside(ss[i].pc[q]))
  {
    RunIsGood(n, rounds, ss, ps, i);
    OneInside(n, rounds, ss[i], p, q);
  }

  lemma StuckIsDone(n: nat, rounds: nat, s: State<Memory>)
    requires Good(n, rounds, s) && Stuck(Program(n, rounds), s)
    ensures forall p :: 0 <= p < n ==> s.pc[p] == 5 * rounds
  {
    var sys := Program(n, rounds);
    forall p | 0 <= p < n ensures !Inside(s.pc[p]) && (s.sems[0].count > 0 ==> s.pc[p] == 5 * rounds) {
      StuckMeans(sys, s, p);
      assert At(sys, s, p) == Code(rounds, s.pc[p]);
    }
    HeldHere(n, rounds, s);
    Units(sys, s, 0);
    SumConst(HeldBy(sys, 0), s.pc, 0);
  }

  /** Whatever the interleaving, a run that can go no further has made all its
      increments and lost none. */
  lemma MaximalRunCountsAll(n: nat, rounds: nat, ss: seq<State<Memory>>, ps: seq<nat>)
    requires Run(Program(n, rounds), ss, ps) && ss[0].mem == Memory(0, seq(n, _ => 0))
    requires Shaped(Program(n, rounds), ss[|ps|]) && Stuck(Program(n, rounds), ss[|ps|])
    ensures ss[|ps|].mem.counter == n * rounds
  {
    var s := ss[|ps|];
    RunIsGood(n, rounds, ss, ps, |ps|);
    StuckIsDone(n, rounds, s);
    SumConst(Stored(), s.pc, rounds);
  }

  /** And every run ends. */
  lemma RunsAreFinite(n: nat, rounds: nat, ss: seq<State<Memory>>, ps: seq<nat>)
    requires Run(Program(n, rounds), ss, ps) && ss[0].mem == Memory(0, seq(n, _ => 0))
    ensures |ps| <= 2 * (n * (5 * rounds)) + n
  {
    RunIsGood(n, rounds, ss, ps, |ps|);
    RunLength(Program(n, rounds), ss, ps);
    SumConst(Pcs(), ss[|ps|].pc, 5 * rounds);
  }
}
