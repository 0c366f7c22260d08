/** The dining philosophers of the `philo` program, for any number `n` of them:
    semaphores 0 to n-1 are the chopsticks and semaphore n is the server that
    lets one philosopher at a time pick up chopsticks. */
module Philosophers {
  import opened Basics
  import opened SemPrograms

  function Next(n: nat, p: nat): nat
    requires n > 0
  {
    (p + 1) % n
  }

  /** One round of philosopher `p`: pass the server, check both chopsticks, take
      both, let the server go, eat, put both down. */
  function Round(n: nat, p: nat, j: nat): Instr
    requires n > 0
  {
    match j
    case 0 => Down(n)
    case 1 => Down(p)
    case 2 => Down(Next(n, p))
    case 3 => Up(p)
    case 4 => Up(Next(n, p))
    case 5 => Down(p)
    case 6 => Down(Next(n, p))
    case 7 => Up(n)
    case 8 => Act
    case 9 => Up(p)
    case _ => Up(Next(n, p))
  }

  function Code(n: nat, p: nat, i: nat): Instr {
    if p < n then Round(n, p, i % 11) else Halt
  }

  /** Nothing but the semaphores is shared. */
  function Eat(p: nat, i: nat, m: ()): () { m }

  function Program(n: nat): System<()> {
    System(n, (p: nat, i: nat) => Code(n, p, i), Eat, seq(n + 1, _ => 1))
  }

  predicate Eating(i: nat) { i % 11 == 8 }

  predicate HoldsServer(j: nat) { 1 <= j <= 7 }

  predicate HoldsOwn(j: nat) { j == 2 || j == 3 || 6 <= j <= 9 }

  predicate HoldsNext(j: nat) { j == 3 || j == 4 || 7 <= j <= 10 }

  lemma ProgramWellFormed(n: nat)
    ensures WellFormed(Program(n))
  {
    var sys := Program(n);
    forall p, i ensures sys.code(p, i).Down? || sys.code(p, i).Up? ==> sys.code(p, i).k < |sys.init| {
      assert sys.code(p, i) == Code(n, p, i);
    }
  }

  function HeldInRound(n: nat, k: nat, p: nat, j: nat): int
    requires n > 0
  {
    if k == n then if HoldsServer(j) then 1 else 0
    else if k == p then if HoldsOwn(j) then 1 else 0
    else if k == Next(n, p) then if HoldsNext(j) then 1 else 0
    else 0
  }

  lemma NextIsOther(n: nat, p: nat)
    requires n >= 2 && p < n
    ensures Next(n, p) < n && Next(n, p) != p
    ensures Next(n, p) == if p == n - 1 then 0 else p + 1
  {
  }

  lemma RoundStep(n: nat, k: nat, p: nat, j: nat)
    requires n >= 2 && p < n && k <= n && j < 11
    ensures HeldInRound(n, k, p, (j + 1) % 11) == HeldInRound(n, k, p, j) + Weight(Round(n, p, j), k)
  {
    NextIsOther(n, p);
  }

  lemma NextPlace(i: nat)
    requires i > 0
    ensures ((i - 1) % 11 + 1) % 11 == i % 11
  {
  }

  lemma {:induction false} HeldIs(n: nat, k: nat, p: nat, i: nat)
    requires n >= 2 && p < n && k <= n
    ensures Held(Program(n), k, p, i) == HeldInRound(n, k, p, i % 11)
  {
    if i > 0 {
      HeldIs(n, k, p, i - 1);
      assert Program(n).code(p, i - 1) == Code(n, p, i - 1);
      RoundStep(n, k, p, (i - 1) % 11);
      NextPlace(i);
    }
  }

  lemma HeldHere(n: nat, s: State<()>, k: nat)
    requires n >= 2 && Inv(Program(n), s) && k <= n
    ensures forall p :: 0 <= p < n ==> HeldBy(Program(n), k)(p, s.pc[p]) == HeldInRound(n, k, p, s.pc[p] % 11)
  {
    forall p | 0 <= p < n ensures HeldBy(Program(n), k)(p, s.pc[p]) == HeldInRound(n, k, p, s.pc[p] % 11) {
      HeldIs(n, k, p, s.pc[p]);
    }
  }

  /** No semaphore has two holders. */
  lemma OneHolder(n: nat, s: State<()>, k: nat, p: nat, q: nat)
    requires n >= 2 && Inv(Program(n), s) && k <= n && p < n && q < n && p != q
    ensures HeldInRound(n, k, p, s.pc[p] % 11) + HeldInRound(n, k, q, s.pc[q] % 11) <= 1
  {
    HeldHere(n, s, k);
    Units(Program(n), s, k);
    if p < q {
      SumTwo(HeldBy(Program(n), k), s.pc, p, q);
    } else {
      SumTwo(HeldBy(Program(n), k), s.pc, q, p);
    }
  }

  /** A semaphore with no units left has a holder. */
  lemma SomeHolder(n: nat, s: State<()>, k: nat) returns (p: nat)
    requires n >= 2 && Inv(Program(n), s) && k <= n && s.sems[k].count == 0
    ensures p < n && HeldInRound(n, k, p, s.pc[p] % 11) == 1
  {
    HeldHere(n, s, k);
    Units(Program(n), s, k);
    if forall q :: 0 <= q < n ==> HeldInRound(n, k, q, s.pc[q] % 11) <= 0 {
      SumConst(HeldBy(Program(n), k), s.pc, 0);
      assert false;
    }
    p :| 0 <= p < n && HeldInRound(n, k, p, s.pc[p] % 11) > 0;
  }

  // ---------------------------------------------------------------------------
  // What every run keeps
  // ---------------------------------------------------------------------------

  /** In every reachable state: neighbours never eat at the same time, and only
      the philosopher the server has let in is ever at a chopstick wait. */
  lemma NeighboursDoNotEatTogether(n: nat, ss: seq<State<()>>, ps: seq<nat>, i: nat, p: nat)
    requires n >= 2 && Run(Program(n), ss, ps) && i < |ss| && p < n
    ensures Shaped(Program(n), ss[i])
    ensures !(Eating(ss[i].pc[p]) && Eating(ss[i].pc[Next(n, p)]))
  {
    ProgramWellFormed(n);
    RunInv(Program(n), ss, ps, i);
    NextIsOther(n, p);
    OneHolder(n, ss[i], Next(n, p), p, Next(n, p));
  }

  lemma OnlyTheServedWaits(n: nat, ss: seq<State<()>>, ps: seq<nat>, i: nat, p: nat, q: nat)
    requires n >= 2 && Run(Program(n), ss, ps) && i < |ss| && p < n && q < n && p != q
    ensures Shaped(Program(n), ss[i])
    ensures At(Program(n), ss[i], p).Down? && At(Program(n), ss[i], p).k < n ==>
              HoldsServer(ss[i].pc[p] % 11) && !HoldsServer(ss[i].pc[q] % 11)
  {
    ProgramWellFormed(n);
    RunInv(Program(n), ss, ps, i);
    OneHolder(n, ss[i], n, p, q);
    assert At(Program(n), ss[i], p) == Code(n, p, ss[i].pc[p]);
  }

  lemma WaitsAt(n: nat, p: nat, j: nat)
    requires n >= 2 && p < n && j < 11 && Round(n, p, j).Down?
    ensures var k := Round(n, p, j).k;
            k <= n && HeldInRound(n, k, p, j) == 0 && (k < n ==> HoldsServer(j)) && (k == n ==> j == 0)
  {
    NextIsOther(n, p);
  }

  /** `p` is at a wait on a semaphore that has no units left. */
  ghost predicate Waits(n: nat, s: State<()>, p: nat)
    requires n >= 2 && Inv(Program(n), s) && p < n
  {
    var c := Round(n, p, s.pc[p] % 11);
    c.Down? && c.k <= n && s.sems[c.k].count == 0
  }

  lemma NotAllWait(n: nat, s: State<()>)
    requires n >= 2 && Inv(Program(n), s)
    ensures exists p :: 0 <= p < n && !Waits(n, s, p)
  {
    if forall p :: 0 <= p < n ==> Waits(n, s, p) {
      // Somebody waits on a chopstick: if all were waiting for the server, it would be free.
      assert Waits(n, s, 0);
      var h := SomeHolder(n, s, Round(n, 0, s.pc[0] % 11).k);
      assert Waits(n, s, h);
      WaitsAt(n, h, s.pc[h] % 11);
      var c := Round(n, h, s.pc[h] % 11).k;
      // The holder of that chopstick waits too, so it is inside as well.
      var g := SomeHolder(n, s, c);
      assert Waits(n, s, g);
      WaitsAt(n, g, s.pc[g] % 11);
      OneHolder(n, s, n, g, h);
      assert false;
    }
  }

  /** No reachable state is a deadlock. */
  lemma NoDeadlock(n: nat, ss: seq<State<()>>, ps: seq<nat>, i: nat)
    requires n >= 2 && Run(Program(n), ss, ps) && i < |ss|
    ensures Shaped(Program(n), ss[i]) && !Stuck(Program(n), ss[i])
  {
    var sys, s := Program(n), ss[i];
    ProgramWellFormed(n);
    RunInv(sys, ss, ps, i);
    NotAllWait(n, s);
    var p :| 0 <= p < n && !Waits(n, s, p);
    assert At(sys, s, p) == Code(n, p, s.pc[p]);
    if Stuck(sys, s) {
      StuckMeans(sys, s, p);
    }
  }

  // ---------------------------------------------------------------------------
  // Fair waiting
  // ---------------------------------------------------------------------------

  lemma {:induction false} FewDistinct(s: seq<Pid>, bound: set<Pid>)
    requires NoDup(s) && forall x <- s :: x in bound
    ensures |s| <= |bound|
    decreases |s|
  {
    if s != [] {
      assert s == [s[0]] + s[1..];
      FewDistinct(s[1..], bound - {s[0]});
    }
  }

  function Below(n: nat): (r: set<Pid>)
    ensures |r| == n && forall x: Pid :: x in r <==> x < n
  {
    if n == 0 then {} else Below(n - 1) + {n - 1}
  }

  /** At most `n - 2` philosophers are let in by the server between one's
      queueing up for it at state `i` and its own turn: so many signals at most
      are made on the server while it is still waiting at state `j`. */
  lemma BoundedBypass(n: nat, ss: seq<State<()>>, ps: seq<nat>, i: nat, j: nat, pos: nat)
    requires n >= 2 && Run(Program(n), ss, ps) && i <= j <= |ps|
    requires Shaped(Program(n), ss[i]) && Shaped(Program(n), ss[j])
    requires pos < |ss[i].sems[n].queue| && ss[i].sems[n].queue[pos] < n
    requires ss[j].pc[ss[i].sems[n].queue[pos]] == ss[i].pc[ss[i].sems[n].queue[pos]]
    ensures SignalsMade(Program(n), ss, ps, n, i, j) <= pos <= n - 2
  {
    var sys, s := Program(n), ss[i];
    ProgramWellFormed(n);
    ServedInOrder(sys, ss, ps, n, i, j, pos);
    RunInv(sys, ss, ps, i);
    assert QueueOk(sys, s, n);
    var h := SomeHolder(n, s, n);
    var others := Below(n) - {h};
    forall x | x in s.sems[n].queue ensures x in others {
      assert At(sys, s, x) == Code(n, x, s.pc[x]);
      WaitsAt(n, x, s.pc[x] % 11);
    }
    FewDistinct(s.sems[n].queue, others);
  }
}
