/** Which messages go through the queue of the `mq` program: writer `p` sends the
    numbers `p`, `p + 1` and so on, each once. */
module MessageLog {
  import opened SemPrograms
  import opened MessageQueue

  /** 1 if `x` is among the numbers that process `p` has sent in its first `i` instructions. */
  function SentBy(u: Setup, x: int): (nat, nat) -> int {
    (p: nat, i: nat) => if Writer(u, p) && p <= x < p + (i + 2) / 6 then 1 else 0
  }

  lemma OnlyStatementsSend(u: Setup, x: int)
    ensures OnlyActs(Program(u), SentBy(u, x))
  {
    var sys := Program(u);
    forall p: nat, i: nat | sys.code(p, i).Down? || sys.code(p, i).Up?
      ensures SentBy(u, x)(p, i + 1) == SentBy(u, x)(p, i)
    {
      assert sys.code(p, i) == Code(u, p, i);
      NotAStatement(u, p, i);
    }
  }

  lemma OneMoreSent(u: Setup, x: int, p: nat, i: nat)
    ensures SentBy(u, x)(p, i + 1) - SentBy(u, x)(p, i) == if Writer(u, p) && i % 6 == 3 && x == p + i / 6 then 1 else 0
  {
    assert (i + 3) / 6 == (i + 2) / 6 + if i % 6 == 3 then 1 else 0;
    assert i % 6 == 3 ==> (i + 2) / 6 == i / 6;
  }

  lemma LogStep(u: Setup, s: State<Memory>, p: nat, x: int)
    requires Good(u, s) && CanStep(Program(u), s, p)
    requires multiset(s.mem.sent)[x] == Sum(SentBy(u, x), s.pc)
    ensures var s' := Step(Program(u), s, p); multiset(s'.mem.sent)[x] == Sum(SentBy(u, x), s'.pc)
  {
    hide Sum, Step;
    var sys := Program(u);
    OnlyStatementsSend(u, x);
    StepSum(sys, s, p, SentBy(u, x));
    if At(sys, s, p).Act? {
      LoudStep(u, s, p);
      OneMoreSent(u, x, p, s.pc[p]);
      if s.pc[p] % 6 == 3 {
        IndexMoves(u, p, s.pc[p], s.mem, ReadCount(u, s));
      }
    } else {
      QuietStep(u, s, p);
    }
  }

  /** At every point of every run each number has been sent exactly as often as writers
      have come to it. */
  lemma {:induction false} LogInRun(u: Setup, ss: seq<State<Memory>>, ps: seq<nat>, i: nat, x: int)
    requires Run(Program(u), ss, ps) && ss[0].mem == Fresh(u) && i < |ss|
    ensures multiset(ss[i].mem.sent)[x] == Sum(SentBy(u, x), ss[i].pc)
  {
    hide Good, Step, Sum;
    if i == 0 {
      SumZero(SentBy(u, x), 2 * u.n);
    } else {
      LogInRun(u, ss, ps, i - 1, x);
      RunIsGood(u, ss, ps, i - 1);
      assert Follows(Program(u), ss, ps, i - 1);
      LogStep(u, ss[i - 1], ps[i - 1], x);
    }
  }

  /** The writers below `n` that send `x`. */
  function SendersOf(n: nat, m: nat, x: int): set<nat> { set p: nat | p < n && Sends(p, m, x) }

  /** Writer `p`, with `m` numbers to send, sends `x`. */
  predicate Sends(p: nat, m: nat, x: int) { p <= x < p + m }

  lemma {:induction false} SendersCount(u: Setup, pc: seq<nat>, x: int)
    requires forall p :: 0 <= p < |pc| ==> pc[p] == 6 * u.m
    ensures Sum(SentBy(u, x), pc) == |SendersOf(Min(u.n, |pc|), u.m, x)|
    decreases |pc|
  {
    if pc != [] {
      var p := |pc| - 1;
      SendersCount(u, pc[..p], x);
      if p < u.n {
        assert SendersOf(p + 1, u.m, x) == SendersOf(p, u.m, x) + if p <= x < p + u.m then {p} else {};
      }
    } else {
      assert SendersOf(0, u.m, x) == {};
    }
  }

  function Min(a: nat, b: nat): nat { if a < b then a else b }

  /** In the end, with room for a message, every writer has sent each of its numbers once,
      and nothing else has been sent. */
  lemma EverythingSent(u: Setup, ss: seq<State<Memory>>, ps: seq<nat>, x: int)
    requires u.cap > 0 && Run(Program(u), ss, ps) && ss[0].mem == Fresh(u)
    requires Shaped(Program(u), ss[|ps|]) && Stuck(Program(u), ss[|ps|])
    ensures multiset(ss[|ps|].mem.sent)[x] == |SendersOf(u.n, u.m, x)|
  {
    var s := ss[|ps|];
    RunIsGood(u, ss, ps, |ps|);
    StuckIsDone(u, s);
    LogInRun(u, ss, ps, |ps|, x);
    SendersCount(u, s.pc, x);
  }
}
