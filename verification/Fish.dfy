/** The "fish" program: three processes print `_<><_><>` over and over, kept in
    step by four semaphores alone.  The third process makes `rounds` rounds and
    exits, the other two loop for ever. */
module Fish {
  import opened SemPrograms

  const FISH: string := "_<><_><>"

  /** A process that prints an angle: it takes its own turn and the screen, prints,
      and hands the turn to the other angle and the screen to the tail. */
  function Angle(own: nat, other: nat, i: nat): Instr {
    match i % 5
    case 0 => Down(own)
    case 1 => Down(3)
    case 2 => Act
    case 3 => Up(other)
    case _ => Up(2)
  }

  function Tail(i: nat): Instr {
    var j := i % 7;
    if j < 3 then Down(2) else if j == 3 then Act else Up(3)
  }

  function Code(rounds: nat, p: nat, i: nat): Instr {
    if p == 0 then Angle(0, 1, i)
    else if p == 1 then Angle(1, 0, i)
    else if i < 7 * rounds then Tail(i)
    else Halt
  }

  function Mark(p: nat): char { if p == 0 then '<' else if p == 1 then '>' else '_' }

  function Print(p: nat, i: nat, out: string): string {
    out + [Mark(p)]
  }

  function Program(rounds: nat): System<string> {
    System(3, (p: nat, i: nat) => Code(rounds, p, i), Print, [1, 0, 3, 0])
  }

  lemma ProgramWellFormed(rounds: nat)
    ensures WellFormed(Program(rounds))
  {
    var sys := Program(rounds);
    forall p, i ensures sys.code(p, i).Down? || sys.code(p, i).Up? ==> sys.code(p, i).k < |sys.init| {
      assert sys.code(p, i) == Code(rounds, p, i);
    }
  }

  // ---------------------------------------------------------------------------
  // How far each process is
  // ---------------------------------------------------------------------------

  /** Waits on semaphore 2 passed by the third process. */
  function Taken(i: nat): int { 3 * (i / 7) + if i % 7 < 3 then i % 7 else 3 }

  /** Signals on semaphore 3 made by the third process. */
  function Given(i: nat): int { 3 * (i / 7) + if i % 7 < 4 then 0 else i % 7 - 4 }

  function HeldClosed(k: nat, p: nat, i: nat): int {
    if p == 0 then
      if k == 0 then (i + 4) / 5 else if k == 3 then (i + 3) / 5
      else if k == 1 then -((i + 1) / 5) else if k == 2 then -(i / 5) else 0
    else if p == 1 then
      if k == 1 then (i + 4) / 5 else if k == 3 then (i + 3) / 5
      else if k == 0 then -((i + 1) / 5) else if k == 2 then -(i / 5) else 0
    else
      if k == 2 then Taken(i) else if k == 3 then -Given(i) else 0
  }

  lemma AngleStep(own: nat, other: nat, i: nat, c: nat)
    requires i > 0 && c < 5
    ensures (i + c) / 5 == (i - 1 + c) / 5 + if (i - 1) % 5 == 4 - c then 1 else 0
  {
  }

  lemma AngleClosed(k: nat, p: nat, i: nat)
    requires p < 2
    ensures HeldClosed(k, p, 0) == 0
    ensures i > 0 ==> HeldClosed(k, p, i) == HeldClosed(k, p, i - 1) + Weight(Angle(p, 1 - p, i - 1), k)
  {
    if i > 0 {
      AngleStep(p, 1 - p, i, 4);
      AngleStep(p, 1 - p, i, 3);
      AngleStep(p, 1 - p, i, 1);
      AngleStep(p, 1 - p, i, 0);
    }
  }

  lemma {:induction false} AngleHeld(rounds: nat, k: nat, p: nat, i: nat)
    requires p < 2
    ensures Held(Program(rounds), k, p, i) == HeldClosed(k, p, i)
  {
    hide HeldClosed, Angle, Weight;
    AngleClosed(k, p, i);
    if i > 0 {
      AngleHeld(rounds, k, p, i - 1);
      assert Program(rounds).code(p, i - 1) == Code(rounds, p, i - 1);
    }
  }

  lemma TailStep(i: nat)
    requires i > 0
    ensures Taken(i) == Taken(i - 1) + if (i - 1) % 7 < 3 then 1 else 0
    ensures Given(i) == Given(i - 1) + if (i - 1) % 7 > 3 then 1 else 0
  {
  }

  lemma {:induction false} TailHeld(rounds: nat, k: nat, i: nat)
    requires i <= 7 * rounds
    ensures Held(Program(rounds), k, 2, i) == HeldClosed(k, 2, i)
  {
    if i > 0 {
      TailHeld(rounds, k, i - 1);
      assert Program(rounds).code(2, i - 1) == Code(rounds, 2, i - 1);
      TailStep(i);
    }
  }

  lemma Sum3(f: (nat, nat) -> int, pc: seq<nat>)
    requires |pc| == 3
    ensures Sum(f, pc) == f(0, pc[0]) + f(1, pc[1]) + f(2, pc[2])
  {
    assert pc[..2][..1][..0] == [];
    assert Sum(f, pc[..2]) == Sum(f, pc[..2][..1]) + f(1, pc[1]);
    assert Sum(f, pc[..2][..1]) == Sum(f, pc[..2][..1][..0]) + f(0, pc[0]);
  }

  /** What is left in each semaphore, from where the three processes are. */
  lemma Counts(rounds: nat, s: State<string>)
    requires Inv(Program(rounds), s) && s.pc[2] <= 7 * rounds
    ensures s.sems[0].count + (s.pc[0] + 4) / 5 == 1 + (s.pc[1] + 1) / 5
    ensures s.sems[1].count + (s.pc[1] + 4) / 5 == (s.pc[0] + 1) / 5
    ensures s.sems[2].count + Taken(s.pc[2]) == 3 + s.pc[0] / 5 + s.pc[1] / 5
    ensures s.sems[3].count + (s.pc[0] + 3) / 5 + (s.pc[1] + 3) / 5 == Given(s.pc[2])
    ensures InStep(s.pc[0], s.pc[1], s.pc[2])
  {
    var sys := Program(rounds);
    forall k | 0 <= k < 4
      ensures s.sems[k].count
           == sys.init[k] - HeldClosed(k, 0, s.pc[0]) - HeldClosed(k, 1, s.pc[1]) - HeldClosed(k, 2, s.pc[2])
    {
      Units(sys, s, k);
      Sum3(HeldBy(sys, k), s.pc);
      AngleHeld(rounds, k, 0, s.pc[0]);
      AngleHeld(rounds, k, 1, s.pc[1]);
      TailHeld(rounds, k, s.pc[2]);
    }
  }

  // ---------------------------------------------------------------------------
  // The output
  // ---------------------------------------------------------------------------

  /** The first `n` characters of the endless repetition of `FISH`. */
  function Pattern(n: nat): string {
    if n == 0 then "" else Pattern(n - 1) + [FISH[(n - 1) % 8]]
  }

  function Printed(pc: seq<nat>): nat
    requires |pc| == 3
  {
    (pc[0] + 2) / 5 + (pc[1] + 2) / 5 + (pc[2] + 3) / 7
  }

  lemma CharAt(n: nat, q: nat, r: nat)
    requires r < 8 && n == 8 * q + r
    ensures FISH[n % 8] == FISH[r]
  {
  }

  /** The four counts are never negative. */
  predicate InStep(x: nat, y: nat, z: nat) {
    && (x + 4) / 5 - (y + 1) / 5 <= 1
    && (y + 4) / 5 <= (x + 1) / 5
    && Taken(z) <= 3 + x / 5 + y / 5
    && (x + 3) / 5 + (y + 3) / 5 <= Given(z)
  }

  lemma TailBounds(z: nat)
    ensures Given(z) <= 3 * ((z + 3) / 7)
    ensures 3 * ((z + 3) / 7) <= Taken(z)
    ensures z % 7 == 3 ==> Taken(z) == 3 * ((z + 3) / 7) + 3
  {
  }

  lemma Fifths(x: nat)
    ensures x / 5 <= (x + 1) / 5 <= (x + 2) / 5 <= (x + 3) / 5 <= (x + 4) / 5 <= x / 5 + 1
    ensures x % 5 == 2 ==> (x + 2) / 5 == x / 5 && (x + 3) / 5 == x / 5 + 1
    ensures x % 5 == 0 ==> (x + 4) / 5 == x / 5
    ensures x % 5 == 1 ==> (x + 3) / 5 == x / 5 && (x + 4) / 5 == x / 5 + 1
  {
  }

  lemma LeftTurn(x: nat, y: nat, z: nat)
    requires InStep(x, y, z) && x % 5 == 2
    ensures var a, b, c := (x + 2) / 5, (y + 2) / 5, (z + 3) / 7;
            a == b && 3 * c - 3 <= a + b <= 3 * c - 1
  {
    Fifths(x);
    Fifths(y);
    TailBounds(z);
  }

  lemma RightTurn(x: nat, y: nat, z: nat)
    requires InStep(x, y, z) && y % 5 == 2
    ensures var a, b, c := (x + 2) / 5, (y + 2) / 5, (z + 3) / 7;
            a == b + 1 && 3 * c - 3 <= a + b <= 3 * c - 1
  {
    Fifths(x);
    Fifths(y);
    TailBounds(z);
  }

  lemma TailTurn(x: nat, y: nat, z: nat)
    requires InStep(x, y, z) && z % 7 == 3
    ensures (x + 2) / 5 + (y + 2) / 5 == 3 * ((z + 3) / 7)
  {
    Fifths(x);
    Fifths(y);
    TailBounds(z);
  }

  lemma TurnIs(a: nat, b: nat, c: nat, p: nat)
    requires p == 0 ==> a == b && 3 * c - 3 <= a + b <= 3 * c - 1
    requires p == 1 ==> a == b + 1 && 3 * c - 3 <= a + b <= 3 * c - 1
    requires p >= 2 ==> a + b == 3 * c
    ensures FISH[(a + b + c) % 8] == Mark(p)
  {
    var n, m := a + b + c, c / 2;
    if c == 2 * m {
      if p == 0 {
        CharAt(n, m - 1, 6);
      } else if p == 1 {
        CharAt(n, m - 1, if b == 3 * m - 2 then 5 else 7);
      } else {
        CharAt(n, m, 0);
      }
    } else {
      if p == 0 {
        CharAt(n, m, if a == 3 * m then 1 else 3);
      } else if p == 1 {
        CharAt(n, m, 2);
      } else {
        CharAt(n, m, 4);
      }
    }
  }

  lemma NextChar(x: nat, y: nat, z: nat, p: nat)
    requires InStep(x, y, z)
    requires (p == 0 && x % 5 == 2) || (p == 1 && y % 5 == 2) || (p == 2 && z % 7 == 3)
    ensures FISH[((x + 2) / 5 + (y + 2) / 5 + (z + 3) / 7) % 8] == Mark(p)
  {
    if p == 0 {
      LeftTurn(x, y, z);
    } else if p == 1 {
      RightTurn(x, y, z);
    } else {
      TailTurn(x, y, z);
    }
    TurnIs((x + 2) / 5, (y + 2) / 5, (z + 3) / 7, p);
  }

  lemma ActsAt(rounds: nat, p: nat, i: nat)
    ensures Code(rounds, p, i).Act? ==> if p < 2 then i % 5 == 2 else i % 7 == 3
  {
  }

  lemma PatternGrows(n: nat)
    ensures Pattern(n + 1) == Pattern(n) + [FISH[n % 8]]
  {
  }

  lemma InStepOf(rounds: nat, s: State<string>)
    requires Inv(Program(rounds), s) && s.pc[2] <= 7 * rounds
    ensures |s.pc| == 3 && InStep(s.pc[0], s.pc[1], s.pc[2])
  {
    Counts(rounds, s);
  }

  lemma MarkIsNext(rounds: nat, s: State<string>, p: nat)
    requires Inv(Program(rounds), s) && s.pc[2] <= 7 * rounds && p < 3 && Code(rounds, p, s.pc[p]).Act?
    ensures |s.pc| == 3 && FISH[Printed(s.pc) % 8] == Mark(p)
  {
    hide Inv, Code, InStep;
    InStepOf(rounds, s);
    ActsAt(rounds, p, s.pc[p]);
    NextChar(s.pc[0], s.pc[1], s.pc[2], p);
  }

  /** Every process prints only when its character is the next one. */
  lemma PrintsInTurn(rounds: nat, s: State<string>, p: nat)
    requires Inv(Program(rounds), s) && s.pc[2] <= 7 * rounds && s.mem == Pattern(Printed(s.pc))
    requires p < 3 && Code(rounds, p, s.pc[p]).Act?
    ensures Print(p, s.pc[p], s.mem) == Pattern(Printed(s.pc) + 1)
  {
    hide Inv, Code, Pattern, Printed;
    MarkIsNext(rounds, s, p);
    PatternGrows(Printed(s.pc));
  }

  lemma AnglePrinted(own: nat, other: nat, i: nat)
    ensures (i + 3) / 5 == (i + 2) / 5 + if Angle(own, other, i).Act? then 1 else 0
  {
  }

  lemma TailPrinted(i: nat)
    ensures (i + 4) / 7 == (i + 3) / 7 + if Tail(i).Act? then 1 else 0
  {
  }

  lemma PrintedMoves(rounds: nat, pc: seq<nat>, p: nat)
    requires |pc| == 3 && p < 3 && !Code(rounds, p, pc[p]).Halt?
    ensures Printed(pc[p := pc[p] + 1]) == Printed(pc) + if Code(rounds, p, pc[p]).Act? then 1 else 0
  {
    hide Angle, Tail;
    if p < 2 {
      AnglePrinted(p, 1 - p, pc[p]);
    } else {
      TailPrinted(pc[p]);
    }
  }

  ghost predicate Good(rounds: nat, s: State<string>) {
    && Inv(Program(rounds), s)
    && s.pc[2] <= 7 * rounds
    && s.mem == Pattern(Printed(s.pc))
  }

  lemma GoodHandOver(rounds: nat, s: State<string>, p: nat)
    requires Good(rounds, s) && CanStep(Program(rounds), s, p)
    requires At(Program(rounds), s, p).Up? && s.sems[At(Program(rounds), s, p).k].queue != []
    ensures var s' := Step(Program(rounds), s, p);
            s'.pc[2] <= 7 * rounds && s'.mem == s.mem && Printed(s'.pc) == Printed(s.pc)
  {
    var sys := Program(rounds);
    HandOver(sys, s, p);
    var r := s.sems[At(sys, s, p).k].queue[0];
    assert At(sys, s, r) == Code(rounds, r, s.pc[r]) && At(sys, s, p) == Code(rounds, p, s.pc[p]);
    PrintedMoves(rounds, s.pc, r);
    PrintedMoves(rounds, s.pc[r := s.pc[r] + 1], p);
  }

  lemma GoodStep(rounds: nat, s: State<string>, p: nat)
    requires Good(rounds, s) && CanStep(Program(rounds), s, p)
    ensures Good(rounds, Step(Program(rounds), s, p))
  {
    hide Inv, Pattern, Printed;
    var sys := Program(rounds);
    ProgramWellFormed(rounds);
    StepInv(sys, s, p);
    assert At(sys, s, p) == Code(rounds, p, s.pc[p]);
    if At(sys, s, p).Up? && s.sems[At(sys, s, p).k].queue != [] {
      GoodHandOver(rounds, s, p);
    } else {
      PrintedMoves(rounds, s.pc, p);
      if At(sys, s, p).Act? {
        PrintsInTurn(rounds, s, p);
      }
    }
  }

  lemma {:induction false} RunIsGood(rounds: nat, ss: seq<State<string>>, ps: seq<nat>, i: nat)
    requires Run(Program(rounds), ss, ps) && ss[0].mem == "" && i < |ss|
    ensures Good(rounds, ss[i])
  {
    if i == 0 {
      StartInv(Program(rounds), "");
    } else {
      RunIsGood(rounds, ss, ps, i - 1);
      assert Follows(Program(rounds), ss, ps, i - 1);
      GoodStep(rounds, ss[i - 1], ps[i - 1]);
    }
  }

  lemma {:induction false} PatternAt(n: nat, j: nat)
    requires j < n
    ensures |Pattern(n)| == n && Pattern(n)[j] == FISH[j % 8]
  {
    if j < n - 1 {
      PatternAt(n - 1, j);
    } else if n > 1 {
      PatternAt(n - 1, 0);
    }
  }

  /** Whatever the interleaving, the output is a prefix of the repeated pattern. */
  lemma OutputIsPrefix(rounds: nat, ss: seq<State<string>>, ps: seq<nat>, i: nat, j: nat)
    requires Run(Program(rounds), ss, ps) && ss[0].mem == "" && i < |ss|
    ensures j < |ss[i].mem| ==> ss[i].mem[j] == FISH[j % 8]
  {
    RunIsGood(rounds, ss, ps, i);
    var n := Printed(ss[i].pc);
    if 0 < n {
      PatternAt(n, if j < n then j else 0);
    }
  }

  // ---------------------------------------------------------------------------
  // The end of a run
  // ---------------------------------------------------------------------------

  /** Where a process that has not halted can be waiting. */
  lemma WaitsAt(rounds: nat, p: nat, i: nat)
    requires p < 3 && Code(rounds, p, i).Down?
    ensures var k := Code(rounds, p, i).k;
            if p < 2 then (i % 5 == 0 && k == p) || (i % 5 == 1 && k == 3) else i % 7 < 3 && k == 2
  {
  }

  lemma StuckAt(rounds: nat, s: State<string>, p: nat)
    requires Inv(Program(rounds), s) && Stuck(Program(rounds), s) && p < 3
    ensures Code(rounds, p, s.pc[p]).Halt? ||
            (Code(rounds, p, s.pc[p]).Down? && Code(rounds, p, s.pc[p]).k < 4 &&
             s.sems[Code(rounds, p, s.pc[p]).k].count == 0)
  {
    StuckMeans(Program(rounds), s, p);
    assert At(Program(rounds), s, p) == Code(rounds, p, s.pc[p]);
  }

  lemma StuckIsDone(rounds: nat, s: State<string>)
    requires Good(rounds, s) && Stuck(Program(rounds), s)
    ensures s.pc[2] == 7 * rounds && Printed(s.pc) == 4 * rounds
  {
    hide Stuck, Given, Taken;
    StuckAt(rounds, s, 0);
    StuckAt(rounds, s, 1);
    StuckAt(rounds, s, 2);
    WaitsAt(rounds, 0, s.pc[0]);
    WaitsAt(rounds, 1, s.pc[1]);
    if s.pc[2] < 7 * rounds {
      WaitsAt(rounds, 2, s.pc[2]);
    }
    Counts(rounds, s);
    DoneArith(rounds, s.pc[0], s.pc[1], s.pc[2], s.sems[0].count, s.sems[1].count, s.sems[2].count, s.sems[3].count);
  }

  lemma DoneArith(rounds: nat, x: nat, y: nat, z: nat, c0: nat, c1: nat, c2: nat, c3: nat)
    requires z <= 7 * rounds
    requires c0 + (x + 4) / 5 == 1 + (y + 1) / 5 && c1 + (y + 4) / 5 == (x + 1) / 5
    requires c2 + Taken(z) == 3 + x / 5 + y / 5 && c3 + (x + 3) / 5 + (y + 3) / 5 == Given(z)
    requires (x % 5 == 0 && c0 == 0) || (x % 5 == 1 && c3 == 0)
    requires (y % 5 == 0 && c1 == 0) || (y % 5 == 1 && c3 == 0)
    requires z == 7 * rounds || (z % 7 < 3 && c2 == 0)
    ensures z == 7 * rounds && (x + 2) / 5 + (y + 2) / 5 + (z + 3) / 7 == 4 * rounds
  {
    Fifths(x);
    Fifths(y);
    assert z % 7 < 3 ==> Given(z) == 3 * (z / 7) && Taken(z) == 3 * (z / 7) + z % 7;
    assert z == 7 * rounds ==> z / 7 == rounds && (z + 3) / 7 == rounds;
  }

  function Repeat(s: string, n: nat): string {
    if n == 0 then "" else Repeat(s, n - 1) + s
  }

  lemma InFish(n: nat, j: nat)
    requires j < 8
    ensures (8 * n + j) % 8 == j
  {
  }

  lemma {:induction false} PatternWithin(n: nat, j: nat)
    requires j <= 8
    ensures Pattern(8 * n + j) == Pattern(8 * n) + FISH[..j]
  {
    if j > 0 {
      PatternWithin(n, j - 1);
      PatternGrows(8 * n + j - 1);
      InFish(n, j - 1);
      var c := FISH[j - 1];
      assert FISH[..j] == FISH[..j - 1] + [c];
      assert Pattern(8 * n) + (FISH[..j - 1] + [c]) == (Pattern(8 * n) + FISH[..j - 1]) + [c];
    }
  }

  lemma NextFish(n: nat)
    ensures Pattern(0) == "" && Pattern(8 * n + 8) == Pattern(8 * n) + FISH
  {
    PatternWithin(n, 8);
    assert FISH[..8] == FISH;
  }

  lemma {:induction false} PatternRepeats(n: nat)
    ensures Pattern(8 * n) == Repeat(FISH, n)
  {
    hide Pattern;
    NextFish(if n == 0 then 0 else n - 1);
    if n > 0 {
      PatternRepeats(n - 1);
    }
  }

  /** A run that can go no further has printed everything: for the program's own
      twenty rounds, ten whole fish. */
  lemma MaximalRunPrintsAll(rounds: nat, ss: seq<State<string>>, ps: seq<nat>)
    requires Run(Program(rounds), ss, ps) && ss[0].mem == ""
    requires Shaped(Program(rounds), ss[|ps|]) && Stuck(Program(rounds), ss[|ps|])
    ensures ss[|ps|].mem == Pattern(4 * rounds)
    ensures rounds == 20 ==> ss[|ps|].mem == Repeat(FISH, 10)
  {
    RunIsGood(rounds, ss, ps, |ps|);
    StuckIsDone(rounds, ss[|ps|]);
    if rounds == 20 {
      PatternRepeats(10);
    }
  }

  /** And every run ends: none has more steps than this. */
  lemma RunsAreFinite(rounds: nat, ss: seq<State<string>>, ps: seq<nat>)
    requires Run(Program(rounds), ss, ps) && ss[0].mem == ""
    ensures |ps| <= 74 * rounds + 7
  {
    RunIsGood(rounds, ss, ps, |ps|);
    RunLength(Program(rounds), ss, ps);
    var s := ss[|ps|];
    Counts(rounds, s);
    Sum3(Pcs(), s.pc);
    TailBounds(s.pc[2]);
    assert Given(s.pc[2]) <= 3 * rounds;
  }
}
