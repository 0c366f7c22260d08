/** The `mq` program: `n` writers and `n` readers pass `m` messages each through
    a ring of `cap + 1` slots, under three semaphores: 0 counts free places, 1
    counts messages, 2 excludes. */
module MessageQueue {
  import opened SemPrograms
  import Ring

  /** The static ring, and (for reasoning only) all messages ever put in it. */
  datatype Memory = Memory(queue: seq<int>, head: nat, tail: nat, sent: seq<int>)

  datatype Setup = Setup(n: nat, m: nat, cap: nat)

  predicate Writer(u: Setup, p: nat) { p < u.n }

  function Write(j: nat): Instr {
    match j
    case 0 => Down(0)
    case 1 => Down(2)
    case 4 => Up(2)
    case 5 => Up(1)
    case _ => Act
  }

  function Read(j: nat): Instr {
    match j
    case 0 => Down(1)
    case 1 => Down(2)
    case 4 => Up(2)
    case 5 => Up(0)
    case _ => Act
  }

  function Code(u: Setup, p: nat, i: nat): Instr {
    if p >= 2 * u.n || i >= 6 * u.m then Halt
    else if Writer(u, p) then Write(i % 6)
    else Read(i % 6)
  }

  function Message(p: nat, i: nat): int { p + i / 6 }

  /** A writer stores at the tail and then moves it; a reader clears the slot at
      the head and then moves that. */
  function Statement(u: Setup, p: nat, i: nat, q: Memory): Memory {
    if q.tail >= |q.queue| || q.head >= |q.queue| then q
    else if Writer(u, p) then
      if i % 6 == 2 then q.(queue := q.queue[q.tail := Message(p, i)])
      else q.(tail := (q.tail + 1) % |q.queue|, sent := q.sent + [Message(p, i)])
    else
      if i % 6 == 2 then q.(queue := q.queue[q.head := 0])
      else q.(head := (q.head + 1) % |q.queue|)
  }

  function Program(u: Setup): System<Memory> {
    System(2 * u.n, (p: nat, i: nat) => Code(u, p, i),
           (p: nat, i: nat, q: Memory) => Statement(u, p, i, q), [u.cap, 0, 1])
  }

  function Fresh(u: Setup): Memory { Memory(seq(u.cap + 1, _ => 0), 0, 0, []) }

  lemma ProgramWellFormed(u: Setup)
    ensures WellFormed(Program(u))
  {
    var sys := Program(u);
    forall p, i ensures sys.code(p, i).Down? || sys.code(p, i).Up? ==> sys.code(p, i).k < |sys.init| {
      assert sys.code(p, i) == Code(u, p, i);
    }
  }

  // ---------------------------------------------------------------------------
  // How far the processes are
  // ---------------------------------------------------------------------------

  /** Messages put in, and taken out, by the statements that move tail and head. */
  function Puts(u: Setup): (nat, nat) -> int { (p: nat, i: nat) => if Writer(u, p) then (i + 2) / 6 else 0 }

  function Gets(u: Setup): (nat, nat) -> int { (p: nat, i: nat) => if Writer(u, p) then 0 else (i + 2) / 6 }

  /** Their difference, summed, is what is in the queue. */
  function Stays(u: Setup): (nat, nat) -> int {
    (p: nat, i: nat) => if Writer(u, p) then (i + 2) / 6 else -((i + 2) / 6)
  }

  predicate Inside(i: nat) { 2 <= i % 6 <= 4 }

  function HeldClosed(u: Setup, k: nat, p: nat, i: nat): int {
    if k == 2 then if Inside(i) then 1 else 0
    else if (k == 0) == Writer(u, p) then (i + 5) / 6
    else -(i / 6)
  }

  lemma Sixths(i: nat)
    requires i > 0
    ensures (i + 5) / 6 == (i + 4) / 6 + if (i - 1) % 6 == 0 then 1 else 0
    ensures i / 6 == (i - 1) / 6 + if (i - 1) % 6 == 5 then 1 else 0
    ensures i % 6 == if (i - 1) % 6 == 5 then 0 else (i - 1) % 6 + 1
  {
  }

  lemma {:induction false} HeldIs(u: Setup, k: nat, p: nat, i: nat)
    requires k < 3 && p < 2 * u.n && i <= 6 * u.m
    ensures Held(Program(u), k, p, i) == HeldClosed(u, k, p, i)
  {
    if i > 0 {
      HeldIs(u, k, p, i - 1);
      assert Program(u).code(p, i - 1) == Code(u, p, i - 1);
      Sixths(i);
    }
  }

  lemma {:induction false} StaysIs(u: Setup, pc: seq<nat>)
    ensures Sum(Stays(u), pc) == Sum(Puts(u), pc) - Sum(Gets(u), pc)
    decreases |pc|
  {
    if pc != [] {
      StaysIs(u, pc[..|pc| - 1]);
    }
  }

  // ---------------------------------------------------------------------------
  // What every state keeps
  // ---------------------------------------------------------------------------

  ghost predicate Paced(u: Setup, s: State<Memory>) {
    Inv(Program(u), s) && forall p :: 0 <= p < 2 * u.n ==> s.pc[p] <= 6 * u.m
  }

  lemma HeldHere(u: Setup, s: State<Memory>, k: nat)
    requires Paced(u, s) && k < 3
    ensures forall p :: 0 <= p < 2 * u.n ==> HeldBy(Program(u), k)(p, s.pc[p]) == HeldClosed(u, k, p, s.pc[p])
  {
    forall p | 0 <= p < 2 * u.n ensures HeldBy(Program(u), k)(p, s.pc[p]) == HeldClosed(u, k, p, s.pc[p]) {
      HeldIs(u, k, p, s.pc[p]);
    }
  }

  lemma MutualExclusion(u: Setup, s: State<Memory>, p: nat, q: nat)
    requires Paced(u, s) && p < 2 * u.n && q < 2 * u.n && p != q
    ensures !(Inside(s.pc[p]) && Inside(s.pc[q]))
  {
    HeldHere(u, s, 2);
    Units(Program(u), s, 2);
    if p < q {
      SumTwo(HeldBy(Program(u), 2), s.pc, p, q);
    } else {
      SumTwo(HeldBy(Program(u), 2), s.pc, q, p);
    }
  }

  lemma Rounding(i: nat)
    ensures i / 6 <= (i + 2) / 6 <= (i + 5) / 6
    ensures 2 <= i % 6 <= 3 ==> (i + 5) / 6 == (i + 2) / 6 + 1
  {
  }

  /** The queue never holds more than `cap` messages nor fewer than none; while a
      writer is about to store there is room for one more, and while a reader is
      about to clear there is one to take. */
  lemma Bounds(u: Setup, s: State<Memory>)
    requires Paced(u, s)
    ensures 0 <= Sum(Stays(u), s.pc) <= u.cap
    ensures forall p :: 0 <= p < 2 * u.n && 2 <= s.pc[p] % 6 <= 3 ==>
              if Writer(u, p) then Sum(Stays(u), s.pc) + 1 <= u.cap else 1 <= Sum(Stays(u), s.pc)
  {
    hide Sum;
    forall p | 0 <= p < 2 * u.n
      ensures Stays(u)(p, s.pc[p]) <= HeldBy(Program(u), 0)(p, s.pc[p])
      ensures -Stays(u)(p, s.pc[p]) <= HeldBy(Program(u), 1)(p, s.pc[p])
    {
      HeldIs(u, 0, p, s.pc[p]);
      HeldIs(u, 1, p, s.pc[p]);
      Rounding(s.pc[p]);
    }
    Units(Program(u), s, 0);
    Units(Program(u), s, 1);
    SumLe(Stays(u), HeldBy(Program(u), 0), s.pc);
    SumLe(Goes(u), HeldBy(Program(u), 1), s.pc);
    GoesIs(u, s.pc);
    forall p | 0 <= p < 2 * u.n && 2 <= s.pc[p] % 6 <= 3
      ensures if Writer(u, p) then Sum(Stays(u), s.pc) + 1 <= u.cap else 1 <= Sum(Stays(u), s.pc)
    {
      HeldIs(u, 0, p, s.pc[p]);
      HeldIs(u, 1, p, s.pc[p]);
      Rounding(s.pc[p]);
      if Writer(u, p) {
        SumLt(Stays(u), HeldBy(Program(u), 0), s.pc, p, 1);
      } else {
        SumLt(Goes(u), HeldBy(Program(u), 1), s.pc, p, 1);
      }
    }
  }

  function Goes(u: Setup): (nat, nat) -> int {
    (p: nat, i: nat) => -Stays(u)(p, i)
  }

  lemma {:induction false} GoesIs(u: Setup, pc: seq<nat>)
    ensures Sum(Goes(u), pc) == -Sum(Stays(u), pc)
    decreases |pc|
  {
    if pc != [] {
      GoesIs(u, pc[..|pc| - 1]);
    }
  }

  function ReadCount(u: Setup, s: State<Memory>): int { Sum(Gets(u), s.pc) }

  /** A process that has changed its slot but not yet moved the index. */
  predicate Pending(i: nat) { i % 6 == 3 }

  /** What the slots hold: the unread log, plus the message of a writer that has
      stored it, minus the message a reader has cleared. */
  ghost predicate SlotsOk(u: Setup, s: State<Memory>) {
    && 0 <= ReadCount(u, s)
    && ((forall p :: 0 <= p < |s.pc| ==> !Pending(s.pc[p])) ==>
          Ring.Holds(s.mem.queue, s.mem.sent, ReadCount(u, s)))
    && (forall p :: 0 <= p < |s.pc| && Pending(s.pc[p]) ==>
          if Writer(u, p) then Ring.Holds(s.mem.queue, s.mem.sent + [Message(p, s.pc[p])], ReadCount(u, s))
          else Ring.Holds(s.mem.queue, s.mem.sent, ReadCount(u, s) + 1))
  }

  ghost predicate IndicesOk(u: Setup, s: State<Memory>) {
    && |s.mem.queue| == u.cap + 1
    && |s.mem.sent| == Sum(Puts(u), s.pc)
    && 0 <= ReadCount(u, s)
    && s.mem.tail == Ring.Slot(|s.mem.sent|, u.cap + 1)
    && s.mem.head == Ring.Slot(ReadCount(u, s), u.cap + 1)
  }

  ghost predicate Good(u: Setup, s: State<Memory>) {
    Paced(u, s) && IndicesOk(u, s) && SlotsOk(u, s)
  }

  /** The queue the program implements: the messages sent and not yet taken. */
  function Unread(u: Setup, s: State<Memory>): seq<int>
    requires 0 <= ReadCount(u, s) <= |s.mem.sent|
  {
    s.mem.sent[ReadCount(u, s)..]
  }

  // ---------------------------------------------------------------------------
  // Every step
  // ---------------------------------------------------------------------------

  lemma OnlyStatementsCount(u: Setup)
    ensures OnlyActs(Program(u), Puts(u)) && OnlyActs(Program(u), Gets(u))
  {
    var sys := Program(u);
    forall p: nat, i: nat | sys.code(p, i).Down? || sys.code(p, i).Up?
      ensures Puts(u)(p, i + 1) == Puts(u)(p, i) && Gets(u)(p, i + 1) == Gets(u)(p, i)
    {
      assert sys.code(p, i) == Code(u, p, i);
      NotAStatement(u, p, i);
    }
  }

  lemma NotAStatement(u: Setup, p: nat, i: nat)
    requires Code(u, p, i).Down? || Code(u, p, i).Up?
    ensures (i + 3) / 6 == (i + 2) / 6
  {
  }

  lemma PacedStep(u: Setup, s: State<Memory>, p: nat)
    requires Paced(u, s) && CanStep(Program(u), s, p)
    ensures Paced(u, Step(Program(u), s, p))
  {
    var sys := Program(u);
    ProgramWellFormed(u);
    StepInv(sys, s, p);
    forall q | 0 <= q < 2 * u.n ensures Step(sys, s, p).pc[q] <= 6 * u.m {
      StepMoves(sys, s, p, q);
      assert At(sys, s, q) == Code(u, q, s.pc[q]);
    }
  }

  lemma QuietPending(u: Setup, s: State<Memory>, p: nat, q: nat)
    requires Paced(u, s) && CanStep(Program(u), s, p) && !At(Program(u), s, p).Act? && q < 2 * u.n
    ensures var s' := Step(Program(u), s, p);
            (Pending(s'.pc[q]) <==> Pending(s.pc[q])) && (Pending(s.pc[q]) ==> s'.pc[q] == s.pc[q])
  {
    var sys := Program(u);
    StepMoves(sys, s, p, q);
    assert At(sys, s, q) == Code(u, q, s.pc[q]) && At(sys, s, p) == Code(u, p, s.pc[p]);
    Sixths(s.pc[q] + 1);
  }

  /** A semaphore call changes neither the ring nor the counts. */
  lemma QuietStep(u: Setup, s: State<Memory>, p: nat)
    requires Good(u, s) && CanStep(Program(u), s, p) && !At(Program(u), s, p).Act?
    ensures Good(u, Step(Program(u), s, p))
    ensures var s' := Step(Program(u), s, p);
            s'.mem == s.mem && ReadCount(u, s') == ReadCount(u, s)
  {
    var sys := Program(u);
    var s' := Step(sys, s, p);
    PacedStep(u, s, p);
    OnlyStatementsCount(u);
    StepSum(sys, s, p, Puts(u));
    StepSum(sys, s, p, Gets(u));
    StepMoves(sys, s, p, p);
    forall q | 0 <= q < 2 * u.n
      ensures Pending(s'.pc[q]) <==> Pending(s.pc[q])
      ensures Pending(s.pc[q]) ==> s'.pc[q] == s.pc[q]
    {
      QuietPending(u, s, p, q);
    }
  }

  lemma CountsMove(u: Setup, p: nat, i: nat)
    ensures Puts(u)(p, i + 1) == Puts(u)(p, i) + if Writer(u, p) && i % 6 == 3 then 1 else 0
    ensures Gets(u)(p, i + 1) == Gets(u)(p, i) + if !Writer(u, p) && i % 6 == 3 then 1 else 0
  {
    assert (i + 3) / 6 == (i + 2) / 6 + if i % 6 == 3 then 1 else 0;
  }

  lemma OthersNotPending(u: Setup, s: State<Memory>, p: nat)
    requires Paced(u, s) && p < 2 * u.n && Inside(s.pc[p])
    ensures forall q :: 0 <= q < 2 * u.n && q != p ==> !Pending(s.pc[q])
  {
    forall q | 0 <= q < 2 * u.n && q != p ensures !Pending(s.pc[q]) {
      MutualExclusion(u, s, p, q);
    }
  }

  /** A statement: only `p` moves, and the counts with it. */
  lemma LoudStep(u: Setup, s: State<Memory>, p: nat)
    requires Paced(u, s) && CanStep(Program(u), s, p) && At(Program(u), s, p).Act?
    ensures var s' := Step(Program(u), s, p);
            && 2 <= s.pc[p] % 6 <= 3 && s'.pc == s.pc[p := s.pc[p] + 1]
            && s'.mem == Statement(u, p, s.pc[p], s.mem)
            && Sum(Puts(u), s'.pc) == Sum(Puts(u), s.pc) + (if Writer(u, p) && s.pc[p] % 6 == 3 then 1 else 0)
            && ReadCount(u, s') == ReadCount(u, s) + (if !Writer(u, p) && s.pc[p] % 6 == 3 then 1 else 0)
  {
    StepMoves(Program(u), s, p, p);
    assert At(Program(u), s, p) == Code(u, p, s.pc[p]);
    SumUpdate(Puts(u), s.pc, p, s.pc[p] + 1);
    SumUpdate(Gets(u), s.pc, p, s.pc[p] + 1);
    CountsMove(u, p, s.pc[p]);
  }

  lemma OnePending(u: Setup, s: State<Memory>, p: nat)
    requires p < |s.pc| && Pending(s.pc[p]) && 0 <= ReadCount(u, s)
    requires forall q :: 0 <= q < |s.pc| && q != p ==> !Pending(s.pc[q])
    requires if Writer(u, p) then Ring.Holds(s.mem.queue, s.mem.sent + [Message(p, s.pc[p])], ReadCount(u, s))
             else Ring.Holds(s.mem.queue, s.mem.sent, ReadCount(u, s) + 1)
    ensures SlotsOk(u, s)
  {
  }

  /** The first statement of a call changes one slot. */
  lemma SlotStep(u: Setup, s: State<Memory>, p: nat)
    requires Good(u, s) && CanStep(Program(u), s, p) && At(Program(u), s, p).Act? && s.pc[p] % 6 == 2
    ensures IndicesOk(u, Step(Program(u), s, p)) && SlotsOk(u, Step(Program(u), s, p))
  {
    LoudStep(u, s, p);
    OthersNotPending(u, s, p);
    RoomForIt(u, s, p);
    assert Ring.Holds(s.mem.queue, s.mem.sent, ReadCount(u, s));
    if Writer(u, p) {
      Ring.Store(s.mem.queue, s.mem.sent, ReadCount(u, s), Message(p, s.pc[p]));
    } else {
      Ring.Clear(s.mem.queue, s.mem.sent, ReadCount(u, s));
    }
    SamePlace(p, s.pc[p]);
    OnePending(u, Step(Program(u), s, p), p);
  }

  lemma SamePlace(p: nat, i: nat)
    requires i % 6 == 2
    ensures Message(p, i + 1) == Message(p, i) && Pending(i + 1)
  {
  }

  lemma RoomForIt(u: Setup, s: State<Memory>, p: nat)
    requires Paced(u, s) && IndicesOk(u, s) && p < 2 * u.n && 2 <= s.pc[p] % 6 <= 3
    ensures if Writer(u, p) then |s.mem.sent| < ReadCount(u, s) + u.cap else ReadCount(u, s) < |s.mem.sent|
  {
    Bounds(u, s);
    StaysIs(u, s.pc);
  }

  lemma NonePending(u: Setup, s: State<Memory>)
    requires forall q :: 0 <= q < |s.pc| ==> !Pending(s.pc[q])
    requires 0 <= ReadCount(u, s) && Ring.Holds(s.mem.queue, s.mem.sent, ReadCount(u, s))
    ensures SlotsOk(u, s)
  {
  }

  lemma IndexMoves(u: Setup, p: nat, i: nat, q: Memory, r: nat)
    requires i % 6 == 3 && |q.queue| == u.cap + 1
    requires q.tail == Ring.Slot(|q.sent|, u.cap + 1) && q.head == Ring.Slot(r, u.cap + 1)
    ensures var q' := Statement(u, p, i, q);
            && q'.queue == q.queue && q'.sent == (if Writer(u, p) then q.sent + [Message(p, i)] else q.sent)
            && q'.tail == Ring.Slot(|q'.sent|, u.cap + 1)
            && q'.head == Ring.Slot(if Writer(u, p) then r else r + 1, u.cap + 1)
  {
    Ring.ModNext(|q.sent|, u.cap + 1);
    Ring.ModNext(r, u.cap + 1);
  }

  /** The second moves the index over it. */
  lemma IndexStep(u: Setup, s: State<Memory>, p: nat)
    requires Good(u, s) && CanStep(Program(u), s, p) && At(Program(u), s, p).Act? && s.pc[p] % 6 == 3
    ensures IndicesOk(u, Step(Program(u), s, p)) && SlotsOk(u, Step(Program(u), s, p))
  {
    hide Step, Paced, Ring.Holds, Ring.Slot, Statement, Sum;
    var s' := Step(Program(u), s, p);
    LoudStep(u, s, p);
    OthersNotPending(u, s, p);
    assert Pending(s.pc[p]) && !Pending(s.pc[p] + 1);
    IndexMoves(u, p, s.pc[p], s.mem, ReadCount(u, s));
    assert Ring.Holds(s'.mem.queue, s'.mem.sent, ReadCount(u, s'));
    NonePending(u, s');
  }

  lemma GoodStep(u: Setup, s: State<Memory>, p: nat)
    requires Good(u, s) && CanStep(Program(u), s, p)
    ensures Good(u, Step(Program(u), s, p))
  {
    if At(Program(u), s, p).Act? {
      PacedStep(u, s, p);
      LoudStep(u, s, p);
      if s.pc[p] % 6 == 2 {
        SlotStep(u, s, p);
      } else {
        IndexStep(u, s, p);
      }
    } else {
      QuietStep(u, s, p);
    }
  }

  lemma {:induction false} RunIsGood(u: Setup, ss: seq<State<Memory>>, ps: seq<nat>, i: nat)
    requires Run(Program(u), ss, ps) && ss[0].mem == Fresh(u) && i < |ss|
    ensures Good(u, ss[i])
  {
    var sys := Program(u);
    if i == 0 {
      StartInv(sys, ss[0].mem);
      SumZero(Puts(u), 2 * u.n);
      SumZero(Gets(u), 2 * u.n);
    } else {
      RunIsGood(u, ss, ps, i - 1);
      assert Follows(sys, ss, ps, i - 1);
      GoodStep(u, ss[i - 1], ps[i - 1]);
    }
  }

  // ---------------------------------------------------------------------------
  // The theorems
  // ---------------------------------------------------------------------------

  lemma WithinCapacity(u: Setup, s: State<Memory>)
    requires Paced(u, s) && IndicesOk(u, s)
    ensures 0 <= ReadCount(u, s) <= |s.mem.sent| <= ReadCount(u, s) + u.cap
  {
    Bounds(u, s);
    StaysIs(u, s.pc);
  }

  predicate Readable(u: Setup, s: State<Memory>) { 0 <= ReadCount(u, s) <= |s.mem.sent| }

  /** The instruction of `p` appends its message to the unread ones, takes the oldest of
      them, or leaves them alone. */
  predicate FifoMove(u: Setup, s: State<Memory>, s': State<Memory>, p: nat)
    requires Readable(u, s) && Readable(u, s') && p < |s.pc|
  {
    var moves := At(Program(u), s, p).Act? && s.pc[p] % 6 == 3;
    if moves && Writer(u, p) then Unread(u, s') == Unread(u, s) + [Message(p, s.pc[p])]
    else if moves then Unread(u, s) != [] && Unread(u, s') == Unread(u, s)[1..]
    else Unread(u, s') == Unread(u, s)
  }

  /** The abstract queue across a step: appended to, taken from, or left alone. */
  lemma FifoStep(u: Setup, s: State<Memory>, p: nat)
    requires Good(u, s) && CanStep(Program(u), s, p)
    requires Readable(u, s) && Readable(u, Step(Program(u), s, p))
    ensures FifoMove(u, s, Step(Program(u), s, p), p)
  {
    if At(Program(u), s, p).Act? {
      LoudStep(u, s, p);
    } else {
      QuietStep(u, s, p);
    }
  }

  /** In every state of every run the program is a first-in first-out queue of at
      most `cap` messages: the next instruction of a process appends its message
      to the unread ones, takes the oldest of them, or leaves them alone. */
  lemma IsBoundedFifo(u: Setup, ss: seq<State<Memory>>, ps: seq<nat>, i: nat)
    requires Run(Program(u), ss, ps) && ss[0].mem == Fresh(u) && i < |ps|
    ensures Readable(u, ss[i]) && Readable(u, ss[i + 1])
    ensures |Unread(u, ss[i])| <= u.cap && ps[i] < |ss[i].pc|
    ensures FifoMove(u, ss[i], ss[i + 1], ps[i])
  {
    RunIsGood(u, ss, ps, i);
    RunIsGood(u, ss, ps, i + 1);
    assert Follows(Program(u), ss, ps, i);
    WithinCapacity(u, ss[i]);
    WithinCapacity(u, ss[i + 1]);
    FifoStep(u, ss[i], ps[i]);
  }

  /** A writer never stores over a message that is still unread, and a reader
      always clears the slot of the oldest one. */
  lemma RightSlot(u: Setup, ss: seq<State<Memory>>, ps: seq<nat>, i: nat, p: nat, l: nat)
    requires Run(Program(u), ss, ps) && ss[0].mem == Fresh(u) && i < |ss| && p < 2 * u.n
    requires Shaped(Program(u), ss[i]) && ss[i].pc[p] % 6 == 2
    ensures var r := ReadCount(u, ss[i]);
            && 0 <= r <= |ss[i].mem.sent|
            && if Writer(u, p) then r <= l < |ss[i].mem.sent| ==> Ring.Slot(l, u.cap + 1) != ss[i].mem.tail
               else Unread(u, ss[i]) != [] && ss[i].mem.head < |ss[i].mem.queue|
                    && ss[i].mem.queue[ss[i].mem.head] == Unread(u, ss[i])[0]
  {
    var s := ss[i];
    RunIsGood(u, ss, ps, i);
    Bounds(u, s);
    StaysIs(u, s.pc);
    forall q | 0 <= q < 2 * u.n ensures !Pending(s.pc[q]) {
      if q != p {
        MutualExclusion(u, s, p, q);
      }
    }
    if Writer(u, p) && ReadCount(u, s) <= l < |s.mem.sent| {
      Ring.ModApart(l, |s.mem.sent|, u.cap + 1);
    }
  }

  // ---------------------------------------------------------------------------
  // The end of a run
  // ---------------------------------------------------------------------------

  lemma StuckAt(u: Setup, s: State<Memory>, p: nat)
    requires Paced(u, s) && Stuck(Program(u), s) && p < 2 * u.n
    ensures !Inside(s.pc[p])
    ensures || s.pc[p] == 6 * u.m
            || (s.pc[p] % 6 == 0 && s.sems[if Writer(u, p) then 0 else 1].count == 0)
            || (s.pc[p] % 6 == 1 && s.sems[2].count == 0)
  {
    StuckMeans(Program(u), s, p);
    assert At(Program(u), s, p) == Code(u, p, s.pc[p]);
  }

  lemma MutexFree(u: Setup, s: State<Memory>)
    requires Paced(u, s) && forall p :: 0 <= p < 2 * u.n ==> !Inside(s.pc[p])
    ensures s.sems[2].count == 1
  {
    HeldHere(u, s, 2);
    Units(Program(u), s, 2);
    SumConst(HeldBy(Program(u), 2), s.pc, 0);
  }

  /** In a stuck state nobody is inside, and so nobody waits for the mutex. */
  lemma StuckBetween(u: Setup, s: State<Memory>)
    requires Paced(u, s) && Stuck(Program(u), s)
    ensures forall p :: 0 <= p < 2 * u.n ==>
              s.pc[p] % 6 == 0 && (s.pc[p] == 6 * u.m || s.sems[if Writer(u, p) then 0 else 1].count == 0)
  {
    forall p | 0 <= p < 2 * u.n ensures !Inside(s.pc[p]) {
      StuckAt(u, s, p);
    }
    MutexFree(u, s);
    forall p | 0 <= p < 2 * u.n
      ensures s.pc[p] % 6 == 0 && (s.pc[p] == 6 * u.m || s.sems[if Writer(u, p) then 0 else 1].count == 0)
    {
      StuckAt(u, s, p);
    }
  }

  /** Then both counts say how many messages there are. */
  lemma CountsBetween(u: Setup, s: State<Memory>)
    requires Paced(u, s) && forall p :: 0 <= p < 2 * u.n ==> s.pc[p] % 6 == 0
    ensures s.sems[0].count == u.cap - Sum(Stays(u), s.pc) && s.sems[1].count == Sum(Stays(u), s.pc)
  {
    forall p | 0 <= p < 2 * u.n
      ensures Stays(u)(p, s.pc[p]) == HeldBy(Program(u), 0)(p, s.pc[p]) == -HeldBy(Program(u), 1)(p, s.pc[p])
    {
      HeldIs(u, 0, p, s.pc[p]);
      HeldIs(u, 1, p, s.pc[p]);
    }
    Units(Program(u), s, 0);
    Units(Program(u), s, 1);
    SumLe(Stays(u), HeldBy(Program(u), 0), s.pc);
    SumLe(HeldBy(Program(u), 0), Stays(u), s.pc);
    SumLe(Goes(u), HeldBy(Program(u), 1), s.pc);
    SumLe(HeldBy(Program(u), 1), Goes(u), s.pc);
    GoesIs(u, s.pc);
  }

  function Most(u: Setup, lo: nat, hi: nat): (nat, nat) -> int {
    (p: nat, i: nat) => if lo <= p < hi then u.m else 0
  }

  /** All `n` writers together put `n * m` messages, and no fewer once done. */
  lemma Totals(u: Setup, s: State<Memory>)
    requires Paced(u, s)
    ensures Sum(Puts(u), s.pc) <= u.n * u.m && Sum(Gets(u), s.pc) <= u.n * u.m
    ensures (forall p :: 0 <= p < u.n ==> s.pc[p] == 6 * u.m) ==> Sum(Puts(u), s.pc) == u.n * u.m
    ensures (forall p :: u.n <= p < 2 * u.n ==> s.pc[p] == 6 * u.m) ==> Sum(Gets(u), s.pc) == u.n * u.m
  {
    TimesIs(u.n, u.m);
    SumPart(Puts(u), s.pc, 0, u.n, u.m);
    SumPart(Gets(u), s.pc, u.n, 2 * u.n, u.m);
  }

  lemma BelowMost(u: Setup, f: (nat, nat) -> int, pc: seq<nat>, lo: nat, hi: nat, p: nat)
    requires lo <= p < hi <= |pc| && f(p, pc[p]) < u.m
    requires forall q :: 0 <= q < |pc| ==> f(q, pc[q]) <= if lo <= q < hi then u.m else 0
    ensures Sum(f, pc) < (hi - lo) * u.m
  {
    hide Sum;
    TimesIs(hi - lo, u.m);
    SumPart(Most(u, lo, hi), pc, lo, hi, u.m);
    SumLt(f, Most(u, lo, hi), pc, p, 1);
  }

  lemma NotYet(u: Setup, s: State<Memory>, p: nat)
    requires Paced(u, s) && p < 2 * u.n && s.pc[p] % 6 == 0 && s.pc[p] < 6 * u.m
    ensures if Writer(u, p) then Sum(Puts(u), s.pc) < u.n * u.m else Sum(Gets(u), s.pc) < u.n * u.m
  {
    hide Sum;
    assert |s.pc| == 2 * u.n;
    if Writer(u, p) {
      BelowMost(u, Puts(u), s.pc, 0, u.n, p);
    } else {
      BelowMost(u, Gets(u), s.pc, u.n, 2 * u.n, p);
    }
  }

  lemma StuckIsDone(u: Setup, s: State<Memory>)
    requires u.cap > 0 && Paced(u, s) && Stuck(Program(u), s)
    ensures forall p :: 0 <= p < 2 * u.n ==> s.pc[p] == 6 * u.m
  {
    StuckBetween(u, s);
    CountsBetween(u, s);
    StaysIs(u, s.pc);
    Totals(u, s);
    forall p | 0 <= p < 2 * u.n ensures s.pc[p] == 6 * u.m {
      if s.pc[p] != 6 * u.m {
        NotYet(u, s, p);
      }
    }
  }

  /** With room for a message, a run that can go no further has delivered every
      message: head and tail meet and all slots are zero. */
  lemma MaximalRunEmptiesQueue(u: Setup, ss: seq<State<Memory>>, ps: seq<nat>)
    requires u.cap > 0 && Run(Program(u), ss, ps) && ss[0].mem == Fresh(u)
    requires Shaped(Program(u), ss[|ps|]) && Stuck(Program(u), ss[|ps|])
    ensures var q := ss[|ps|].mem;
            && |q.sent| == u.n * u.m && q.head == q.tail
            && |q.queue| == u.cap + 1 && forall i :: 0 <= i < |q.queue| ==> q.queue[i] == 0
  {
    var s := ss[|ps|];
    RunIsGood(u, ss, ps, |ps|);
    StuckIsDone(u, s);
    Totals(u, s);
    assert forall p :: 0 <= p < |s.pc| ==> !Pending(s.pc[p]);
    forall i | 0 <= i < |s.mem.queue| ensures s.mem.queue[i] == 0 {
      Ring.Empty(s.mem.queue, s.mem.sent, i);
    }
  }

  /** And every run ends. */
  lemma RunsAreFinite(u: Setup, ss: seq<State<Memory>>, ps: seq<nat>)
    requires Run(Program(u), ss, ps) && ss[0].mem == Fresh(u)
    ensures |ps| <= 2 * (2 * u.n * (6 * u.m)) + 2 * u.n
  {
    RunIsGood(u, ss, ps, |ps|);
    RunLength(Program(u), ss, ps);
    SumConst(Pcs(), ss[|ps|].pc, 6 * u.m);
  }
}
