/** The kernel's counting semaphore: its value-level transition functions, the
    object that runs them in place, and the ledger it refines. */
module Semaphores {
  import opened Basics

  /** What an operation on a semaphore reports to the system call that made it. */
  datatype SemResult = Ok | NotExist | Block(pid: Pid) | WakeUp(pid: Pid)

  datatype Sem = Sem(count: nat, queue: seq<Pid>)

  function NewSem(value: nat): Sem { Sem(value, []) }

  function WaitSem(s: Sem, pid: Pid): (Sem, SemResult) {
    if s.count == 0 then (s.(queue := s.queue + [pid]), Block(pid))
    else (s.(count := s.count - 1), Ok)
  }

  function SignalSem(s: Sem): (Sem, SemResult) {
    if s.queue != [] then (s.(queue := s.queue[1..]), WakeUp(s.queue[0]))
    else (s.(count := s.count + 1), Ok)
  }

  /** The semaphore object: a count and a queue of waiting processes, both
      changed in place. */
  class Semaphore {
    var count: nat
    var waitQueue: seq<Pid>

    function Value(): Sem reads this { Sem(count, waitQueue) }

    constructor (value: nat)
      ensures Value() == NewSem(value)
    {
      count, waitQueue := value, [];
    }

    method Wait(pid: Pid) returns (r: SemResult)
      modifies this
      ensures (Value(), r) == WaitSem(old(Value()), pid)
    {
      if count == 0 {
        waitQueue := waitQueue + [pid];
        r := Block(pid);
      } else {
        count := count - 1;
        r := Ok;
      }
    }

    method Signal() returns (r: SemResult)
      modifies this
      ensures (Value(), r) == SignalSem(old(Value()))
    {
      if waitQueue != [] {
        var pid := waitQueue[0];
        waitQueue := waitQueue[1..];
        r := WakeUp(pid);
      } else {
        count := count + 1;
        r := Ok;
      }
    }
  }

  // ---------------------------------------------------------------------------
  // The ledger: a semaphore as nothing but its history.  Every request is
  // recorded in arrival order, and with `Units` units issued so far exactly the
  // first `Units` requests have been granted.
  // ---------------------------------------------------------------------------

  datatype Ledger = Ledger(initial: nat, signals: nat, requests: seq<Pid>) {
    function Units(): nat { initial + signals }

    function Granted(): nat { if |requests| <= Units() then |requests| else Units() }
  }

  function Request(l: Ledger, pid: Pid): Ledger { l.(requests := l.requests + [pid]) }

  function Issue(l: Ledger): Ledger { l.(signals := l.signals + 1) }

  /** `s` is the running state of a semaphore with history `l`. */
  ghost predicate Tracks(s: Sem, l: Ledger) {
    && s.count == l.Units() - l.Granted()
    && s.queue == l.requests[l.Granted()..]
  }

  datatype SemOp = Wait(pid: Pid) | Signal

  function ApplySem(s: Sem, op: SemOp): (Sem, SemResult) {
    match op case Wait(pid) => WaitSem(s, pid) case Signal => SignalSem(s)
  }

  function ApplyLedger(l: Ledger, op: SemOp): Ledger {
    match op case Wait(pid) => Request(l, pid) case Signal => Issue(l)
  }

  function RunSem(s: Sem, ops: seq<SemOp>): Sem
    decreases |ops|
  {
    if ops == [] then s else RunSem(ApplySem(s, ops[0]).0, ops[1..])
  }

  function RunLedger(l: Ledger, ops: seq<SemOp>): Ledger
    decreases |ops|
  {
    if ops == [] then l else RunLedger(ApplyLedger(l, ops[0]), ops[1..])
  }

  /** One operation keeps the semaphore in step with its ledger, and its result
      tells exactly which request, if any, the operation granted. */
  lemma SemStepTracks(s: Sem, l: Ledger, op: SemOp)
    requires Tracks(s, l)
    ensures Tracks(ApplySem(s, op).0, ApplyLedger(l, op))
    ensures match op
            case Wait(pid) =>
              && (ApplySem(s, op).1 == Ok <==> l.Granted() == |l.requests| < l.Units())
              && (ApplySem(s, op).1 == Block(pid) <==> l.Units() <= |l.requests|)
            case Signal =>
              && (ApplySem(s, op).1 == Ok <==> |l.requests| <= l.Units())
              && (l.Units() < |l.requests| <==> ApplySem(s, op).1.WakeUp?)
              && (l.Units() < |l.requests| ==> ApplySem(s, op).1.pid == l.requests[l.Units()])
  {
    var l' := ApplyLedger(l, op);
    match op
    case Wait(pid) =>
      assert l'.requests[l.Granted()..] == l.requests[l.Granted()..] + [pid];
    case Signal =>
      if l.Units() < |l.requests| {
        assert l'.requests[l'.Granted()..] == l.requests[l.Granted()..][1..];
      }
  }

  lemma {:induction false} RunTracks(s: Sem, l: Ledger, ops: seq<SemOp>)
    requires Tracks(s, l)
    ensures Tracks(RunSem(s, ops), RunLedger(l, ops))
    decreases |ops|
  {
    if ops != [] {
      SemStepTracks(s, l, ops[0]);
      RunTracks(ApplySem(s, ops[0]).0, ApplyLedger(l, ops[0]), ops[1..]);
    }
  }

  function Requests(ops: seq<SemOp>): seq<Pid> {
    if ops == [] then []
    else (if ops[0].Wait? then [ops[0].pid] else []) + Requests(ops[1..])
  }

  function Signals(ops: seq<SemOp>): nat {
    if ops == [] then 0 else (if ops[0].Signal? then 1 else 0) + Signals(ops[1..])
  }

  lemma {:induction false} RunLedgerIs(l: Ledger, ops: seq<SemOp>)
    ensures RunLedger(l, ops)
         == Ledger(l.initial, l.signals + Signals(ops), l.requests + Requests(ops))
    decreases |ops|
  {
    if ops == [] {
      assert l.requests + Requests(ops) == l.requests;
    } else {
      var l' := ApplyLedger(l, ops[0]);
      RunLedgerIs(l', ops[1..]);
      var now := if ops[0].Wait? then [ops[0].pid] else [];
      assert l.requests + (now + Requests(ops[1..])) == (l.requests + now) + Requests(ops[1..]);
      assert l'.requests == l.requests + now;
    }
  }

  /** Every history of a semaphore: a positive count means nobody waits, the
      grants are the oldest requests in arrival order, and grants plus count
      equal the initial value plus the signals. */
  lemma HistoryOfSemaphore(value: nat, ops: seq<SemOp>)
    ensures var s := RunSem(NewSem(value), ops);
            var requests := Requests(ops);
            && |s.queue| <= |requests|
            && var granted := |requests| - |s.queue|;
               && granted + s.count == value + Signals(ops)
               && requests == requests[..granted] + s.queue
               && (s.count > 0 ==> s.queue == [])
  {
    var l := Ledger(value, 0, []);
    RunTracks(NewSem(value), l, ops);
    RunLedgerIs(l, ops);
    assert RunLedger(l, ops).requests == Requests(ops);
  }
}
