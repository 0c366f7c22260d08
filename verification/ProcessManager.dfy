/** The process manager as objects changed in place, each method proved against
    the function of module `Kernel` that it runs.  The trap frame is passed in
    and handed back. */
module ProcessManagers {
  import opened Basics
  import opened Semaphores
  import opened K = Kernel
  import opened KernelInvariant

  class Process {
    const pid: Pid
    var status: Status
    var ticks: nat
    var exitCode: Option<Code>
    var context: Context
    var parent: Option<Pid>
    var children: seq<Pid>
    var data: Option<Pid>
    var stackMin: Option<nat>

    function Value(): Proc
      reads this
    {
      Proc(status, ticks, exitCode, context, parent, children, data, stackMin)
    }

    constructor (pid: Pid, p: Proc)
      ensures this.pid == pid && Value() == p
    {
      this.pid := pid;
      status, ticks, exitCode, context := p.status, p.ticks, p.exitCode, p.context;
      parent, children, data, stackMin := p.parent, p.children, p.data, p.stackMin;
    }

    method Pause()
      modifies this
      ensures Value() == old(Value()).(status := Ready)
    {
      status := Ready;
    }

    method Tick()
      modifies this
      ensures Value() == old(Value()).(ticks := old(ticks) + 1)
    {
      ticks := ticks + 1;
    }

    /** A save by the manager also counts a tick. */
    method TickAndSave(c: Context)
      modifies this
      ensures Value() == Save(old(Value()).(ticks := old(ticks) + 1), c)
    {
      Tick();
      SaveContext(c);
    }

    method SaveContext(c: Context)
      modifies this
      ensures Value() == Save(old(Value()), c)
    {
      if !status.Dead? {
        context := c;
        Pause();
      }
    }

    /** `None` is the panic on a process that has lost its address space. */
    method Restore() returns (c: Option<Context>)
      modifies this
      ensures c == if old(stackMin).Some? then Some(old(context)) else None
      ensures Value() == if c.Some? then old(Value()).(status := Running) else old(Value())
    {
      if stackMin.None? {
        return None;
      }
      status := Running;
      c := Some(context);
    }

    method Kill(ret: Code)
      modifies this
      ensures Value() == Killed(old(Value()), ret)
    {
      exitCode := Some(ret);
      status := Dead;
      stackMin := None;
      data := None;
    }

    /** The child shares the parent's data; the parent records it and gets its pid. */
    method Fork(childPid: Pid, childMin: nat) returns (child: Process)
      modifies this
      ensures fresh(child) && child.pid == childPid && child.Value() == ChildOf(old(Value()), pid, childMin)
      ensures Value() == old(Value()).(children := old(children) + [childPid],
                                       context := old(context).(rax := childPid))
    {
      var childContext := context;
      childContext := childContext.(sp := ChildSp(context.sp, childMin));
      childContext := childContext.(rax := 0);
      child := new Process(childPid, Proc(Ready, 0, None, childContext, Some(pid), [], data, Some(childMin)));
      children := children + [childPid];
      context := context.(rax := childPid);
      child.Pause();
    }
  }

  /** The semaphores of all families, each an object of its own. */
  class SemaphoreSet {
    var sems: map<SemId, Semaphore>

    /** The values of the semaphores, kept beside the objects. */
    ghost var values: map<SemId, Sem>
    ghost var Repr: set<Semaphore>

    ghost predicate Holds()
      reads this, Repr
    {
      && sems.Keys == values.Keys
      && (forall a, b :: a in sems && b in sems && a != b ==> sems[a] != sems[b])
      && forall id <- sems :: sems[id] in Repr && sems[id].Value() == values[id]
    }

    constructor ()
      ensures Holds() && fresh(Repr) && values == map[]
    {
      sems, values, Repr := map[], map[], {};
    }

    method Insert(id: SemId, value: nat) returns (isNew: bool)
      requires Holds()
      modifies this
      ensures Holds() && fresh(Repr - old(Repr))
      ensures isNew == (id !in old(values)) && values == old(values)[id := NewSem(value)]
    {
      isNew := id !in sems;
      var s := new Semaphore(value);
      sems := sems[id := s];
      values := values[id := NewSem(value)];
      Repr := Repr + {s};
    }

    method Remove(id: SemId) returns (wasThere: bool)
      requires Holds()
      modifies this
      ensures Holds() && Repr == old(Repr)
      ensures wasThere == (id in old(values)) && values == old(values) - {id}
    {
      wasThere := id in sems;
      sems := sems - {id};
      values := values - {id};
    }

    method Wait(id: SemId, pid: Pid) returns (r: SemResult)
      requires Holds()
      modifies this`values, Repr
      ensures Holds() && (r.NotExist? <==> id !in old(values))
      ensures if r.NotExist? then values == old(values)
              else r == WaitSem(old(values)[id], pid).1 && values == old(values)[id := WaitSem(old(values)[id], pid).0]
    {
      if id !in sems {
        return NotExist;
      }
      r := sems[id].Wait(pid);
      values := values[id := sems[id].Value()];
    }

    method Signal(id: SemId) returns (r: SemResult)
      requires Holds()
      modifies this`values, Repr
      ensures Holds() && (r.NotExist? <==> id !in old(values))
      ensures if r.NotExist? then values == old(values)
              else r == SignalSem(old(values)[id]).1 && values == old(values)[id := SignalSem(old(values)[id]).0]
    {
      if id !in sems {
        return NotExist;
      }
      r := sems[id].Signal();
      values := values[id := sems[id].Value()];
    }
  }

  /** The queue after its first `i` entries went to the back and the next came off. */
  function Rotated(s: seq<Pid>, i: nat): seq<Pid>
    requires i < |s|
  {
    s[i + 1..] + s[..i]
  }

  lemma RotateOne(s: seq<Pid>, i: nat)
    requires i < |s|
    ensures (s[i..] + s[..i])[1..] == Rotated(s, i)
    ensures Rotated(s, i) + [s[i]] == s[i + 1..] + s[..i + 1]
  {
  }

  class ProcessManager {
    var processes: map<Pid, Process>
    var readyQueue: seq<Pid>
    var waiting: map<Pid, seq<Pid>>
    const semaphores: SemaphoreSet
    var current: Pid
    var lastPid: Pid

    /** The values of the processes, kept beside the objects. */
    ghost var procs: map<Pid, Proc>
    ghost var Repr: set<Process>

    /** The process objects hold those values; each knows its own pid, and no pid
        has been handed out twice. */
    ghost predicate ProcsHeld()
      reads this`processes, this`procs, this`Repr, this`lastPid, Repr
    {
      && processes.Keys == procs.Keys
      && (forall p <- processes :: p <= lastPid)
      && forall p <- processes ::
           processes[p] in Repr && processes[p].pid == p && processes[p].Value() == procs[p]
    }

    ghost function View(frame: Context): K.Kernel
      reads this, semaphores
    {
      K.Kernel.Kernel(procs, readyQueue, waiting, semaphores.values, current, lastPid, frame)
    }

    constructor (kernel: Process, frame: Context)
      requires kernel.pid == KERNEL_PID && kernel.status.Running? && kernel.exitCode.None?
      requires kernel.data.Some? && kernel.stackMin.Some?
      ensures Consistent() && Booted(View(frame))
    {
      processes := map[KERNEL_PID := kernel];
      procs := map[KERNEL_PID := kernel.Value()];
      readyQueue := [];
      waiting := map[];
      semaphores := new SemaphoreSet();
      Repr := {kernel};
      current := KERNEL_PID;
      lastPid := KERNEL_PID;
    }

    method PushReady(pid: Pid, ghost frame: Context)
      modifies this`readyQueue
      ensures View(frame) == K.PushReady(old(View(frame)), pid)
    {
      readyQueue := readyQueue + [pid];
    }

    method AddWaiting(pid: Pid, ghost frame: Context)
      modifies this`waiting
      ensures View(frame) == K.AddWaiting(old(View(frame)), pid)
    {
      var waiters := if pid in waiting then waiting[pid] else [];
      waiting := waiting[pid := Insert(waiters, current)];
    }

    method SaveCurrent(frame: Context)
      requires ProcsHeld() && current in processes
      modifies this`procs, processes[current]
      ensures ProcsHeld() && View(frame) == K.SaveCurrent(old(View(frame)))
    {
      var p := processes[current];
      p.TickAndSave(frame);
      procs := procs[current := p.Value()];
    }

    method BlockProc(pid: Pid, ghost frame: Context)
      requires ProcsHeld() && pid in processes
      modifies this`procs, processes[pid]
      ensures ProcsHeld() && View(frame) == K.BlockProc(old(View(frame)), pid)
    {
      var p := processes[pid];
      p.status := Blocked;
      procs := procs[pid := p.Value()];
    }

    method WakeUp(pid: Pid, ghost frame: Context)
      requires ProcsHeld() && pid in processes
      modifies this`procs, this`readyQueue, processes[pid]
      ensures ProcsHeld() && View(frame) == Wake(old(View(frame)), pid)
    {
      var p := processes[pid];
      p.Pause();
      procs := procs[pid := p.Value()];
      PushReady(pid, frame);
    }

    method Deliver(pid: Pid, ret: Code, ghost frame: Context)
      requires ProcsHeld() && pid in processes
      modifies this`procs, this`readyQueue, processes[pid]
      ensures ProcsHeld() && View(frame) == K.Deliver(old(View(frame)), pid, ret)
    {
      var p := processes[pid];
      p.context := p.context.(rax := AsWord(ret));
      procs := procs[pid := p.Value()];
      WakeUp(pid, frame);
    }

    method WakeAll(pids: seq<Pid>, ret: Code, ghost frame: Context)
      requires ProcsHeld() && forall p <- pids :: p in processes
      modifies this`procs, this`readyQueue, Repr
      ensures ProcsHeld() && View(frame) == WakeEach(old(View(frame)), pids, ret)
    {
      var i := 0;
      while i < |pids|
        invariant 0 <= i <= |pids| && ProcsHeld()
        invariant WakeEach(View(frame), pids[i..], ret) == WakeEach(old(View(frame)), pids, ret)
      {
        assert pids[i..][1..] == pids[i + 1..];
        Deliver(pids[i], ret, frame);
        i := i + 1;
      }
    }

    method WakeWaiting(ret: Code, ghost frame: Context)
      requires ProcsHeld() && forall p <- WaitersOf(View(frame), current) :: p in processes
      modifies this`procs, this`readyQueue, this`waiting, Repr
      ensures ProcsHeld() && View(frame) == K.WakeWaiting(old(View(frame)), ret)
    {
      if current in waiting {
        var pids := waiting[current];
        waiting := waiting - {current};
        WakeAll(pids, ret, frame);
      }
    }

    /** Take the first ready process off the queue; those before it go to the back.
        `None` is the panic on an empty queue or an unknown pid, and the search that
        comes round to where it began and so never ends. */
    method FetchReady(ghost frame: Context) returns (next: Option<Pid>)
      requires ProcsHeld()
      modifies this`readyQueue
      ensures var i := Scan(old(View(frame)), 0);
              && (next.Some? <==> i.Some?)
              && (i.Some? ==> next.value == old(readyQueue)[i.value] && readyQueue == Rotated(old(readyQueue), i.value))
    {
      ghost var k := View(frame);
      var i, n := 0, |readyQueue|;
      while i < n
        invariant 0 <= i <= n == |k.ready| && Scan(k, i) == Scan(k, 0)
        invariant readyQueue == k.ready[i..] + k.ready[..i]
      {
        var pid := readyQueue[0];
        readyQueue := readyQueue[1..];
        if pid !in processes {
          return None;
        }
        if processes[pid].status.Ready? {
          return Some(pid);
        }
        RotateOne(k.ready, i);
        PushReady(pid, frame);
        i := i + 1;
      }
      next := None;
    }

    /** Run process `next` with its saved context. */
    method Resume(next: Pid, ghost frame: Context) returns (r: Option<Context>)
      requires ProcsHeld() && next in processes
      modifies this`procs, this`current, processes[next]
      ensures ProcsHeld() && (r.Some? <==> old(procs[next].stackMin.Some?))
      ensures var p := old(procs[next]);
              var k := Put(old(View(frame)), next, p.(status := Running));
              r.Some? ==> View(r.value) == k.(frame := p.context, current := next)
    {
      var p := processes[next];
      r := p.Restore();
      procs := procs[next := p.Value()];
      if r.Some? {
        current := next;
      }
    }

    /** `None` is a crash. */
    method SwitchNext(frame: Context) returns (r: Option<Context>)
      requires ProcsHeld()
      modifies this`procs, this`readyQueue, this`current, Repr
      ensures ProcsHeld()
      ensures K.SwitchNext(old(View(frame))) == if r.Some? then Done(View(r.value)) else Crash
    {
      hide Scan;
      var next := FetchReady(frame);
      if next.None? {
        return None;
      }
      r := Resume(next.value, frame);
    }

    method AddProc(pid: Pid, p: Process, ghost frame: Context)
      requires ProcsHeld() && p.pid == pid <= lastPid
      modifies this`processes, this`procs, this`Repr
      ensures ProcsHeld() && Repr == old(Repr) + {p}
      ensures View(frame) == Put(old(View(frame)), pid, p.Value())
    {
      processes := processes[pid := p];
      procs := procs[pid := p.Value()];
      Repr := Repr + {p};
    }

    /** The parent's side of a fork, and the child itself. */
    method ForkParent(childPid: Pid, childMin: nat, ghost frame: Context) returns (child: Process)
      requires ProcsHeld() && current in processes
      modifies this`procs, processes[current]
      ensures ProcsHeld() && fresh(child) && child.pid == childPid
      ensures child.Value() == ChildOf(old(procs)[current], current, childMin)
      ensures var p := old(procs)[current];
              View(frame) == Put(old(View(frame)), current, p.(children := p.children + [childPid],
                                                               context := p.context.(rax := childPid)))
    {
      var parent := processes[current];
      child := parent.Fork(childPid, childMin);
      procs := procs[current := parent.Value()];
    }

    /** Enter a child of the current process in the table. */
    method ForkCurrent(childMin: nat, ghost frame: Context) returns (childPid: Pid)
      requires ProcsHeld() && current in processes
      modifies this`processes, this`procs, this`lastPid, this`Repr, processes[current]
      ensures ProcsHeld() && fresh(Repr - old(Repr))
      ensures View(frame) == AddChild(old(View(frame)), childMin) && childPid == lastPid
    {
      childPid := lastPid + 1;
      lastPid := childPid;
      var child := ForkParent(childPid, childMin, frame);
      AddProc(childPid, child, frame);
    }

    method Kill(pid: Pid, ret: Code, ghost frame: Context)
      requires ProcsHeld()
      modifies this`procs, if pid in processes then {processes[pid]} else {}
      ensures ProcsHeld() && View(frame) == K.Kill(old(View(frame)), pid, ret)
    {
      if pid in processes && !processes[pid].status.Dead? {
        var p := processes[pid];
        p.Kill(ret);
        procs := procs[pid := p.Value()];
      }
    }

    // -------------------------------------------------------------------------
    // The system calls: each runs the step of the same name, a result of `None`
    // being the crash of that step.  From a valid state a call crashes only for
    // `wait_pid` on a pid never handed out, and otherwise leaves a valid state.
    // -------------------------------------------------------------------------

    /** `r` is the outcome of step `op` from `k`, and this object has taken it. */
    ghost predicate Takes(k: K.Kernel, op: Op, r: Option<Context>)
      requires k.current in k.procs
      reads this, semaphores
    {
      && Step(k, op) == (if r.Some? then Done(View(r.value)) else Crash)
      && (Valid(k) && Allowed(k, op) ==>
            && (r.None? <==> op.WaitPid? && op.pid !in k.procs)
            && (r.Some? ==> Valid(View(r.value))))
    }

    ghost predicate Consistent()
      reads this`processes, this`procs, this`Repr, this`lastPid, Repr, semaphores, semaphores.Repr
    {
      ProcsHeld() && semaphores.Holds()
    }

    ghost predicate Ready()
      reads this, Repr, semaphores, semaphores.Repr
    {
      Consistent() && current in processes
    }

    lemma TakesIt(k: K.Kernel, op: Op, r: Option<Context>)
      requires k.current in k.procs && Step(k, op) == if r.Some? then Done(View(r.value)) else Crash
      ensures Takes(k, op, r)
    {
      hide Valid, Step;
      if Valid(k) && Allowed(k, op) {
        StepKeepsValid(k, op);
      }
    }

    /** Save and block the current process. */
    method Park(frame: Context)
      requires Ready()
      modifies this`procs, Repr
      ensures Ready() && View(frame) == K.BlockProc(K.SaveCurrent(old(View(frame))), current)
    {
      hide SemaphoreSet.Holds;
      SaveCurrent(frame);
      BlockProc(current, frame);
    }

    method ParkFor(frame: Context, pid: Pid)
      requires Ready()
      modifies this`procs, this`waiting, Repr
      ensures Ready()
      ensures View(frame) == K.AddWaiting(K.BlockProc(K.SaveCurrent(old(View(frame))), current), pid)
    {
      hide SemaphoreSet.Holds;
      Park(frame);
      AddWaiting(pid, frame);
    }

    /** Deliver the exit code and drop the current process's resources. */
    method Leave(code: Code, ghost frame: Context)
      requires Consistent() && forall p <- WaitersOf(View(frame), current) :: p in processes
      modifies this`procs, this`readyQueue, this`waiting, Repr
      ensures Consistent() && View(frame) == K.Kill(K.WakeWaiting(old(View(frame)), code), current, code)
    {
      hide SemaphoreSet.Holds, K.WakeWaiting, K.Kill, ProcsHeld;
      WakeWaiting(code, frame);
      Kill(current, code, frame);
    }

    /** Save the current process and queue it again. */
    method Preempt(frame: Context)
      requires Ready()
      modifies this`procs, this`readyQueue, Repr
      ensures Ready() && View(frame) == K.PushReady(K.SaveCurrent(old(View(frame))), current)
    {
      hide SemaphoreSet.Holds;
      SaveCurrent(frame);
      PushReady(current, frame);
    }

    /** The switch of the manager, with the semaphores untouched. */
    method Dispatch(frame: Context) returns (r: Option<Context>)
      requires Consistent()
      modifies this`procs, this`readyQueue, this`current, Repr
      ensures Consistent() && K.SwitchNext(old(View(frame))) == if r.Some? then Done(View(r.value)) else Crash
    {
      hide SemaphoreSet.Holds, K.SwitchNext;
      r := SwitchNext(frame);
    }

    method Switch(frame: Context) returns (r: Option<Context>)
      requires Ready()
      modifies this, Repr
      ensures Consistent() && Takes(old(View(frame)), Tick, r)
    {
      hide SemaphoreSet.Holds, Valid, K.SwitchNext, K.SaveCurrent;
      ghost var k := View(frame);
      Preempt(frame);
      r := Dispatch(frame);
      TakesIt(k, Tick, r);
    }

    method ForkSaved(frame: Context, childMin: nat) returns (childPid: Pid)
      requires ProcsHeld() && current in processes
      modifies this`processes, this`procs, this`lastPid, this`Repr, processes[current]
      ensures ProcsHeld() && fresh(Repr - old(Repr))
      ensures View(frame) == AddChild(K.SaveCurrent(old(View(frame))), childMin) && childPid == lastPid
    {
      SaveCurrent(frame);
      childPid := ForkCurrent(childMin, frame);
    }

    /** Both sides of the fork, up to the choice of the next process. */
    method ForkBoth(frame: Context, childMin: nat)
      requires Ready()
      modifies this`processes, this`procs, this`lastPid, this`Repr, this`readyQueue, Repr
      ensures Consistent() && fresh(Repr - old(Repr)) && View(frame) == Forked(old(View(frame)), childMin)
    {
      hide SemaphoreSet.Holds;
      var childPid := ForkSaved(frame, childMin);
      PushReady(childPid, frame);
      PushReady(current, frame);
    }

    /** `childMin` is where the child's stack was put; see module `Stacks`. */
    method Fork(frame: Context, childMin: nat) returns (r: Option<Context>)
      requires Ready()
      modifies this, Repr
      ensures Consistent() && Takes(old(View(frame)), Op.Fork(childMin), r)
    {
      hide SemaphoreSet.Holds, Valid, K.SwitchNext;
      ghost var k := View(frame);
      if processes[current].data.None? || processes[current].stackMin.None? {
        r := None;
      } else {
        ForkBoth(frame, childMin);
        r := Dispatch(frame);
      }
      TakesIt(k, Op.Fork(childMin), r);
    }

    method Exit(frame: Context, code: Code) returns (r: Option<Context>)
      requires Ready()
      modifies this, Repr
      ensures Consistent() && Takes(old(View(frame)), Op.Exit(code), r)
    {
      hide SemaphoreSet.Holds, Valid, K.SwitchNext, K.SaveCurrent;
      ghost var k := View(frame);
      if current in waiting && !(forall p <- waiting[current] :: p in processes) {
        r := None;
      } else {
        Leave(code, frame);
        r := Dispatch(frame);
      }
      TakesIt(k, Op.Exit(code), r);
    }

    method WaitPid(frame: Context, pid: Pid) returns (r: Option<Context>)
      requires Ready()
      modifies this, Repr
      ensures Consistent() && Takes(old(View(frame)), Op.WaitPid(pid), r)
    {
      hide SemaphoreSet.Holds, Valid, K.SwitchNext, K.SaveCurrent;
      ghost var k := View(frame);
      if pid in processes && !processes[pid].status.Dead? {
        ParkFor(frame, pid);
        r := Dispatch(frame);
      } else if pid in processes && processes[pid].exitCode.Some? {
        r := Some(frame.(rax := AsWord(processes[pid].exitCode.value)));
      } else {
        r := None;
      }
      TakesIt(k, Op.WaitPid(pid), r);
    }

    method WaitOn(id: SemId, ghost frame: Context) returns (r: SemResult)
      requires Ready()
      modifies semaphores`values, semaphores.Repr
      ensures Ready() && (r.NotExist? <==> id !in old(View(frame)).sems)
      ensures var k := old(View(frame));
              if r.NotExist? then View(frame) == k
              else
                && r == WaitSem(k.sems[id], current).1
                && View(frame) == k.(sems := k.sems[id := WaitSem(k.sems[id], current).0])
    {
      r := semaphores.Wait(id, current);
    }

    method SemWait(frame: Context, key: nat) returns (r: Option<Context>)
      requires Ready()
      modifies this, Repr, semaphores, semaphores.Repr
      ensures Consistent() && Takes(old(View(frame)), Op.SemWait(key), r)
    {
      hide SemaphoreSet.Holds, Valid, K.SwitchNext, K.SaveCurrent;
      ghost var k := View(frame);
      if processes[current].data.None? {
        r := None;
      } else {
        var result := WaitOn(SemId(processes[current].data.value, key), frame);
        match result
        case NotExist => r := Some(frame.(rax := 1));
        case Ok => r := Some(frame.(rax := 0));
        case Block(_) =>
          Park(frame);
          r := Dispatch(frame);
        case WakeUp(_) => assert false;
      }
      TakesIt(k, Op.SemWait(key), r);
    }

    method SignalOn(id: SemId, ghost frame: Context) returns (r: SemResult)
      requires Ready()
      modifies semaphores`values, semaphores.Repr
      ensures Ready() && (r.NotExist? <==> id !in old(View(frame)).sems)
      ensures var k := old(View(frame));
              if r.NotExist? then View(frame) == k
              else
                && r == SignalSem(k.sems[id]).1
                && View(frame) == k.(sems := k.sems[id := SignalSem(k.sems[id]).0])
    {
      r := semaphores.Signal(id);
    }

    method WakeOne(pid: Pid, ghost frame: Context)
      requires Ready() && pid in processes
      modifies this`procs, this`readyQueue, Repr
      ensures Ready() && View(frame) == K.Wake(old(View(frame)), pid)
    {
      hide SemaphoreSet.Holds;
      WakeUp(pid, frame);
    }

    method SemSignal(frame: Context, key: nat) returns (r: Option<Context>)
      requires Ready()
      modifies this, Repr, semaphores, semaphores.Repr
      ensures Consistent() && Takes(old(View(frame)), Op.SemSignal(key), r)
    {
      hide SemaphoreSet.Holds, Valid, K.SwitchNext, K.SaveCurrent;
      ghost var k := View(frame);
      if processes[current].data.None? {
        r := None;
      } else {
        var result := SignalOn(SemId(processes[current].data.value, key), frame);
        match result
        case NotExist => r := Some(frame.(rax := 1));
        case Ok => r := Some(frame.(rax := 0));
        case WakeUp(pid) =>
          if pid in processes {
            WakeOne(pid, frame);
            r := Some(frame);
          } else {
            r := None;
          }
        case Block(_) => assert false;
      }
      TakesIt(k, Op.SemSignal(key), r);
    }

    method NewSemaphore(frame: Context, key: nat, value: nat) returns (r: Option<Context>)
      requires Ready()
      modifies semaphores
      ensures Consistent() && Takes(old(View(frame)), Op.NewSemaphore(key, value), r)
    {
      hide SemaphoreSet.Holds, Valid, K.SwitchNext, K.SaveCurrent;
      ghost var k := View(frame);
      if processes[current].data.None? {
        r := None;
      } else {
        var isNew := semaphores.Insert(SemId(processes[current].data.value, key), value);
        r := Some(frame.(rax := if isNew then 0 else 1));
      }
      TakesIt(k, Op.NewSemaphore(key, value), r);
    }

    method RemoveSemaphore(frame: Context, key: nat) returns (r: Option<Context>)
      requires Ready()
      modifies semaphores
      ensures Consistent() && Takes(old(View(frame)), Op.RemoveSemaphore(key), r)
    {
      hide SemaphoreSet.Holds, Valid, K.SwitchNext, K.SaveCurrent;
      ghost var k := View(frame);
      if processes[current].data.None? {
        r := None;
      } else {
        var wasThere := semaphores.Remove(SemId(processes[current].data.value, key));
        r := Some(frame.(rax := if wasThere then 0 else 1));
      }
      TakesIt(k, Op.RemoveSemaphore(key), r);
    }

    method EnterSpawned(pid: Pid, entry: Context, stackMin: nat, ghost frame: Context)
      requires ProcsHeld() && pid <= lastPid
      modifies this`processes, this`procs, this`Repr
      ensures ProcsHeld() && fresh(Repr - old(Repr))
      ensures View(frame) == Put(old(View(frame)), pid, Spawned(current, pid, entry, stackMin))
    {
      var child := new Process(pid, Spawned(current, pid, entry, stackMin));
      AddProc(pid, child, frame);
    }

    method Spawn(frame: Context, entry: Context, stackMin: nat) returns (r: Option<Context>)
      requires Ready()
      modifies this
      ensures Consistent() && Takes(old(View(frame)), Op.Spawn(entry, stackMin), r)
    {
      hide SemaphoreSet.Holds, Valid;
      ghost var k := View(frame);
      var pid := lastPid + 1;
      lastPid := pid;
      EnterSpawned(pid, entry, stackMin, frame);
      PushReady(pid, frame);
      r := Some(frame.(rax := pid));
      TakesIt(k, Op.Spawn(entry, stackMin), r);
    }
  }
}
