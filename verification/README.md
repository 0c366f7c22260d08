# YSOS in Dafny

A model of the core of the YSOS teaching kernel and of the programs that run on
it, with proofs about whole runs.  It has four layers.

1. **Processes.**  `Kernel.dfy` gives every system call and timer tick as a
   function on a state: process table, ready queue, wait sets, semaphores, current
   pid, trap frame.  `ProcessManager.dfy` has the objects that change in place,
   each method proved equal to its function and to keep the invariant of
   `KernelInvariant.dfy`.  `KernelRefinement.dfy` has a machine of interleaved tasks
   with ledger-keeping semaphores that the kernel refines, `KernelRuns.dfy`,
   `KernelWaits.dfy` and `KernelRecords.dfy` the theorems about runs.  An outcome
   `Crash` stands for a panic or for a scan of the ready queue that never ends.
2. **Concurrent programs.**  `SemPrograms.dfy` has programs of waits, signals and
   statements, preemptible between any two, over the semaphores of
   `Semaphore.dfy`.  The shared counter (by semaphore and by spin lock), the fish
   printer, the dining philosophers and the bounded message queue are programs on
   it; the number of processes, rounds and slots are parameters.
   `KernelPrograms.dfy` joins this layer to the first: under the kernel's scheduler
   the processes of a program make a run of its own semantics, and the theorems about
   the programs hold there.
3. **Virtual memory.**  Frames (`Frames.dfy`), page tables as finite maps
   (`Paging.dfy`), bytes behind pages (`Memory.dfy`), owners of frames
   (`Ownership.dfy`), the heap, stacks and fork, program loading, and the life of a
   fork family that shares one page table (`Family.dfy`, `FamilyRuns.dfy`,
   `ProcessVm.dfy`).  `KernelMemory.dfy` makes one step of a kernel step and the
   family's.
4. **FAT16.**  Block-wise reading against the flat bytes of a cluster chain
   (`Fat16.dfy`, `FatReadingOn.dfy`, `FatReadAll.dfy`, `FatFile.dfy`), short names
   and directories (`FatNames.dfy`, `FatDirectory.dfy`), and where everything lies on
   the volume, byte by byte (`FatLayout.dfy`).

Functions are the specification; the classes and methods with loops follow the
source's own statements and are proved equal to those functions.  Hardware, the
choice of the next interrupt, register contents set by user code, the file
contents and the memory map are parameters.

Where the code does not do what it is meant to do, the model follows the code, and
both the exact condition and an input are proved.

| what fails | exactly when | an input |
|---|---|---|
| `wait_pid` on a pid that was never allocated panics | `KernelInvariant.StepKeepsValid` | `KernelWitnesses.WaitingForNobody` |
| re-creating or removing a semaphore drops its waiters | `KernelInvariant.OrphansExactly` | `KernelWitnesses.RecreatedUnderWaiter` |
| heap clean-up rounds down, `brk` up: the last page stays | `Heaps.CleanUpLeaves` | `MemoryWitnesses.OneByteOfHeap` |
| a `brk` that fails part-way caps the heap for ever | `Heaps.BrkCapsExactly`, `Heaps.BrkStaysCapped` | `MemoryWitnesses.FailedBrkBlocks` |
| a failed mapping keeps the pages before it and loses the frame it took | `Paging.MapPagesIs`, `Ownership.ApplyAllOwned` | `MemoryWitnesses.RunIntoMappedPage` |
| a page fault that could not be resolved is reported as handled | `Families.FaultResolved` | `MemoryWitnesses.FaultForEver` |
| bss that ends on a page boundary maps one page too many | `Loader.ExtraPage` | `MemoryWitnesses.BssToTheBoundary` |
| a segment off a page boundary lacks the last bytes of its file part | `Loader.LoadedIsRight` | `MemoryWitnesses.OffTheBoundary` |
| if it also reaches one page further than its size, a count wraps: a build with overflow checks stops, any other copies a page too many | `Loader.LoadedIsRight`, `Loader.Stops` | `MemoryWitnesses.CountWraps`, `MemoryWitnesses.CountWrapsAndLoads` |
| code is freed only by its loader, and only if that is the last to exit | `Families.ExitEarly`, `FamilyRuns.LifeOfFamily` | `MemoryWitnesses.LoaderExitsFirst` |
| a second `File::read` can start on the wrong sector | `FatReadingOn.SecondReadStarts` | `FatReadingOn.SecondReadFails` |
| only the first FAT sector is read | `Fat16.NextClusterIs` | `FatWitnesses.ClusterInSecondSector` |
| 16-bit end marks are not recognised | `Fat16.NextClusterIs` | `FatWitnesses.EndMarkIsInvalid` |
| a subdirectory that fills its clusters has no end: the listing goes on twelve clusters before the data, or stops the kernel | `FatDirectories.FullDirectoryIs` | `FatWitnesses.FullDirectoryStops`, `FatWitnesses.FullDirectoryGoesOn` |
| `read_all` fails when the sector after the file is outside the partition | `FatReadAll.ReadAllIs` | `FatWitnesses.FileFillsPartition` |
| `read_all` takes a file for the sectors that follow its first cluster | `FatReadAll.ReadAllIs`, `FatReadAll.ReadAllOfOne` | `FatWitnesses.FragmentedFile` |
| reading an empty file computes a sector below the data: a build with overflow checks stops | `FatReadAll.EmptyFileIs` | the same, on every volume |
| a deleted entry ends a listing: what is behind it is not found | `FatLayout.RootBytes` | `FatWitnesses.HiddenBehindDeleted` |
| root entries that fill no whole sector share one with the data | `FatLayout.RootLies` | `FatWitnesses.RootInData` |
| forbidden characters are looked for before the last dot only | `FatNames.ParseNameIs` | `FatWitnesses.StarInExtension` |
| a name that ends in dots is cut: `..` names the directory itself | `FatNames.NamesRoundTrip` | `FatNames.DotsAreCut` |

Rust checks overflow in debug builds only, and this kernel is built for release by
default (`ysos.py:18-19`, `Makefile:6`).  Where a property turns on that, the choice
is part of the model: `checks` of a volume and of a program file, `debug` of an exit.

That `wait_pid` is the only crash holds of a step of the process manager, whose
`Fork` and `Spawn` take the child's stack and the program's image as given;
`KernelMemory.dfy` joins the two.  Below it the kernel also stops when a program file cannot be opened, read or parsed
(`pkg/kernel/src/proc/mod.rs:134-138`), when loading it fails
(`pkg/kernel/src/proc/vm/mod.rs:94`), and when the search for a child's stack runs
below address zero (`pkg/kernel/src/proc/vm/stack.rs:214-225`): the second is `None`
of `FamilyRuns.Load`, the third `None` of `Stacks.Retry`.

## Model

| member | source | states |
|---|---|---|
| `Semaphores.Semaphore.Wait` | pkg/kernel/src/proc/sync.rs:43-54 | takes a unit, or queues the caller and says block |
| `Semaphores.Semaphore.Signal` | pkg/kernel/src/proc/sync.rs:60-71 | hands the unit to the longest waiter, or counts it |
| `Semaphores.SemStepTracks` | pkg/kernel/src/proc/sync.rs:43-71 | an operation keeps count and queue in step with a ledger of requests and units; the result says exactly which request was granted |
| `Semaphores.HistoryOfSemaphore` | pkg/kernel/src/proc/sync.rs:43-71 | after any operations: grants plus count equal initial value plus signals, grants are the oldest requests in arrival order, a positive count means an empty queue |
| `ProcessManagers.SemaphoreSet.Insert` | pkg/kernel/src/proc/sync.rs:86-95 | a new semaphore under the key, over an old one too; whether there was none |
| `ProcessManagers.SemaphoreSet.Remove` | pkg/kernel/src/proc/sync.rs:97-104 | the key has no semaphore; whether it had one |
| `ProcessManagers.SemaphoreSet.Wait` | pkg/kernel/src/proc/sync.rs:107-118 | the wait of that one object, all others untouched, or no such semaphore |
| `ProcessManagers.SemaphoreSet.Signal` | pkg/kernel/src/proc/sync.rs:121-132 | likewise the signal |
| `ProcessManagers.Process.TickAndSave` | pkg/kernel/src/proc/manager.rs:148-158 | a preempted process counts the tick and keeps the trap frame; a dead one is not made ready again |
| `ProcessManagers.Process.Restore` | pkg/kernel/src/proc/process.rs:197-203 | the trap frame becomes the saved context, the process runs; no value for one without memory, where the code panics |
| `ProcessManagers.Process.Kill` | pkg/kernel/src/proc/process.rs:233-243 | exit code set, dead, data and memory dropped |
| `ProcessManagers.Process.Fork` | pkg/kernel/src/proc/process.rs:99-125 | the child has the parent's context with the shifted stack pointer and zero in rax, the parent the child's pid |
| `ProcessManagers.ProcessManager.PushReady` | pkg/kernel/src/proc/manager.rs:55-58 | appends to the ready queue |
| `ProcessManagers.ProcessManager.AddWaiting` | pkg/kernel/src/proc/manager.rs:60-67 | enters the current process, in order, in the wait set of a pid |
| `ProcessManagers.ProcessManager.WakeUp` | pkg/kernel/src/proc/manager.rs:88-91 | makes a process ready and queues it |
| `ProcessManagers.ProcessManager.WakeWaiting` | pkg/kernel/src/proc/manager.rs:93-106 | the loop that gives every waiter the code and queues it, in order |
| `ProcessManagers.ProcessManager.SaveCurrent` | pkg/kernel/src/proc/manager.rs:148-158 | puts the trap frame away |
| `ProcessManagers.ProcessManager.FetchReady` | pkg/kernel/src/proc/manager.rs:160-176 | the loop finds the first ready pid of the queue and rotates what it skips to the back; no value exactly if the queue is empty, names an unknown pid or has nobody ready |
| `ProcessManagers.ProcessManager.SwitchNext` | pkg/kernel/src/proc/manager.rs:160-176 | that process becomes current with its saved context, or the call crashes as the function says |
| `ProcessManagers.ProcessManager.Kill` | pkg/kernel/src/proc/manager.rs:198-216 | the process is killed in the table |
| `ProcessManagers.ProcessManager.Switch` | pkg/kernel/src/proc/mod.rs:59-67 | a tick: save, queue, switch; from a valid state it leaves a valid one |
| `ProcessManagers.ProcessManager.Fork` | pkg/kernel/src/proc/mod.rs:165-179 | save, create the child, queue child and parent, switch; from a valid state it leaves a valid one |
| `ProcessManagers.ProcessManager.Exit` | pkg/kernel/src/proc/mod.rs:181-188 | wake the waiters, kill, switch; from a valid state it leaves a valid one |
| `ProcessManagers.ProcessManager.WaitPid` | pkg/kernel/src/proc/mod.rs:204-218 | the exit code at once, or park and switch; no value for a pid never allocated; from a valid state it leaves a valid one or crashes, exactly for such a pid |
| `ProcessManagers.ProcessManager.SemWait` | pkg/kernel/src/proc/mod.rs:227-244 | 0 or 1 in rax, or park and switch with rax untouched; from a valid state it leaves a valid one |
| `ProcessManagers.ProcessManager.SemSignal` | pkg/kernel/src/proc/mod.rs:246-257 | 0 or 1 in rax, or wake the waiter with rax untouched; from a valid state it leaves a valid one |
| `ProcessManagers.ProcessManager.NewSemaphore` | pkg/kernel/src/proc/mod.rs:259-269 | sets the semaphore, over an old one too; from a valid state it leaves a valid one |
| `ProcessManagers.ProcessManager.RemoveSemaphore` | pkg/kernel/src/proc/mod.rs:271-281 | drops the semaphore with its queue; from a valid state it leaves a valid one |
| `ProcessManagers.ProcessManager.Spawn` | pkg/kernel/src/proc/mod.rs:143-155 | a new process with a fresh family, ready and queued; from a valid state it leaves a valid one |
| `KernelInvariant.DispatchHead` | pkg/kernel/src/proc/manager.rs:160-176 | with the invariant, switch_next takes the head at once and never meets an empty queue |
| `KernelInvariant.StepKeepsValid` | pkg/kernel/src/proc/mod.rs:59-281 | every step keeps the invariant; it crashes exactly for wait_pid on an unallocated pid, memory and file of a fork or spawn being given |
| `KernelInvariant.PlacesAfter` | pkg/kernel/src/proc/mod.rs:59-281 | exactly who waits where after a step |
| `KernelInvariant.BlockedAfter` | pkg/kernel/src/proc/mod.rs:59-281 | a process stops being blocked exactly by a grant or by the exit it waits for, becomes blocked exactly by parking |
| `KernelInvariant.OrphansExactly` | pkg/kernel/src/proc/sync.rs:86-105 | blocked in no queue exactly if its semaphore was re-created or removed under it, and then for ever |
| `KernelRefinement.StepRefines` | pkg/kernel/src/proc/mod.rs:59-281 | each kernel step is one step of the machine by the current task, a tick none; so a task passes a wait only when the ledger grants it and resumes with exactly the registers it had, but for rax set by fork or exit |
| `KernelRuns.ReachableStates` | pkg/kernel/src/proc/manager.rs:55-176 | in every reachable state exactly the current process runs, the ready queue holds each ready pid once and nothing else, a blocked pid is in at most one place, exactly the dead have an exit code and no resources, and the only crash is wait_pid on a pid not yet allocated |
| `KernelRuns.NobodyLost` | pkg/kernel/src/proc/sync.rs:86-105 | in exactly one place if no semaphore is re-created or removed under it |
| `KernelRuns.RunRefines` | pkg/kernel/src/proc/mod.rs:59-281 | every kernel run is an interleaving of the machine's tasks |
| `KernelRuns.DeadStays` | pkg/kernel/src/proc/process.rs:233-243 | dead is permanent, with its exit code |
| `KernelRuns.WaiterStep` | pkg/kernel/src/proc/manager.rs:93-106 | a waiter on a pid is woken exactly by that exit; rax is then the code, or the code plus 2^64 if it is negative, and nothing else changed |
| `KernelRuns.WaitPidReturnsExitCode` | pkg/kernel/src/proc/mod.rs:181-218 | whichever of exit and wait_pid comes first, the caller resumes with its registers and in rax that exit code, plus 2^64 if it is negative |
| `KernelWaits.SemWaiterStep` | pkg/kernel/src/proc/mod.rs:227-257 | a process blocked on a semaphore keeps its registers, rax too, and is let go exactly by the signal that hands it its unit |
| `KernelWaits.SemWaitGoesOn` | pkg/kernel/src/proc/mod.rs:227-257 | the caller of a wait that blocked gets on exactly by a signal on that semaphore that hands it the unit, with the registers it called with |
| `KernelRuns.QueueStep` | pkg/kernel/src/proc/manager.rs:160-176 | a switch moves everybody up by one, any other step nobody |
| `KernelRuns.RoundRobin` | pkg/kernel/src/proc/manager.rs:160-176 | the pid at index i of the queue is dispatched by exactly the (i+1)-th later switch |
| `KernelRecords.ForkReturns` | pkg/kernel/src/proc/process.rs:99-125 | fork returns 0 to the child and the child's pid to the caller; every other register is the caller's in both, but that the child's stack pointer is at the same offset in its own slot |
| `KernelRecords.ReadyKeeps` | pkg/kernel/src/proc/manager.rs:148-176 | no step of another process touches the registers of one that waits for the processor |
| `KernelRecords.ForkReturnsTwice` | pkg/kernel/src/proc/mod.rs:165-179 | over a run: that is what both find when they are next on the processor, whoever ran in between |
| `KernelRecords.RecordAfter` | pkg/kernel/src/proc/process.rs:99-145 | a process is charged a tick exactly when it gives way, its children grow exactly by the pid it forks, parent and stack are for life |
| `KernelRecords.RecordOfNew` | pkg/kernel/src/proc/process.rs:270-300 | a new process is forked or spawned by the current one, is its child, and begins with no ticks and no children; a forked one shares its data, a spawned one has its own |
| `KernelRecords.RecordInRun` | pkg/kernel/src/proc/process.rs:99-135 | over every run: ticks are the number of times it gave way, children the pids it forked, in order |
| `KernelRecords.DeadIsNotSaved` | pkg/kernel/src/proc/manager.rs:148-158 | a process killed while current stays dead when it is saved |
| `KernelRecords.KilledOnce` | pkg/kernel/src/proc/manager.rs:198-216 | the exit code of the first kill stays |
| `KernelRecords.QueueAfter` | pkg/kernel/src/proc/mod.rs:59-281 | exactly the ready queue after a step: the preempted at the back, a new child before its parent, the waiters on an exit in the order of their pids |
| `KernelRecords.SwitchTurnsQueue` | pkg/kernel/src/proc/manager.rs:160-176 | from any state: the first ready process is dispatched with its registers, those before it go to the back in order and none is lost; it fails exactly if there is none to restore |
| `KernelWitnesses.WaitingForNobody` | pkg/kernel/src/proc/mod.rs:204-218 | from boot: spawn, tick, and a wait_pid for pid 7 crashes |
| `KernelWitnesses.RecreatedUnderWaiter` | pkg/kernel/src/proc/sync.rs:86-95 | from boot: a child waits, its parent creates the semaphore anew, the child is blocked in no queue |
| `SemPrograms.StepInv` | pkg/kernel/src/proc/sync.rs:43-71 | for any program: units left plus units held are constant, and the queues hold exactly the blocked processes |
| `SemPrograms.StuckMeans` | pkg/kernel/src/proc/sync.rs:43-54 | who cannot go on has halted or waits on an empty semaphore |
| `SemPrograms.RunLength` | pkg/kernel/src/proc/sync.rs:43-71 | a run is no longer than its instructions allow |
| `SemPrograms.ServedInOrder` | pkg/kernel/src/proc/sync.rs:43-71 | a process still queued has seen no more signals than there were waiters before it |
| `KernelPrograms.StepJoined` | pkg/kernel/src/proc/mod.rs:227-257 | a kernel step by a process that keeps to its code is one instruction of the program or leaves it where it is; count, queue and blocked processes stay the same on both sides |
| `KernelPrograms.KernelRunIsProgramRun` | pkg/kernel/src/proc/mod.rs:59-281 | every kernel run, seen from a program on it, is a run of the program's semantics that ends where the program is |
| `KernelPrograms.ExclusionOnKernel` | pkg/app/sem/src/main.rs:41-63 | under the kernel's scheduler no two processes are between wait and signal |
| `KernelPrograms.CounterOnKernel` | pkg/app/sem/src/main.rs:41-63 | once all processes have exited, the counter is N*K |
| `KernelPrograms.FishOnKernel` | pkg/app/fish/src/main.rs:50-75 | under the kernel's scheduler the output is a prefix of the repeated pattern |
| `KernelPrograms.NeighboursOnKernel` | pkg/app/philo/src/main.rs:42-60 | under the kernel's scheduler neighbours never eat together |
| `KernelPrograms.NoDeadlockOnKernel` | pkg/app/philo/src/main.rs:42-60 | at any time some philosopher is ready or running |
| `KernelPrograms.QueueOnKernel` | pkg/app/mq/src/main.rs:72-92 | under the kernel's scheduler never more messages unread than fit |
| `KernelPrograms.FifoOnKernel` | pkg/app/mq/src/main.rs:72-92 | every kernel step leaves the queue alone, appends one message or takes the oldest |
| `KernelPrograms.QueueEmptiedOnKernel` | pkg/app/mq/src/main.rs:28-92 | once all have exited every message has been sent and read |
| `Counter.MutualExclusion` | pkg/app/sem/src/main.rs:41-63 | no two processes are between wait and signal |
| `Counter.MaximalRunCountsAll` | pkg/app/sem/src/main.rs:41-63 | N processes of K load, add, store increments end at N*K in every run that can go no further |
| `Counter.RunsAreFinite` | pkg/app/sem/src/main.rs:41-63 | every run ends |
| `SpinCounter.LockExcludes` | pkg/lib/src/sync.rs:19-37 | no two processes hold the spin lock |
| `SpinCounter.SomebodyMoves` | pkg/lib/src/sync.rs:19-37 | the processes never all spin |
| `SpinCounter.SpinCountsAll` | pkg/app/spin/src/main.rs:39-61 | N*K and the lock free once all have finished |
| `SpinCounter.WorkIsFinite` | pkg/app/spin/src/main.rs:39-61 | in every run at most five steps per round and process are not failed exchanges, exactly so many once all have finished |
| `Fish.OutputIsPrefix` | pkg/app/fish/src/main.rs:50-75 | in every run the output is a prefix of the repeated pattern |
| `Fish.MaximalRunPrintsAll` | pkg/app/fish/src/main.rs:50-75 | a run that can go no further has printed all; for twenty rounds exactly ten fish |
| `Fish.RunsAreFinite` | pkg/app/fish/src/main.rs:50-75 | every run ends |
| `Philosophers.NeighboursDoNotEatTogether` | pkg/app/philo/src/main.rs:42-60 | for any number from two on |
| `Philosophers.OnlyTheServedWaits` | pkg/app/philo/src/main.rs:42-60 | only the holder of the server is at a chopstick wait |
| `Philosophers.NoDeadlock` | pkg/app/philo/src/main.rs:42-60 | no reachable state is stuck |
| `Philosophers.BoundedBypass` | pkg/app/philo/src/main.rs:42-60 | at most N-2 others are served between queueing up and one's own turn |
| `MessageQueue.IsBoundedFifo` | pkg/app/mq/src/main.rs:72-92 | the ring refines a first-in first-out queue of at most the capacity, in every interleaving, preempted inside the critical section too |
| `MessageQueue.RightSlot` | pkg/app/mq/src/main.rs:72-92 | no unread slot is overwritten, a reader clears the oldest |
| `MessageQueue.MaximalRunEmptiesQueue` | pkg/app/mq/src/main.rs:28-92 | no deadlock: a run that can go no further has delivered everything, head meets tail, all slots are zero |
| `MessageQueue.RunsAreFinite` | pkg/app/mq/src/main.rs:28-92 | every run ends |
| `MessageLog.LogInRun` | pkg/app/mq/src/main.rs:35-45 | at every point each number has been sent exactly as often as writers have come to it |
| `MessageLog.EverythingSent` | pkg/app/mq/src/main.rs:35-45 | in the end writer i has sent i, i + 1 and so on, each once, and nothing else was sent |
| `Frames.FrameListIsUsable` | pkg/kernel/src/memory/frames.rs:68-78 | the supply is every usable frame of the memory map, once |
| `Frames.FrameAllocator.constructor` | pkg/kernel/src/memory/frames.rs:28-35 | the whole supply, nothing recycled, nothing used |
| `Frames.FrameAllocator.AllocateFrame` | pkg/kernel/src/memory/frames.rs:50-59 | recycled frames first, then the supply |
| `Frames.FrameAllocator.DeallocateFrame` | pkg/kernel/src/memory/frames.rs:61-66 | the frame goes on the recycled stack |
| `Frames.GiveThenTake` | pkg/kernel/src/memory/frames.rs:50-66 | a draw undoes the last return, otherwise it takes the next unused frame |
| `Frames.PoolCounts` | pkg/kernel/src/memory/frames.rs:37-66 | over any history the difference of the two counters is the frames out and not back, and the draws that found none |
| `Paging.MapPagesIs` | pkg/elf/src/lib.rs:97-130 | a run is added exactly, or on failure the first part of it up to the page that failed; nothing mapped before changes |
| `Paging.MapPagesSucceeds` | pkg/elf/src/lib.rs:97-130 | with frames enough it succeeds exactly if no page of the run was mapped |
| `Paging.ReachesFirstMapped` | pkg/elf/src/lib.rs:97-130 | otherwise it gets exactly as far as the first page that was mapped |
| `Paging.UnmapPagesIs` | pkg/elf/src/lib.rs:152-176 | it succeeds exactly if all pages are mapped, and then removes exactly them |
| `Paging.UnmapUndoesMap` | pkg/elf/src/lib.rs:67-176 | unmapping what was just mapped restores the pages |
| `Paging.SharedTables` | pkg/elf/src/lib.rs:119-127 | which pages share a table: stretches of 512, of 512 such, and so on |
| `Paging.PageTakes` | pkg/elf/src/lib.rs:119-127 | a page takes one frame and one for each missing table |
| `Paging.FirstPagesTake` | pkg/elf/src/lib.rs:97-130 | the first mapping in a stretch of 512 pages takes three frames more than it has pages |
| `Paging.Mapper.MapRange` | pkg/elf/src/lib.rs:97-130 | the loop, equal to the function the lemmas are about |
| `Paging.Mapper.UnmapRange` | pkg/elf/src/lib.rs:152-176 | likewise |
| `Memory.CopyPagesIs` | pkg/kernel/src/proc/vm/stack.rs:247-256 | the target pages get the source's bytes, no other page of any space changes |
| `Memory.PhysicalMemory.ClonePages` | pkg/kernel/src/proc/vm/stack.rs:247-256 | the copy, page by page |
| `Ownership.MapPagesOwned` | pkg/elf/src/lib.rs:97-130 | a mapping loses exactly one frame if it fails at a page for which it had taken one, and otherwise none |
| `Ownership.FrameTakenIf` | pkg/elf/src/lib.rs:97-130 | never on success, always when the page was mapped already |
| `Ownership.UnmapPagesOwned` | pkg/elf/src/lib.rs:152-176 | unmapping loses none |
| `Ownership.ApplyAllOwned` | pkg/elf/src/lib.rs:97-176 | after any operations by any spaces each frame still has one owner, and exactly as many are lost as mappings failed with a frame in hand |
| `Ownership.FramesArePartitioned` | pkg/kernel/src/memory/frames.rs:50-78 | from boot on unused, recycled, mapped, table and lost frames partition the usable ones, with the exact number of lost ones |
| `Ownership.OwnedIsInjective` | pkg/elf/src/lib.rs:97-130 | no frame backs two pages |
| `Heaps.BrkKeeps` | pkg/kernel/src/proc/vm/heap.rs:52-98 | the mapped heap pages stay exactly those below the rounded end, nothing else changes; only a failed mapping leaves extra pages, and how many |
| `Heaps.BrkAnswers` | pkg/kernel/src/proc/vm/heap.rs:52-98 | the answer in any state: without an address the end, outside the heap a refusal, else the address or a failure, and exactly when it fails; the end moves exactly with the answer |
| `Heaps.BrkTellsLast` | pkg/kernel/src/proc/vm/heap.rs:88-91 | after any calls by any members a call without an address tells that of the last one that succeeded and changes nothing |
| `Heaps.BrkSucceeds` | pkg/kernel/src/proc/vm/heap.rs:52-98 | with frames enough it is refused exactly outside the heap |
| `Heaps.CleanUpLeaves` | pkg/kernel/src/proc/vm/heap.rs:100-120 | all heap pages are unmapped exactly if the end is on a page boundary; otherwise exactly the last one stays |
| `Heaps.HeapFollowsEnd` | pkg/kernel/src/proc/vm/heap.rs:45-98 | after any calls by any members the mapped heap pages are exactly those up to the rounded end |
| `Heaps.BrkCapsExactly` | pkg/kernel/src/proc/vm/heap.rs:52-98 | a brk leaves the heap out of step exactly if it is in range, asks for more than one new page, the first can be mapped and not all can; the heap is then capped |
| `Heaps.BrkStaysCapped` | pkg/kernel/src/proc/vm/heap.rs:52-98 | a capped heap stays capped through every brk, the cap never rises, and with frames enough a call succeeds exactly up to it |
| `Heaps.Heap.constructor` | pkg/kernel/src/proc/vm/heap.rs:38-43 | an empty heap |
| `Heaps.Heap.Fork` | pkg/kernel/src/proc/vm/heap.rs:45-50 | the child shares the end |
| `Heaps.Heap.Brk` | pkg/kernel/src/proc/vm/heap.rs:52-98 | the statements, equal to the function the lemmas are about |
| `Heaps.Heap.CleanUp` | pkg/kernel/src/proc/vm/heap.rs:100-120 | likewise |
| `Stacks.InitShape` | pkg/kernel/src/proc/vm/stack.rs:85-98 | the first stack is one page at the top of the 4 GiB slot its pid names, counted down from 0x4000_0000_0000 |
| `Stacks.OnStackIs` | pkg/kernel/src/proc/vm/stack.rs:131-137 | the mask test is membership in the slot |
| `Stacks.GrowIs` | pkg/kernel/src/proc/vm/stack.rs:139-175 | a fault on an unmapped page never underflows; the shape is kept, and exactly the pages down to the fault are added, or a first part of them |
| `Stacks.GrowResolves` | pkg/kernel/src/proc/vm/stack.rs:113-175 | after a fault its page is mapped exactly if it is on the stack and there was a frame for it |
| `Stacks.RetryPicks` | pkg/kernel/src/proc/vm/stack.rs:205-240 | with frames enough and a free slot the loop ends and picks the highest free one; exactly which pages the failed attempts leave behind; nothing mapped changes |
| `Stacks.RetryFinds` | pkg/kernel/src/proc/vm/stack.rs:214-225 | with frames enough it finds a free run exactly if there is one, and then the highest |
| `Stacks.ForkFinds` | pkg/kernel/src/proc/vm/stack.rs:205-240 | with frames enough the fork fails exactly if no slot from the given one down has room, else the child is in the first that has, page for page as the parent in its own |
| `Stacks.RetryIsSafe` | pkg/kernel/src/proc/vm/stack.rs:205-240 | whatever the frames, only a free slot is picked and nothing mapped changes |
| `Stacks.ForkIsSafe` | pkg/kernel/src/proc/vm/stack.rs:205-240 | the child's stack has the parent's shape, whole slots below |
| `Stacks.TriesFail` | pkg/kernel/src/proc/vm/stack.rs:214-225 | every attempt but the last fails |
| `Stacks.TriesLose` | pkg/kernel/src/proc/vm/stack.rs:214-225 | with frames enough each of those loses exactly one frame |
| `Stacks.RetryAdds` | pkg/kernel/src/proc/vm/stack.rs:214-225 | whatever the frames, exactly the chosen pages and those the failed attempts reached are added |
| `Stacks.ForkCopies` | pkg/kernel/src/proc/vm/stack.rs:205-256 | the child's stack has the parent's bytes at the same distance, no byte of a page mapped before changes |
| `Stacks.ChildStackPointer` | pkg/kernel/src/proc/process.rs:280-287 | the child's stack pointer is the parent's less that distance |
| `Stacks.FreedOnce` | pkg/kernel/src/proc/vm/stack.rs:181-203 | clean-up frees the range, and a second one does nothing |
| `Stacks.UserStack.Init` | pkg/kernel/src/proc/vm/stack.rs:85-98 | the statements, equal to the function |
| `Stacks.UserStack.HandlePageFault` | pkg/kernel/src/proc/vm/stack.rs:113-175 | likewise |
| `Stacks.UserStack.FindSlot` | pkg/kernel/src/proc/vm/stack.rs:211-225 | the retry loop, equal to the function |
| `Stacks.UserStack.Fork` | pkg/kernel/src/proc/vm/stack.rs:205-240 | room found and pages copied |
| `Stacks.UserStack.CleanUp` | pkg/kernel/src/proc/vm/stack.rs:181-203 | the range is unmapped and the usage reset |
| `Loader.LoadSegmentIs` | pkg/elf/src/lib.rs:319-439 | for any segment, in either build, the bytes copied, followed by zeros, are in its pages; exactly those are added, none mapped before; no other byte changes |
| `Loader.ExtraPage` | pkg/elf/src/lib.rs:408-438 | one page beyond the returned range exactly if there is bss and it ends on a page boundary |
| `Loader.LoadedIsRight` | pkg/elf/src/lib.rs:328-400 | a segment placed in its page as in the file is in memory as the format says exactly if what is not copied is zero: the last bytes of its file part, or, where the count wraps, those before the last page and what follows the segment in the file as far as bss shares that page |
| `Loader.LoadElfBytes` | pkg/elf/src/lib.rs:292-316 | every segment is in memory at the end |
| `Loader.LoadElfPages` | pkg/elf/src/lib.rs:292-316 | the pages are exactly those of the segments, no page is mapped twice |
| `Loader.LoadElfRanges` | pkg/elf/src/lib.rs:292-316 | the recorded ranges, in order |
| `Loader.StopsIs` | pkg/elf/src/lib.rs:350-366 | from the header alone, which segments stop the kernel |
| `Loader.SegmentLoads` | pkg/elf/src/lib.rs:319-439 | with four frames a page a segment loads exactly if it does not stop the kernel and none of its pages is mapped |
| `Loader.ProgramLoads` | pkg/elf/src/lib.rs:292-316 | a program loads exactly if that holds of all its segments and no page belongs to two |
| `Loader.ElfLoader.PutRun` | pkg/elf/src/lib.rs:356-435 | the loop over pages, of the file part and of the bss, equal to the function |
| `Loader.ElfLoader.PutSegment` | pkg/elf/src/lib.rs:319-439 | both loops and the recorded range |
| `Loader.ElfLoader.Load` | pkg/elf/src/lib.rs:292-316 | all segments up to the first failure |
| `Families.DistinctSlots` | pkg/kernel/src/proc/vm/stack.rs:205-240 | live stacks of a family are in distinct slots |
| `Families.FaultAccounted` | pkg/kernel/src/proc/vm/stack.rs:113-175 | a fault keeps every page accounted for and never stops the kernel; loose become exactly the pages of a mapping that failed |
| `Families.FaultResolved` | pkg/kernel/src/proc/manager.rs:182-192 | the fault is reported as handled whatever happened; the page is there exactly if it is on the stack and a frame was left, and off the stack nothing changes |
| `Families.ExitEarly` | pkg/kernel/src/proc/vm/mod.rs:127-161 | a process that leaves others behind frees its stack; a loader leaves its code to nobody |
| `Families.ExitLast` | pkg/kernel/src/proc/vm/mod.rs:127-161 | after the last exit exactly the loose pages stay, and the last heap page if the end is off a boundary; the tables that stay serve such a page; a debug build stops exactly if the heap ends inside its first page |
| `Families.ExitTables` | pkg/kernel/src/proc/vm/mod.rs:144-150 | the tables after an exit: all of them while others use the page table; after the last one, of this space, exactly those on the way to a page that is still mapped |
| `Families.StepAccounted` | pkg/kernel/src/proc/vm/mod.rs:74-161 | every step keeps stacks, heap and code mapped, in shape and disjoint; loose pages grow by exactly the step's gap, which is a function of the state before |
| `FamilyRuns.StepOwned` | pkg/kernel/src/proc/vm/mod.rs:74-161 | a step loses exactly one frame per mapping that failed with a frame in hand |
| `FamilyRuns.ProgramStarts` | pkg/kernel/src/proc/vm/mod.rs:82-98 | with frames enough a program starts in a new space exactly if no segment stops the kernel, no page belongs to two, its pid is one of 16384 and no segment reaches into the top page of its stack's slot |
| `FamilyRuns.StartAccounted` | pkg/kernel/src/proc/vm/mod.rs:82-98 | a loaded program, from its page table on, is accounted for but for the extra bss pages |
| `FamilyRuns.RunAccounted` | pkg/kernel/src/proc/vm/mod.rs:74-161 | in every reachable state, under any tree of forks, faults, brk calls and exits |
| `FamilyRuns.RunOwned` | pkg/kernel/src/proc/vm/mod.rs:74-161 | over a run exactly so many frames are lost as its mappings failed with a frame in hand |
| `FamilyRuns.LifeOfFamily` | pkg/kernel/src/proc/vm/mod.rs:82-161 | from loading to the last exit: the pages that stay mapped are exactly the extra bss pages and what the run leaked, the tables that stay serve them, every frame has one owner, and the number of lost ones is exact |
| `FamilyRuns.AllFramesReturn` | pkg/kernel/src/proc/vm/mod.rs:82-161 | loader last, heap end aligned, no bss to a boundary, no failed mapping: no page and no table stays, no frame is lost |
| `ProcessVms.ProcessVm.LoadElf` | pkg/kernel/src/proc/vm/mod.rs:82-98 | code, then stack; the family the theorems start from |
| `ProcessVms.ProcessVm.Fork` | pkg/kernel/src/proc/vm/mod.rs:100-114 | shared table and heap, a stack of its own, no code |
| `ProcessVms.ProcessVm.CleanUp` | pkg/kernel/src/proc/vm/mod.rs:127-161 | stack always; heap, code and then the tables for the last user, up to the first failure |
| `ProcessVms.ProcessVm.FreeSpareTables` | pkg/kernel/src/proc/vm/mod.rs:144-150 | exactly the tables that serve no page, and the top one, are freed |
| `ProcessVms.ProcessVm.Drop` | pkg/kernel/src/proc/vm/mod.rs:177-183 | clean-up by a member of a family is the family's exit step; the users of the table stay the number of live members |
| `KernelMemory.StepTogether` | pkg/kernel/src/proc/mod.rs:165-188 | one step of kernel and family memory, a fork taking the child's stack from where the memory put it: both stay in order, the family's memory is that of its live processes, and so many users has the page table |
| `KernelMemory.ForkPlaces` | pkg/kernel/src/proc/process.rs:270-300 | the child's stack is in a slot no other member has, and its stack pointer lies there as the parent's in its own |
| `KernelMemory.ForkLands` | pkg/kernel/src/proc/process.rs:270-275 | with frames enough a fork stops the kernel exactly if no slot further down than the caller has children has room; else the child's stack is in the first that has |
| `KernelMemory.MembersMay` | pkg/kernel/src/proc/vm/mod.rs:135-151 | a process is the last of its family exactly if the page table has one user |
| `KernelMemory.SpawnTogether` | pkg/kernel/src/proc/mod.rs:143-155 | a spawned program begins a family of one |
| `KernelMemory.AlwaysTogether` | pkg/kernel/src/proc/mod.rs:143-188 | that holds in every state of every run |
| `MemoryWitnesses.OneByteOfHeap` | pkg/kernel/src/proc/vm/heap.rs:100-120 | brk to one byte: its page stays mapped after clean-up, and a debug build stops |
| `MemoryWitnesses.FailedBrkBlocks` | pkg/kernel/src/proc/vm/heap.rs:52-98 | brk by two pages with frames for one: no later brk succeeds, whatever the frames |
| `MemoryWitnesses.RunIntoMappedPage` | pkg/elf/src/lib.rs:97-130 | two pages of which the second is mapped: the first stays, one frame is lost |
| `MemoryWitnesses.FaultForEver` | pkg/kernel/src/proc/manager.rs:182-192 | an access to address 0 changes nothing and faults again |
| `MemoryWitnesses.BssToTheBoundary` | pkg/elf/src/lib.rs:408-438 | 100 bytes of file, 8192 of memory: two pages recorded, the third mapped too |
| `MemoryWitnesses.OffTheBoundary` | pkg/elf/src/lib.rs:328-400 | a one-byte segment one byte past a page boundary gets the byte before it |
| `MemoryWitnesses.CountWraps` | pkg/elf/src/lib.rs:361-366 | a file part of 0xF80 bytes from 0x1100 on: a build with checks stops, and if it loads it is not right |
| `MemoryWitnesses.CountWrapsAndLoads` | pkg/elf/src/lib.rs:361-366 | without checks it does load |
| `MemoryWitnesses.LoaderExitsFirst` | pkg/kernel/src/proc/vm/mod.rs:127-161 | load, fork, the loader exits, the child exits: the code page is still mapped |
| `Fat16.NextClusterIs` | pkg/storage/src/fs/fat16/impls.rs:42-64 | the entry is the little-endian word of the first table sector exactly for clusters below 256, or, without overflow checks, numbers that wrap to one; end and bad marks come out as invalid |
| `Fat16.FirstSectorIs` | pkg/storage/src/fs/fat16/impls.rs:30-39 | no cluster that a table entry can name overflows; the data begins after reserved sectors, all copies of the table and the root directory, sixteen entries to a sector |
| `Fat16.WrappedSector` | pkg/storage/src/fs/fat16/impls.rs:30-39 | the invalid number wraps to twelve clusters before the data, the empty one to two, or the kernel stops |
| `FatLayout.TablesLie` | pkg/storage/src/fs/fat16/impls.rs:14-18 | every sector of every copy of the table lies below the root directory, the last one directly before it |
| `FatLayout.RootLies` | pkg/storage/src/fs/fat16/impls.rs:15-18 | every root entry lies before the data exactly if the entries fill whole sectors, and the last then directly before it |
| `FatLayout.EverySector` | pkg/storage/src/fs/fat16/impls.rs:14-39 | from the fields alone: every sector is before the tables, or one of a table, the root directory or a cluster |
| `FatLayout.OneRegion` | pkg/storage/src/fs/fat16/impls.rs:14-39 | and only one: no two of these overlap |
| `FatLayout.ClusterLies` | pkg/storage/src/fs/fat16/impls.rs:30-39 | the sectors read for a cluster are the cluster's |
| `FatWitnesses.ClusterInSecondSector` | pkg/storage/src/fs/fat16/impls.rs:42-64 | cluster 256: the table has an entry, the code stops |
| `FatWitnesses.EndMarkIsInvalid` | pkg/storage/src/fs/fat16/impls.rs:42-64 | 0xFFFF comes out as invalid, not as the end |
| `Fat16.ReadFollowsChain` | pkg/storage/src/fs/fat16/file.rs:36-74 | a read from where the handle stands gets the next bytes of the chain, as many as fit or remain |
| `Fat16.FreshRead` | pkg/storage/src/fs/fat16/file.rs:36-74 | one read on a fresh handle gets the first min(buffer, size) bytes of the concatenated clusters |
| `FatLayout.FreshReadBytes` | pkg/storage/src/fs/fat16/file.rs:36-74 | byte i of a first read is, from the fields of the volume and the chain, the byte of the sector where it lies |
| `FatLayout.UsualVolume` | pkg/storage/src/fs/fat16/impls.rs:14-39 | four reserved sectors, two tables of 200, 512 root entries: cluster 2 is read from sector 436 |
| `FatReadingOn.HandleAfter` | pkg/storage/src/fs/fat16/file.rs:36-74 | where the handle stands after a read: the cluster of the last byte read |
| `FatReadingOn.SecondReadStarts` | pkg/storage/src/fs/fat16/file.rs:42-48 | after a first read of any length the second starts on the file's next block exactly if that is in the first cluster, or the first read ended with cluster j - 1 and cluster j of the file is numbered j more |
| `FatReadingOn.SecondReadIsRight` | pkg/storage/src/fs/fat16/file.rs:36-74 | while the first read stays below the end of the first cluster the second gets the next bytes, on any chain |
| `FatReadAll.SecondReadBytes` | pkg/storage/src/fs/fat16/file.rs:36-74 | past the first cluster the second read gets the bytes that lie so many bytes after the start of the cluster of the last byte read, or an error exactly if they leave the partition |
| `FatReadingOn.SecondReadFails` | pkg/storage/src/fs/fat16/file.rs:42-48 | three consecutive one-sector clusters: after two sectors the next read returns a byte that is not the file's |
| `Fat16.SectorOfCluster` | pkg/storage/src/fs/fat16/impls.rs:30-39 | sector s of cluster j of the chain is at (c - 2) * sectors per cluster + s, counted from after the reserved sectors, the tables and the root directory |
| `FatReadAll.ReadAllIs` | pkg/storage/src/common/io.rs:10-24 | on any chain, with even sectors per cluster: the output is the sectors from the first cluster on, an error exactly if the one where the file ends is missing; so right exactly if those have the file's bytes |
| `FatReadAll.ConsecutiveFile` | pkg/storage/src/common/io.rs:10-24 | on consecutive clusters right exactly if that sector is in the partition |
| `FatReadAll.ReadAllOfOne` | pkg/storage/src/common/io.rs:10-24 | with one sector per cluster: the first 1024 bytes are right, the rest is read from after the cluster where they end; exactly when it is right |
| `FatReadAll.EmptyFileIs` | pkg/storage/src/common/io.rs:10-24 | an empty file: zero bytes, an error or a stop, by the build and the volume |
| `FatWitnesses.FragmentedFile` | pkg/storage/src/common/io.rs:10-24 | clusters 2 and 4: the bytes of cluster 3 come out for the second half |
| `FatWitnesses.FileFillsPartition` | pkg/storage/src/common/io.rs:10-24 | a file up to the end of the partition cannot be read |
| `FatFiles.File.Read` | pkg/storage/src/fs/fat16/file.rs:36-74 | the loop, equal to the function, buffer and handle |
| `FatFiles.File.ReadAll` | pkg/storage/src/common/io.rs:10-24 | likewise |
| `FatDirectories.ParseUndoesFormat` | pkg/storage/src/fs/fat16/direntry.rs:71-110 | an entry laid out in its 32 bytes, times included, parses back to itself |
| `FatDirectories.UnpackUndoesPack` | pkg/storage/src/fs/fat16/direntry.rs:95-110 | a time of the years 1980 to 2107, in steps of two seconds, survives packing |
| `FatLayout.FieldsOfEntry` | pkg/storage/src/fs/fat16/direntry.rs:71-92 | name, attributes, cluster and size, byte by byte |
| `FatLayout.LeapDays` | pkg/storage/src/fs/fat16/direntry.rs:97-112 | the 29th of February is a day exactly in years divisible by four except 2100 |
| `FatLayout.LastDays` | pkg/storage/src/fs/fat16/direntry.rs:97-112 | and the 31st exactly not in April, June, September and November |
| `FatLayout.KernelEntry` | pkg/storage/src/fs/fat16/direntry.rs:282-310 | the entry of the repository's test, all fields |
| `FatDirectories.VisitIs` | pkg/storage/src/fs/fat16/impls.rs:75-98 | of the entries in a run of sectors exactly the longest prefix of valid ones, whether an invalid entry, the end of the run or a missing sector follows it |
| `FatLayout.VisitBytes` | pkg/storage/src/fs/fat16/impls.rs:75-98 | the same on the bytes of the sectors: entries are seen up to the first that begins with 0xE5 or is the end mark |
| `FatLayout.RootBytes` | pkg/storage/src/fs/fat16/impls.rs:67-106 | so the root directory, from the fields of the volume and the bytes of its sectors |
| `FatLayout.DirectoryBytes` | pkg/storage/src/fs/fat16/impls.rs:67-106 | and any other directory: full clusters, then one with a deleted entry or the end mark, are listed entry by entry up to it, sixteen to a sector |
| `FatLayout.DeletedHides` | pkg/storage/src/fs/fat16/direntry.rs:52-54 | a name that only entries behind a deleted one have is not found |
| `FatWitnesses.HiddenBehindDeleted` | pkg/storage/src/fs/fat16/direntry.rs:52-54 | a deleted entry and then APP: APP is not found |
| `FatWitnesses.RootInData` | pkg/storage/src/fs/fat16/impls.rs:15-18 | eight root entries lie in the first sector of cluster 2 |
| `FatDirectories.ListingIs` | pkg/storage/src/fs/fat16/impls.rs:67-106 | of the clusters that the traversal visits, wrapped numbers included: listed exactly if some readable entry is invalid and preceded by valid ones only, and then exactly those before it; otherwise the kernel stops |
| `FatDirectories.ClustersOrEndless` | pkg/storage/src/fs/fat16/impls.rs:67-106 | every traversal visits such clusters or goes on through full ones for ever |
| `FatDirectories.FullDirectoryIs` | pkg/storage/src/fs/fat16/impls.rs:67-106 | a directory that fills its clusters is listed right exactly if the sector twelve clusters before the data exists, is reached without a stop and begins with an invalid entry; exactly what is listed otherwise |
| `FatWitnesses.FullDirectoryStops` | pkg/storage/src/fs/fat16/impls.rs:67-106 | a cluster of sixteen entries in use, the last of its chain: in either build the listing stops the kernel |
| `FatWitnesses.FullDirectoryGoesOn` | pkg/storage/src/fs/fat16/impls.rs:67-106 | with thirteen table sectors and no checks: a seventeenth entry is listed, out of the table |
| `FatDirectories.VisitRun` | pkg/storage/src/fs/fat16/impls.rs:86-101 | the loops over blocks and entries |
| `FatDirectories.TraverseChain` | pkg/storage/src/fs/fat16/impls.rs:67-106 | the loop from cluster to cluster |
| `FatDirectories.Traverse` | pkg/storage/src/fs/fat16/impls.rs:67-106 | the listing of the root or of any other directory |
| `FatNames.NamesRoundTrip` | pkg/storage/src/fs/fat16/direntry.rs:147-183 | a shown name, in capitals, small letters or both, leads back to its eleven bytes exactly if it has an extension or no dot |
| `FatNames.ParseNameIs` | pkg/storage/src/fs/fat16/direntry.rs:147-183 | of any text, from its characters and lengths: when it is refused, and otherwise each of the eleven bytes |
| `FatWitnesses.StarInExtension` | pkg/storage/src/fs/fat16/direntry.rs:166-176 | an asterisk is refused before the last dot and taken after it |
| `FatNames.DotsAreCut` | pkg/storage/src/fs/fat16/direntry.rs:147-183 | two dots name the entry of one, three that of two |
| `FatDirectories.Lookup` | pkg/storage/src/fs/fat16/impls.rs:108-118 | in any directory the last match among the entries listed, not found exactly if there is none; a malformed name is an error before anything is read |
| `FatLayout.FoundByText` | pkg/storage/src/fs/fat16/impls.rs:108-118 | from the text to the bytes: a name in capitals or small letters finds in the root directory exactly the last entry with its eleven bytes, of those before the first deleted one or the end mark |

## Left out

- Pid wrap-around: pids are unbounded, and pid 1 makes no system calls.
- The overflow of a semaphore's count and of tick counters.
- Semaphores of a family whose last member has exited stay in the model's map; no later family can name them.
- KernelPrograms.KernelRunIsProgramRun: from a state in which all processes of the program have been forked and its semaphores created; that a user program compiles to these instructions is not modelled.
- The order in which the programs' main processes fork and reap their children, sleeps, and printing inside a critical section as more than one statement.
- Open files, environment variables, reading and writing descriptors: they would only add easy members.
- `process_exit`, the bootloader, interrupt set-up, device drivers, the kernel heap, and the shell.
- ProcessManagers.ProcessManager.Spawn: the program's file and image are given, see `Fat16`, `FamilyRuns.Start` and `KernelMemory.SpawnTogether`.
- ProcessManagers.ProcessManager.Fork: the place of the child's stack is given; `KernelMemory.Next` takes it from the memory.
- KernelInvariant.StepKeepsValid: the panics of loading a program and of placing a child's stack lie below the step; `FamilyRuns.Load` and `Stacks.Retry` have them.
- KernelRuns.ReachableStates: likewise.
- Page flags, the translation cache and the bytes of page tables: a table frame is only owned.  The tables of the kernel's half of the address space belong to no family.
- Loader.LoadSegmentIs: what lies behind the file in memory is a parameter, and reading it does not fault.
- Loader.LoadedIsRight: for segments placed in their page as in the file, as the format requires.
- Stacks.InitShape: a first stack below address zero, for a pid above 16384, stops the kernel in the model; without overflow checks its address wraps into the upper half of the address space.
- Heaps.HeapFollowsEnd: as long as no stack is put into the heap's own 4 GiB slot, which takes more than eight thousand slots; `FamilyRuns.RunAccounted` holds without this.
- Fat16.ReadFollowsChain: for 512-byte sectors and clusters below 256, the ones whose table entries are read.
- FatDirectories.TraverseChain: for directories whose traversal ends; on any other the source loops for ever (`FatDirectories.ClustersOrEndless`).
- FatDirectories.Lookup: names of ASCII characters.
- FatReadAll.ReadAllIs: for cluster sizes that are a power of two, together with `FatReadAll.ReadAllOfOne`.
- Long names of directory entries, path splitting, partition tables.
