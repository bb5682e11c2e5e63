# Verified model of the thread kernel and the device tree reader

This project models the two cores of the system and proves what they promise.

**The SMP thread kernel** (`kernel/`). A table of N thread slots, one ready queue per hart, H harts,
a receive ring for the console. All trap bodies run under one lock, so the kernel is a transition
system whose steps are traps: a timer interrupt, an inter-processor interrupt, received bytes, or a
system call of a hart's current thread (module `Steps`); H >= 1 and N > H stay symbolic.
`KernelState` holds the kernel as one value and `KernelOps` the operations on it, branch for branch.
`KernelMachine` holds the same kernel as the source does, in arrays of slots and per-hart records
with ready lists threaded through the slots and a circular buffer, updated in place; every method is
proved to do what the operation on the value does. `ReadyLists` and `RxRing` tie the linked lists and the
buffer to the sequences they stand for.

On the value the invariants are proved, each over every run: who holds a thread (`Partition`,
`Safety`), who waits for whom (`Links`, `JoinProtocol`), what happened to each slot (`Lifecycle`, over
a history that only records), who may touch what (`Bystanders`, `Blocking`, `Quietness`), where each
input byte goes (`Console`), when a queued thread runs (`Fairness`), when each answer of a call is
given and what it means (`Results`), who runs after each trap that gives up a hart (`Turns`), and which
action caused each event of the history (`Causes`). `Runs` puts them together, from the boot state.

Two assumptions about the environment are explicit. `Exactness` proves that each is exactly what its
invariant needs and what goes wrong otherwise, and `Witnesses` gives a run from boot for each:

* **E1** A kill of a thread that is running on another hart is taken in one step with the interrupt
  that makes that hart let go of it (`Steps.Step`).
* **E2** The victim of an effective kill is not itself waiting in a join (`JoinProtocol.SparesWaiters`,
  used where a statement is about "gentle" runs). The partition, the fairness bound and the conservation
  of input do not need it.

**The flattened device tree reader** (`lib/libfdt/`), after the Devicetree Specification v0.4,
sections 5.2 to 5.5, for version 17 blobs. It never builds a tree: every question is answered by
rescanning a byte stream. `FdtFormat` and `FdtTokens` give the bytes, the 32-bit arithmetic and the
tokens; `FdtTree` an abstract tree and where its nodes lie; `FdtWalk`, `FdtNav`, `FdtPath`, `FdtRoundTrip`,
`FdtProps`, `FdtLists` and `FdtCompatible` specify each scan as a recursive function over bytes and prove
that it answers the question about the tree; `FdtCheck` characterises the full check; `FdtWrite`
serialises whole blobs. `FdtReader`, `FdtQueries` and `FdtLookups` hold the source's loops, with its
wrapping arithmetic and its buffer, each proved to compute the specified function on every checked blob.

Where the code and a natural reading of it part, the code is followed:

* A read of length 0 blocks even when bytes are buffered (`Console.ReadRegisters`).
* The wake-up time `g_ticks + n` wraps at 64 bits, and then lies in the past
  (`Blocking.WakeupAheadIffSleepFits`).
* A blocked reader killed while it stays a zombie remains registered (`Console.KilledReader`).
* A path whose name also matches an earlier sibling's leads to that sibling
  (`FdtRoundTrip.PathRoundTrip`), and an empty name disappears from a path.
* `fdt_stringlist_contains` can find a string that a malformed list ends with, if the byte behind the
  property happens to be zero (`FdtLists.ContainsIffListed`).
* `fdt_check_full` accepts properties in front of the root and a block without a root, but not a NOP
  behind the root (`FdtCheck.CheckFullIff`).
* Signed overflow in the end of an oversized property is taken to wrap (`FdtReader.SkipProp`).

`dafny verify dfyconfig.toml` checks the whole project.

## Model

| member | source | states |
|---|---|---|
| `Runs.InitRecords` | kernel/thread.c:233-277 | booting leaves exactly one user thread, in the slot behind the idle threads, Runnable and alone in the boot hart's queue; the ring is empty |
| `Runs.InitIsSafe` | kernel/thread.c:233-277 | the boot state satisfies every invariant below |
| `Runs.RunsKeepPartition` | kernel/trap.c:225-311 | after every step of every run (E1) the ownership partition holds and no internal check has fired |
| `Runs.RunsKeepJoinProtocol` | kernel/thread.c:457-567 | after every step of every run (E1, E2) the join protocol holds and every thread's record agrees with its history |
| `Runs.HistoriesNeverBreak` | kernel/thread.c:158-187 | in every run from boot (E1, E2) each slot goes through create, terminate, at most one delivery, free, in that order, over and over |
| `Runs.RunsConserveInput` | kernel/console.c:32-59 | over every run the logged arrivals are exactly the bytes of the run's receive actions, the logged takings are exactly the bytes its reads and wake-ups hand out, and the takings followed by the ring are the arrivals minus exactly those that came with 1023 waiting, in order |
| `Runs.InputFromBoot` | kernel/console.c:32-59 | from boot: what readers got, followed by what is still buffered, is what was kept of exactly the bytes that the actions brought in |
| `Console.StepMovesInput` | kernel/console.c:32-59 | a step's arrivals are the bytes of its action; the bytes taken are those its reader asked for or waited for, and that reader's result is their number |
| `Runs.RunsServeReader` | kernel/sysfile.c:30-54 | over every run with one outstanding reader at a time and no kill that leaves it registered, a blocked reader implies an empty ring and is the registered one |
| `Runs.BoundedWaiting` | kernel/sched.c:33-66 | over every run a thread queued at position k of hart h's queue is run by h within 5k + slice_left timer interrupts of h, unless it is killed, whatever the other harts and calls do |
| `Runs.SleepIsExact` | kernel/thread.c:335-345 | over every run a thread asleep for n more ticks sleeps through the first n - 1 and is Runnable (or already running) right after the n-th, unless killed |
| `Runs.RunsKeepSleepersAhead` | kernel/thread.c:429-445 | over every run whose sleeps do not wrap the 64-bit clock, every sleeper's wake-up time is ahead of the clock between steps |
| `Runs.JoinsReturnTheExitCode` | kernel/thread.c:502-567 | over every run a call join(t, ptr) that does not answer at once waits until a step whose action is t's call exit(c), or a kill of t with c = -9; it then returns 0 and c stands at ptr |
| `Runs.JoinOfDeadReturnsItsCode` | kernel/thread.c:530-543 | over every run from boot a join that answers 0 at once stores at ptr the argument of its dead target's last exit call, or -9 if that was killed |
| `Runs.DeliveredCodesAreGiven` | kernel/thread.c:457-567 | over every run from boot every code handed to a joiner is the argument of its target's last exit call, or -9 for a kill |
| `Runs.EventHasStep` | kernel/trap.c:225-311 | over every run every event of the history was appended by one step, whose action is its cause |
| `Causes.StepIsExplained` | kernel/trap.c:225-311 | every event a step appends has its cause in the action: a termination is the thread's call exit(c) or a kill with -9; a delivery serves a waiter or the caller of join, returns 0 and stores the code where the call said; likewise creations, frees, arrivals and takings |
| `Partition.OwnershipPartition` | kernel/include/thread.h:24-29 | a user thread is Runnable iff it stands in a ready queue, then at one place of one queue only; it is a hart's current thread iff it is Running there, then on one hart only |
| `Partition.IdleThreadsStayHome` | kernel/include/thread.h:24-29 | idle threads are never queued, and hart h only ever runs idle thread h or a user thread |
| `Partition.ScheduleRestoresCore` | kernel/thread.c:347-399 | whatever a trap did to the hart's current thread, schedule leaves every thread in its place and the hart running one |
| `Safety.StepKeepsInv` | kernel/trap.c:225-311 | every enabled step keeps the partition; the double-enqueue panic and the frame assertion are unreachable |
| `Safety.FrameIsCurrent` | kernel/thread.c:352-352 | the frame a hart's next trap will use is always its current thread's |
| `Safety.MakeRunnableKeepsCore` | kernel/thread.c:44-61 | making a thread ready keeps the partition |
| `Safety.RecycleKeepsCore` | kernel/thread.c:158-187 | freeing the slot of a thread that is neither queued nor held keeps the partition |
| `Safety.ThreadsTickKeepsInv` | kernel/thread.c:335-345 | a tick keeps the partition however many sleepers it wakes |
| `Safety.KillKeepsCore` | kernel/thread.c:602-696 | a kill keeps the partition up to the hart that still executes the victim |
| `Safety.KillStepKeepsInv` | kernel/thread.c:602-696 | a kill together with the interrupt that takes the victim off its hart keeps the partition |
| `Safety.JoinKeepsCore` | kernel/thread.c:502-567 | a join keeps the partition whether it is refused, collects a dead thread or waits |
| `Safety.DetachKeepsCore` | kernel/thread.c:698-734 | a detach keeps the partition |
| `Safety.CharsKeepCore` | kernel/console.c:43-59 | arriving bytes keep the partition |
| `Exactness.KillKeepsPartitionIffNotExecuting` | kernel/thread.c:650-658 | a kill without its interrupt keeps the partition if and only if no hart is executing the victim (why E1 is assumed) |
| `Exactness.JoinFreesExecutingSlot` | kernel/thread.c:530-543 | otherwise: a join right after such a kill frees a slot that a hart is still running |
| `Exactness.KillKeepsLinksIffVictimNotWaiting` | kernel/thread.c:641-692 | a kill step keeps the join protocol if and only if its victim is not waiting in a join (why E2 is assumed) |
| `Exactness.KilledWaiterRises` | kernel/thread.c:641-692 | otherwise: whoever kills the waiting thread, when the thread it was joining then exits, on whatever hart, the dead victim's slot becomes Runnable again |
| `Exactness.RiseOnDeath` | kernel/thread.c:457-496 | the same at any later time: a dying thread that still names an unqueued thread as its joiner makes that thread Runnable |
| `Witnesses.ExecutingSlotIsFreed` | kernel/thread.c:650-658 | a seven-step run from boot with two harts after which a kill and a join, with no interrupt between, free a slot that hart 1 is executing |
| `Witnesses.KilledWaiterRunsAgain` | kernel/thread.c:641-692 | a six-step run from boot with one hart in which a thread killed while waiting in a join is running again after its target has exited |
| `Results.JoinAnswers` | kernel/thread.c:502-567 | in every state that keeps the partition: 0 exactly for a dead, attached target that nobody else joins, whose code is stored and whose slot is freed, nothing else changing; the caller waits exactly for a live one; -1, -2, -3, -5, -4 each exactly under its own guard, and then only the result changes |
| `Results.CreateAnswers` | kernel/thread.c:311-332 | -1 exactly when no slot is free, and then nothing changes; otherwise the lowest free slot, a killable, attached user thread with the argument, appended to the queue of a least loaded hart, all other threads untouched |
| `Results.KillAnswers` | kernel/thread.c:602-696 | 0 exactly for a killable thread in use other than the caller: one that was alive has ended, a zombie with code -9 or a freed slot, and its end is recorded; -1, -2, -4, -3 each exactly under its own guard, and then only the result changes |
| `Results.DetachAnswers` | kernel/thread.c:698-734 | 0 exactly for a thread in use, not idle and not joined: it is then detached, or its slot free if it was dead; -1, -2, -3, -4 each exactly under its own guard, and then only the result changes |
| `Turns.YieldPassesTurn` | kernel/thread.c:429-449 | yield and sleep(0): with a non-empty queue the old head runs and the caller is Runnable at the tail; alone it runs on; either way with a slice of 5 ticks, and no other thread changes |
| `Turns.IpiPassesTurn` | kernel/sched.c:58-66 | the inter-processor interrupt passes the turn in the same way; the idle thread is not queued |
| `Turns.TimerTurns` | kernel/sched.c:33-55 | a timer interrupt takes one tick off the slice and nothing more while ticks are left; the last one passes the turn |
| `Turns.SleepLeavesCpu` | kernel/thread.c:429-445 | sleep(n): the caller is Sleeping until n ticks from now, on no queue and no hart; the head of the queue or the idle thread runs; no other thread changes |
| `Turns.ReadLeavesCpu` | kernel/thread.c:792-802 | a read without a byte to take: the caller is Blocked with its request, registered as the reader, and the head of the queue runs |
| `Turns.JoinLeavesCpu` | kernel/thread.c:545-567 | a join that waits: the caller is Waiting with target and pointer, the target names it, and the head of the queue runs |
| `Turns.ExitEndsCaller` | kernel/thread.c:457-496 | exit(c): the caller is a zombie with code c if it was attached and not joined, else its slot is free; it is current on no hart and on no queue; its end with c is the first event recorded; only its joiner and the thread that runs next change besides it |
| `Turns.ExitHandsOver` | kernel/thread.c:470-495 | after exit(c) the head of the queue runs, with an empty queue the idle thread or the joiner placed there; a joiner's call has returned 0 with c at its status pointer, and without a joiner no word is written |
| `Turns.SwitchTakesHead` | kernel/thread.c:347-399 | a switch in the middle of any trap: a still running user thread goes behind the queue, and the head of the whole comes next |
| `Turns.HartStarts` | kernel/cpu.c:32-108 | coming online gives a fresh slice and no thread; entering idle runs the hart's own idle thread; no other hart or thread changes |
| `Links.WaitsForIsInjective` | kernel/thread.c:502-567 | the waits-for relation is a partial injection and never leads to a dead or detached thread |
| `Links.ScheduleTouchesTwo` | kernel/thread.c:347-399 | a switch changes the records of the thread that leaves and the thread that comes, and of no other |
| `Links.ScheduleEffect` | kernel/thread.c:366-371 | what a switch may do to a record: change state and hart between Running and Runnable, or free a dead current thread nobody can collect |
| `Links.DieRecords` | kernel/thread.c:457-496 | an exit changes the dying thread and its joiner only, and logs one termination and at most one delivery |
| `Links.KillRecords` | kernel/thread.c:602-696 | a kill changes the victim, its joiner and the caller's result only, and logs one termination and at most one delivery |
| `JoinProtocol.StepKeepsLinks` | kernel/thread.c:457-567 | every step (E1, E2) keeps: a waiting thread's target lives and names it; a named joiner waits for exactly this thread; a detached thread has no joiner |
| `JoinProtocol.ZombiesHaveNoJoiner` | kernel/thread.c:457-496 | under the protocol a dead thread has no joiner left |
| `Lifecycle.DeliveredCodeIsExitCode` | kernel/thread.c:530-543 | in any unbroken history a delivered code is the code the thread last terminated with; `Runs.DeliveredCodesAreGiven` ties that to the exit call |
| `Lifecycle.DeliveredOncePerDeath` | kernel/thread.c:457-567 | between two deliveries of a slot's code there is another termination: each death reaches at most one joiner |
| `Lifecycle.RecycledOncePerDeath` | kernel/thread.c:158-187 | between two frees of a slot there is another termination |
| `Lifecycle.LifeIsLastEvent` | kernel/thread.c:158-187 | where a thread stands in its life is fixed by the last event about it |
| `Lifecycle.StepKeepsHistory` | kernel/trap.c:225-311 | every step (E1, E2) keeps each record in agreement with its history |
| `Bystanders.BystanderEvolves` | kernel/trap.c:225-311 | a thread that is neither current on the trapping hart nor killed changes only by being woken, served, queued, run or joined |
| `Blocking.OthersUndisturbed` | kernel/trap.c:225-311 | no step writes the frame or state of a thread that is current on another hart |
| `Blocking.VictimsDie` | kernel/thread.c:602-696 | the victim of an effective kill is dead after the step |
| `Blocking.SleeperSteps` | kernel/thread.c:335-345 | a sleeper sleeps on through every step except the tick it waits for (or a kill) |
| `Blocking.WaiterSteps` | kernel/thread.c:457-567 | a waiting thread waits on through every step except the one in which its target dies, which serves it |
| `Blocking.CurrentMoves` | kernel/thread.c:429-445 | a thread falls asleep or blocks only by its own call, with the wake-up time or request it asked for |
| `Blocking.WakeupAheadIffSleepFits` | kernel/thread.c:439-439 | a new sleeper's wake-up time is ahead of the clock if and only if ticks + n does not wrap at 64 bits |
| `Blocking.StepKeepsSleepersAhead` | kernel/thread.c:335-345 | every step keeps every sleeper's wake-up time ahead of the clock |
| `Quietness.StepQuietness` | kernel/trap.c:225-311 | only a timer interrupt on the boot hart moves the clock, by one; only bytes and reads touch the console |
| `Console.StepKeepsBalance` | kernel/console.c:32-59 | no step loses, repeats or reorders an arrival except by the ring being full; with `StepMovesInput`, the arrivals are the action's bytes |
| `Console.FirstByteGoesToReader` | kernel/thread.c:804-830 | the first byte to arrive goes to the blocked reader, which becomes Runnable with result 1 |
| `Console.ArrivalWakesReader` | kernel/thread.c:804-830 | an arriving byte always makes the registered blocked reader Runnable and ends its registration, even when it asked for no byte |
| `Console.BurstServesReader` | kernel/console.c:43-59 | a burst gives the reader its first byte and buffers the next 1023 in order |
| `Console.LaterBytesAreBuffered` | kernel/console.c:43-59 | without a reader, bytes are buffered in order up to 1023 and then dropped |
| `Console.ReadRegisters` | kernel/sysfile.c:30-54 | a read either takes the first min(len, buffered) bytes at once or, when that is none, registers as the reader and blocks, whoever was registered before |
| `Console.KilledReader` | kernel/thread.c:184-186 | killing the blocked reader clears its registration exactly when its slot is freed |
| `Console.ReaderServedIffOneReader` | kernel/sysfile.c:30-54 | the blocked reader stays served across a step if and only if the request is for at least one byte into a real buffer with no other reader outstanding, and no kill leaves it registered |
| `Fairness.StepAdvances` | kernel/sched.c:33-66 | the rank 5 * position + slice_left of a queued thread falls with every timer interrupt of its hart and no other step raises it, until it runs |
| `Fairness.ScheduleLowersRank` | kernel/thread.c:347-399 | a switch on the hart uses up a whole slice of the rank |
| `KernelOps.PickTargetIsBest` | kernel/sched.c:69-86 | a thread made ready goes to an online hart with a shortest queue; the waker wins ties, then the lowest number |
| `KernelOps.AllocFrom` | kernel/thread.c:102-109 | the lowest free slot, or -1 when none is free |
| `ReadyLists.PushLists` | kernel/runqueue.c:36-58 | linking a thread at the tail makes the list spell the queue with the thread appended; all other lists keep their spelling |
| `ReadyLists.PopLists` | kernel/runqueue.c:61-79 | unlinking the head makes the list spell the queue without its first element |
| `ReadyLists.RemoveLists` | kernel/runqueue.c:89-121 | unlinking an inner element makes the list spell the queue without that element, order kept |
| `ReadyLists.WithoutAt` | kernel/runqueue.c:89-121 | removing an element of a queue without repetitions cuts out exactly its position |
| `KernelMachine.Kernel.constructor` | kernel/thread.c:233-277 | the boot code builds the initial state: arrays, lists and ring represent it |
| `KernelMachine.Kernel.RqPushTail` | kernel/runqueue.c:36-58 | pushes at the tail of the linked list; panics on a queued thread |
| `KernelMachine.Kernel.RqPopHead` | kernel/runqueue.c:61-79 | takes the first thread off the linked list, or -1 |
| `KernelMachine.Kernel.RqRemove` | kernel/runqueue.c:89-121 | the pointer-chasing removal: 0 and the queue without the thread iff it was on this queue |
| `KernelMachine.Kernel.RqRemoveAny` | kernel/runqueue.c:124-133 | removes a queued thread and names the hart it was queued on |
| `KernelMachine.Kernel.LenIsLength` | kernel/runqueue.c:82-86 | the length field is the exact length of the queue |
| `KernelMachine.Kernel.RqSnapshot` | kernel/runqueue.c:136-153 | copies a prefix of the queue of the requested length, ended by -1 if there is room |
| `KernelMachine.Kernel.PickTargetHart` | kernel/sched.c:69-86 | the scan over the harts chooses the least loaded one |
| `KernelMachine.Kernel.MakeReady` | kernel/thread.c:44-61 | computes the specified placement of a thread made ready |
| `KernelMachine.Kernel.AllocSlot` | kernel/thread.c:102-109 | the scan finds the lowest free slot |
| `KernelMachine.Kernel.Free` | kernel/thread.c:158-187 | frees a slot in place |
| `KernelMachine.Kernel.SysCreate` | kernel/thread.c:451-455 | creates a thread and writes the caller's result |
| `KernelMachine.Kernel.Tick` | kernel/thread.c:335-345 | the scan over the table wakes exactly the sleepers that are due |
| `KernelMachine.Kernel.LeaveCpu` | kernel/thread.c:355-371 | the first half of a switch: put back, or reap, the current thread |
| `KernelMachine.Kernel.PickNext` | kernel/thread.c:373-398 | the pop loop: the first Runnable thread of the queue, else the idle thread |
| `KernelMachine.Kernel.Reschedule` | kernel/thread.c:347-399 | the whole switch |
| `KernelMachine.Kernel.SysSleep` | kernel/thread.c:429-449 | computes the specified sleep and yield, whose effects `Turns.YieldPassesTurn` and `Turns.SleepLeavesCpu` state |
| `KernelMachine.Kernel.SysExit` | kernel/thread.c:457-496 | computes the specified exit, whose effects `Turns.ExitEndsCaller` and `Turns.ExitHandsOver` state |
| `KernelMachine.Kernel.SysJoin` | kernel/thread.c:502-567 | computes the specified join, whose answers `Results.JoinAnswers` states |
| `KernelMachine.Kernel.SysKill` | kernel/thread.c:602-696 | computes the specified kill, whose answers `Results.KillAnswers` states |
| `KernelMachine.Kernel.SysDetach` | kernel/thread.c:698-734 | computes the specified detach, whose answers `Results.DetachAnswers` states |
| `KernelMachine.Kernel.ReadNonblock` | kernel/console.c:32-40 | takes the first min(len, buffered) bytes out of the ring |
| `KernelMachine.Kernel.WakeBlocked` | kernel/thread.c:415-423 | wakes a thread that is blocked and no other |
| `KernelMachine.Kernel.FeedWaiter` | kernel/thread.c:804-830 | serves the registered reader from the ring |
| `KernelMachine.Kernel.OnByte` | kernel/console.c:43-59 | an arriving byte: buffered or dropped, then the reader is served |
| `KernelMachine.Kernel.OnBytes` | kernel/console.c:43-59 | a burst is its bytes one after another |
| `KernelMachine.Kernel.SysRead` | kernel/sysfile.c:30-54 | read, as specified: bytes at once, or block |
| `KernelMachine.Kernel.CountDown` | kernel/sched.c:44-54 | counts the slice down and switches when it is used up |
| `KernelMachine.Kernel.TimerIrq` | kernel/sched.c:33-55 | the timer interrupt; only the boot hart advances time |
| `KernelMachine.Kernel.IpiIrq` | kernel/sched.c:58-66 | the inter-processor interrupt switches |
| `KernelMachine.Kernel.HandleSyscall` | kernel/trap.c:142-222 | dispatches the call with the frame of the trapping thread |
| `KernelMachine.Kernel.GoOnlineOn` | kernel/cpu.c:32-62 | a hart comes online with a fresh slice and no thread |
| `KernelMachine.Kernel.EnterIdleOn` | kernel/cpu.c:65-108 | a hart starts running its own idle thread |
| `KernelMachine.Kernel.TrapEntry` | kernel/trap.c:225-311 | one trap on the arrays and lists does what the transition system's trap does |
| `KernelMachine.Kernel.RunStep` | kernel/trap.c:225-311 | one step on the arrays and lists is one step of the transition system, and keeps the partition |
| `RxRing.Ring.Put` | kernel/console.c:43-50 | the circular buffer holds its contents with the byte appended, unless 1023 are buffered |
| `RxRing.Ring.Take` | kernel/console.c:32-40 | takes the oldest bytes out of the circular buffer in order |
| `RxRing.Ring.FullnessIsLength` | kernel/console.c:17-20 | the buffer is full exactly when it holds 1023 bytes |
| `FdtFormat.CheckedBounds` | lib/libfdt/fdt.c:90-139 | a blob whose header passes the check has both blocks inside itself, in spite of 32-bit wrap-around in the tests |
| `FdtFormat.HeaderAnswers` | lib/libfdt/fdt.c:90-139 | 0 if and only if the pointer is aligned, the magic bytes are d0 0d fe ed, the versions are known and both blocks and the reservation block lie behind the header and inside the total size; -19, -9, -10, -8 each exactly when it is the first of these to fail |
| `FdtFormat.HeaderLayout` | lib/libfdt/fdt.h:20-37 | each header word the reader uses lies at its four bytes, most significant byte first |
| `FdtFormat.StringIsSpelled` | lib/libfdt/fdt_ro.c:34-98 | an offset denotes the text t if and only if t, without a zero byte in it, and a zero byte behind it are written there inside the block |
| `FdtFormat.StringOrError` | lib/libfdt/fdt_ro.c:53-98 | it denotes some text if and only if a zero byte follows inside the block; otherwise TRUNCATED inside the block and BADOFFSET outside |
| `FdtFormat.OffsetPtrIsInBlock` | lib/libfdt/fdt.c:141-161 | the wrapping tests of the pointer function succeed if and only if the bytes lie inside the structure block |
| `FdtFormat.NextTag` | lib/libfdt/fdt.c:163-222 | a non-negative next offset is at least 4 on, aligned and less than 4 past the block; an error is TRUNCATED or BADSTRUCTURE with the end tag |
| `FdtFormat.Terminator` | lib/libfdt/fdt.c:185-190 | the first zero byte, or the end |
| `FdtTokens.TagsStayInBounds` | lib/libfdt/fdt.c:163-222 | progress and bounds: the next offset is at least 4 on and aligned, and the token read lies inside the structure block, which lies inside the blob |
| `FdtTokens.NextTagReads` | lib/libfdt/fdt.c:163-222 | on any well-placed token the reader reports its tag and where the next token starts, whatever the padding holds |
| `FdtTokens.NextTagParses` | lib/libfdt/fdt.c:163-222 | whenever the reader reports no error there is a token there |
| `FdtTokens.NextTagErrors` | lib/libfdt/fdt.c:163-222 | there is no error if and only if some token lies there; otherwise TRUNCATED outside the block or within four bytes of its end, else BADSTRUCTURE |
| `FdtTokens.TagBytes` | lib/libfdt/fdt.h:61-67 | every token starts with its four bytes: 1, 2, 3, 4 or 9, most significant first |
| `FdtTokens.PropBytes` | lib/libfdt/fdt.h:49-54 | a property lies somewhere if and only if tag, length, name offset and value are written there in this order |
| `FdtTokens.OffsetIsInjective` | lib/libfdt/fdt.c:163-222 | offsets of tokens are ordered as the tokens are |
| `FdtTokens.WrittenTokensAreThere` | lib/libfdt/fdt.c:163-222 | every token sequence can be serialised so that it reads back as these tokens |
| `FdtWalk.NodeOffsetIsBegin` | lib/libfdt/fdt.c:224-234 | an offset is accepted as a node's if and only if it is aligned and a begin token lies there; otherwise BADOFFSET |
| `FdtWalk.ScanFollowsTokens` | lib/libfdt/fdt.c:248-286 | the node scan over bytes stops where the scan over tokens stops, with the same depth |
| `FdtWalk.NodeWalks` | lib/libfdt/fdt.c:248-286 | walking a node meets its nodes in document order and ends at its own end token, at its own depth |
| `FdtWalk.WalkBelow` | lib/libfdt/fdt.c:248-286 | started at any node with depth 0 the walk visits exactly the node's descendants in document order with their depths below it, then leaves it with depth -1 |
| `FdtWalk.NextNodeIsPreorder` | lib/libfdt/fdt.c:248-286 | from the root with depth 0 the walk visits exactly the tree's nodes in document order, the counter equal to the depth |
| `FdtWalk.UntrackedWalk` | lib/libfdt/fdt.c:248-286 | from -1 without a depth pointer the walk visits the root, every node in order, then answers NOTFOUND |
| `FdtTree.LocIsVisited` | lib/libfdt/fdt.c:248-286 | every node of the tree is visited, at its own position and depth |
| `FdtTree.VisitIsLocated` | lib/libfdt/fdt.c:248-286 | and nothing else is: every visit is to a node of the tree |
| `FdtTree.BetweenAncestorAndNode` | lib/libfdt/fdt_ro.c:623-659 | in document order everything between an ancestor and the node is deeper than the ancestor |
| `FdtNav.FirstSubnodeIsFirstChild` | lib/libfdt/fdt.c:288-297 | the first child, or NOTFOUND for a node without children |
| `FdtNav.NextSubnodeIsNextChild` | lib/libfdt/fdt.c:299-314 | the next sibling, skipping a whole subtree of any depth, or NOTFOUND after the last child |
| `FdtNav.LastAtIsAncestor` | lib/libfdt/fdt_ro.c:623-659 | the last node at depth d up to a node is the node's ancestor at depth d |
| `FdtNav.SupernodeIsAncestor` | lib/libfdt/fdt_ro.c:623-659 | the ancestor at depth d for every d up to the node's depth, which is reported; NOTFOUND for larger d |
| `FdtNav.NodeDepthIsDepth` | lib/libfdt/fdt_ro.c:661-671 | the node's depth in the tree |
| `FdtNav.ParentOffsetIsParent` | lib/libfdt/fdt_ro.c:673-681 | the parent; NOTFOUND for the root |
| `FdtPath.SubnodeIsFirstMatch` | lib/libfdt/fdt_ro.c:225-242 | the first child that is called s; never a deeper node; NOTFOUND when none is |
| `FdtPath.FirstMatch` | lib/libfdt/fdt_ro.c:13-32 | the first of the children that is called s: by its whole name, or, when s holds no at sign, by s and an at sign at the start of the name |
| `FdtPath.MatchesIffNamed` | lib/libfdt/fdt_ro.c:13-32 | the comparison in the buffer succeeds if and only if the node is called s in that sense |
| `FdtPath.PathOffsetResolves` | lib/libfdt/fdt_ro.c:250-296 | for every path that starts with a slash, repeated and trailing slashes included, lookup is going down the tree, each time into the first child called by the next name, with or without its unit address; NOTFOUND exactly when some name calls no child |
| `FdtRoundTrip.GetPathWritesPath` | lib/libfdt/fdt_ro.c:571-621 | the names from the root down to the node, exactly when buflen >= 2 and the text with its NUL fits; NOSPACE otherwise |
| `FdtRoundTrip.PathRoundTrip` | lib/libfdt/fdt_ro.c:250-296 | looking up the path written for a node gives the node back if and only if no name on it is empty and no node on it has an earlier sibling that is called by its name |
| `FdtRoundTrip.DistinctNamesRoundTrip` | lib/libfdt/fdt_ro.c:571-621 | with sibling names distinct and no "b@u" beside a "b", every path leads back to its node |
| `FdtRoundTrip.ResolvesIffUnshadowed` | lib/libfdt/fdt_ro.c:225-242 | the names of a node resolve to it if and only if no earlier sibling on the way is called by them |
| `FdtRoundTrip.ComponentsOfWritten` | lib/libfdt/fdt_ro.c:276-293 | splitting a written path gives its names back, except that empty names are lost |
| `FdtRoundTrip.OffsetAtIsInjective` | lib/libfdt/fdt_ro.c:571-621 | different nodes have different offsets |
| `FdtRoundTrip.PopsNames` | lib/libfdt/fdt_ro.c:585-590 | backing up in the buffer removes whole names as long as names hold no slash |
| `FdtProps.GetPropIsFirstOwn` | lib/libfdt/fdt_ro.c:397-470 | the node's own first property whose name offset has the name written at it in the strings block, wherever NOPs stand; NOTFOUND when it has none; a child's properties are never looked at |
| `FdtProps.PropIndex` | lib/libfdt/fdt_ro.c:397-425 | which property that is: the name is written at its name offset (`FdtFormat.Spelled`), it stands before the first child, and no earlier own property is named so |
| `FdtProps.NamedWhereWritten` | lib/libfdt/fdt_ro.c:105-112 | passing the name offset as a signed int makes no difference for a strings block that an int can measure |
| `FdtProps.PropOffsetIsProp` | lib/libfdt/fdt.c:236-246 | an offset is accepted as a property's if and only if it is aligned and a property lies there |
| `FdtProps.NextProperty` | lib/libfdt/fdt_ro.c:351-357 | a next property lies strictly further on |
| `FdtLists.PartsOfListed` | lib/libfdt/fdt_ro.c:735-850 | strings written one after another are exactly the strings read from the list |
| `FdtLists.CountIsParts` | lib/libfdt/fdt_ro.c:752-775 | the number of strings of a well-formed list; BADVALUE for any other |
| `FdtLists.GetIsPart` | lib/libfdt/fdt_ro.c:807-850 | the string of that index, also in front of a malformed end; NOTFOUND or BADVALUE past it, by whether the list is well-formed |
| `FdtLists.SearchIsFirst` | lib/libfdt/fdt_ro.c:777-805 | the least index of the string; NOTFOUND, or BADVALUE for a malformed list, exactly when it is not listed |
| `FdtLists.SearchAgreesWithGet` | lib/libfdt/fdt_ro.c:777-850 | search gives the least index whose get is the string, and NOTFOUND exactly when no index below count has it |
| `FdtLists.ContainsIffListed` | lib/libfdt/fdt_ro.c:735-750 | for every list and string: contained if and only if listed, or equal to what follows the last terminator with a zero byte behind the list |
| `FdtLists.ContainsAgreesWithSearch` | lib/libfdt/fdt_ro.c:735-805 | on a well-formed list and a non-empty string, contains agrees with search |
| `FdtCompatible.CheckIsAccepts` | lib/libfdt/fdt_ro.c:852-863 | for any list and key: 0 exactly when the node has a list that names the key, or a malformed one that ends in it with a zero byte behind |
| `FdtCompatible.OffsetByCompatibleIsFirst` | lib/libfdt/fdt_ro.c:865-888 | for any lists and key: the first node in document order strictly after the start that is so accepted; NOTFOUND exactly when none is |
| `FdtCompatible.AcceptedIsCompatible` | lib/libfdt/fdt_ro.c:865-888 | with well-formed lists and a non-empty key that is the first node whose list names the key |
| `FdtCompatible.FirstAcceptedIsFirst` | lib/libfdt/fdt_ro.c:865-888 | the first accepted node of a stretch of the document is accepted, none before it is |
| `FdtCheck.NumMemRsvIsFirstZero` | lib/libfdt/fdt_ro.c:189-199 | the number of reservation entries before the first of size zero; TRUNCATED exactly when no entry inside the blob has size zero |
| `FdtCheck.RsvOffsetIsEntry` | lib/libfdt/fdt_ro.c:160-173 | an entry is found if and only if it lies inside the blob, in spite of 32-bit wrap-around |
| `FdtCheck.AcceptedIsShape` | lib/libfdt/fdt_check.c:40-95 | soundness: an accepted block is properties and NOPs, then at most one root, with an empty name, begins and ends balanced, then the end token; every property name resolves |
| `FdtCheck.ShapeIsAccepted` | lib/libfdt/fdt_check.c:40-95 | completeness: every such block is accepted |
| `FdtCheck.CheckFullIff` | lib/libfdt/fdt_check.c:13-96 | the full check answers 0 if and only if the buffer has 40 bytes and holds the blob, the header is good, some reservation entry has size zero and the structure block has that shape |
| `FdtCheck.CheckFullAnswers` | lib/libfdt/fdt_check.c:13-96 | what it answers otherwise: TRUNCATED for a short buffer, the header's error, TRUNCATED for a blob longer than the buffer or an unterminated reservation block, and then BADOFFSET, TRUNCATED or BADSTRUCTURE |
| `FdtCheck.WalkEndsInNotFound` | lib/libfdt/fdt.c:248-286 | on an accepted blob the walk from -1 goes on to a node or ends in NOTFOUND; no other error can occur |
| `FdtCheck.AcceptedHoldsTree` | lib/libfdt/fdt_check.c:13-96 | an accepted blob that starts with a begin token holds a tree with an unnamed root, so all tree queries above apply |
| `FdtCheck.AtMostOneTree` | lib/libfdt/fdt_check.c:13-96 | a block holds at most one tree |
| `FdtWrite.BlobIsChecked` | lib/libfdt/fdt.c:90-139 | a blob assembled from a structure and a strings block passes the header check and yields these blocks |
| `FdtWrite.WrittenBlobIsAccepted` | lib/libfdt/fdt_check.c:13-96 | every tree with an unnamed root and resolving property names has a blob that the full check accepts and that holds this tree only |
| `FdtReader.SkipName` | lib/libfdt/fdt.c:184-192 | the byte loop finds the name's terminator, or runs out of the block |
| `FdtReader.SkipProp` | lib/libfdt/fdt.c:194-211 | the wrapping end of a property is right exactly when the property lies in the block |
| `FdtReader.NextTagAt` | lib/libfdt/fdt.c:163-222 | the tag reader in 32-bit arithmetic computes the specified tag and offset on every checked blob and every offset |
| `FdtReader.CheckNodeOffsetAt` | lib/libfdt/fdt.c:224-234 | accepts exactly aligned offsets of begin tokens |
| `FdtReader.NextNodeAt` | lib/libfdt/fdt.c:248-286 | the node loop computes the specified step, with and without a depth pointer |
| `FdtReader.FirstSubnodeAt` | lib/libfdt/fdt.c:288-297 | computes the specified first child |
| `FdtReader.NextSubnodeAt` | lib/libfdt/fdt.c:299-314 | the sibling loop computes the specified next child |
| `FdtReader.SupernodeAtDepth` | lib/libfdt/fdt_ro.c:623-659 | the ancestor loop computes the specified ancestor and depth |
| `FdtReader.NodeDepthOf` | lib/libfdt/fdt_ro.c:661-671 | computes the specified depth |
| `FdtReader.ParentOf` | lib/libfdt/fdt_ro.c:673-681 | computes the specified parent |
| `FdtQueries.NameOf` | lib/libfdt/fdt_ro.c:303-339 | computes a node's name |
| `FdtQueries.StringOf` | lib/libfdt/fdt_ro.c:34-98 | computes the text at an offset of the strings block, which `FdtFormat.StringIsSpelled` characterises, with its errors |
| `FdtQueries.SubnodeOffset` | lib/libfdt/fdt_ro.c:225-242 | the loop over a node's children computes the specified search for the first child called by the name |
| `FdtQueries.PathOffsetOf` | lib/libfdt/fdt_ro.c:250-296 | the pointer loop over the path computes the specified lookup |
| `FdtQueries.PopName` | lib/libfdt/fdt_ro.c:586-588 | the inner loop goes back to just behind the previous slash and never further than the buffer |
| `FdtQueries.PutName` | lib/libfdt/fdt_ro.c:585-602 | one round of the path loop on the buffer: back up, then append the name if it fits |
| `FdtQueries.WritePath` | lib/libfdt/fdt_ro.c:571-621 | the path loop writes the specified text and its NUL into the buffer, or answers the specified error, and writes nothing behind buflen |
| `FdtQueries.NodesAreInside` | lib/libfdt/fdt_ro.c:571-621 | for every node of a tree the walk to it stays inside the root, which is what the path writer needs |
| `FdtLookups.NextPropAt` | lib/libfdt/fdt_ro.c:201-223 | the loop over NOPs computes the specified next property |
| `FdtLookups.CheckPropOffsetAt` | lib/libfdt/fdt.c:236-246 | accepts exactly aligned offsets of properties |
| `FdtLookups.FirstPropertyAt` | lib/libfdt/fdt_ro.c:341-349 | computes the specified first property |
| `FdtLookups.NextPropertyAt` | lib/libfdt/fdt_ro.c:351-357 | computes the specified next property |
| `FdtLookups.PropertyOf` | lib/libfdt/fdt_ro.c:397-470 | the property loop computes the specified lookup |
| `FdtLookups.ListContains` | lib/libfdt/fdt_ro.c:735-750 | the loop computes the specified containment |
| `FdtLookups.ListCount` | lib/libfdt/fdt_ro.c:752-775 | the loop computes the specified count of a node's list |
| `FdtLookups.ListSearch` | lib/libfdt/fdt_ro.c:777-805 | the loop computes the specified search of a node's list |
| `FdtLookups.ListGet` | lib/libfdt/fdt_ro.c:807-850 | the loop computes the specified element of a node's list |
| `FdtLookups.NodeCheckCompatible` | lib/libfdt/fdt_ro.c:852-863 | computes the specified check |
| `FdtLookups.NodeOffsetByCompatible` | lib/libfdt/fdt_ro.c:865-888 | the node loop computes the specified search |
| `FdtLookups.NumMemRsv` | lib/libfdt/fdt_ro.c:189-199 | the entry loop computes the specified count |
| `FdtLookups.ScanStructure` | lib/libfdt/fdt_check.c:40-95 | the token loop of the full check computes the specified verdict |
| `FdtLookups.CheckFullBlob` | lib/libfdt/fdt_check.c:13-96 | the full check computes the specified verdict |

## Left out

Kernel:

- Assembly, control registers, timer, interrupt controller and console device access: an interrupt or a byte is a step of the environment; sending an IPI is left to E1.
- Spinlocks and the order in which harts obtain the lock: each trap body is one atomic step.
- The frame beyond the result register, stacks and user memory beyond the join status words and the bytes handed to reads.
- `need_resched`, which is written but never read; `last_hart`, run and migration counters, thread names, trap and interrupt statistics, logging, backtraces.
- The system calls for writing, listing threads, clocks, interrupt statistics, hart id and queue snapshots enter only as a call that writes some result; the snapshot of a queue itself is modelled (`RqSnapshot`).
- A breakpoint or fault of a user thread, which ends it, is not a step of its own: it is an exit with a code of the environment's choosing.
- `thread_create_kern`, which nothing calls, and the probes for illegal instructions and wfi.
- The harts' start-up handshake in `kernel/cpu.c` beyond coming online and entering idle.
- KernelMachine.Kernel.SysExit: requires the partition invariant and a user thread as caller, which `RunStep` shows every trap provides; the same holds for SysJoin, SysDetach, SysRead, TimerIrq and TrapEntry.
- Blocking.OthersUndisturbed: leaves out the two fields `join_waiter` and `detached`, which a join or detach by another hart may set.

Device tree reader:

- Layouts before version 17, unfinished blobs with the sequential-write magic, and the library's write functions, which are not defined in this repository.
- Memory behind the accessible bytes of a blob: the header's 40 bytes must be readable, and where a malformed string list ends exactly at the end of the accessible memory the byte behind it is taken to be non-zero.
- FdtQueries.PathOffsetOf: requires an empty path or a leading slash; paths that start with an alias are not modelled.
- FdtQueries.WritePath: requires that the walk to the offset does not leave the root (`StaysInside`), which `NodesAreInside` proves of every node; at offsets behind the root's end the source's loop would go back before its buffer.
- FdtRoundTrip.GetPathWritesPath: requires names below the root without slashes, as section 2.2.1 of the Devicetree Specification v0.4 demands of node names.
- FdtRoundTrip.PathRoundTrip: requires, besides that, an unnamed root, which every blob accepted by the full check has.
- The searches by property value and by phandle, reading single reservation entries, and `fdt_move`: the same loops with another test, or copies.
