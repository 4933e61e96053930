# A verified model of the Pebbles kernel and its libraries

The repository holds a 15-410 "Pebbles" kernel and the C libraries it is built with. This project
models its algorithmic cores in Dafny and proves what they promise. `dafny verify dfyconfig.toml`
checks everything.

| core | files | main result |
|---|---|---|
| 64-bit division | `LongDivision` | Knuth's Algorithm D in 16-bit digits and 32-bit arithmetic computes a / b and a % b for all operands |
| copy-on-write memory | `FrameAllocator`, `PageTables`, `FrameCounts`, `AddressSpace`, `CopyOnWrite`, `EagerCopy`, `MemoryHistory` | every request of every run is answered as by a machine whose fork copies all bytes, and every read returns the byte last stored; reference counts are exact in every state |
| scheduler, mutex, condition variable | `Scheduler`, `Processor`, `Interference`, `Fifo`, `Fairness`, `Semaphore`, `SemaphoreWakeup`, `Descheduling`, `DescheduleCalls` | mutual exclusion, one place per thread, first come first served in every queue, no lost wake-up of mutex and semaphore, the semaphore law and exact make_runnable and deschedule, over all interleavings |
| kernel allocator | `FreeList`, `Flags`, `Lmm`, `LmmRanges`, `KernelMalloc`, `MallocRuns` | sound and complete first fit, allocate-then-free is the identity; over every run a program sees its own bytes, and free plus live bytes is conserved |
| user allocator | `BlockChain`, `BoundaryTags`, `HeapRuns` | over every run the boundary tags in memory describe a coalesced tiling of the heap, and a program sees its own words |
| sorting, random numbers | `Quicksort`, `MersenneTwister` | sorted permutation for every total preorder; outputs equal the tempered recurrence |
| printing and parsing | `Numerals`, `Formatting`, `FieldExamples`, `Parsing`, `Spelling`, `Readback` | every numeral is read as its value, and what `_doprnt` prints, `strtol` and `strtoul` read back, with the exact exceptions |
| lists, tasks, sleep | `IntrusiveList`, `TaskTree`, `TaskHistory`, `TaskOrder`, `TaskFailure`, `TaskWakeup`, `TaskStranding`, `TaskKernel`, `SleepQueue` | each task is in one list and reaped once, in order, with its own status; exactly which steps can lose a wake-up of wait, and when a wait fails wrongly; the sleep queue's head answers for all of it |

Code that updates state in place is modelled by classes, arrays and loops, proved against
functions on values. The scheduler model is a step relation whose steps are the stretches of code that
run with interrupts disabled; a timer interrupt may come between any two steps, and `Processor` carries
the steps out on the fields the kernel has. The steps of the task tree are coarser: fork, and handing the
children over, are one step each. `Arithmetic`, `Options` and `Traces` hold what several cores share.

Some things the code might be expected to do are false of it. For each the exact condition under which
the property holds is proved, and an input or a run shows that it fails otherwise:

- `remove_pages` removes exactly one block unless the page behind it is marked as a continuation,
  which a `new_pages` that ran out of memory can leave (`EagerCopy.RemoveExactIff`,
  `EagerCopy.FailedNewPagesExtendsBlock`).
- `lmm_remove_free` leaves the free bytes before the first multiple of 8 (`LmmRanges.NoneLeftIff`,
  `LmmRanges.UnalignedLeavesFree`).
- `vsnprintf` with a size below 1 is not bounded by that size (`Formatting.FitsIff`,
  `Formatting.SizeZeroExample`).
- `strtol` does not read a positive number back that was printed with `%+d`
  (`Readback.DecimalReadback`, `Readback.PlusExample`), and `strtoul` in base 0 takes a zero-padded
  decimal number for octal (`Readback.DecimalBaseZero`, `Readback.PaddedExample`).
- A wait can be left asleep beside a dead child. A child that exits between the look of its parent at
  the lists and its link on the condition variable signals an empty queue, and dead children that init
  inherits are added to its list without a signal (`TaskWakeup.StepKeepsIff`,
  `TaskStranding.StrandableIff`, `TaskWakeup.ParentStranded`, `TaskWakeup.InitStranded`).
- A wait can fail beside a dead child, if and only if one exited between its looks at the two lists
  (`TaskFailure.FailsRightlyIff`, `TaskWakeup.FailsWrongly`).
- A fork that fails leaves the link of the child it freed in the list of the parent for ever
  (`TaskHistory.DanglingExactlyAfterFailedFork`).

`concat_lists` resets the second head only when one of the lists is empty, and otherwise leaves it
pointing into the joined ring (`IntrusiveList.ConcatLists`); the task that owns it is exiting and its lists
are not read again.

Where comments and code disagree the model follows the code: every present page that is not
writable takes the copy-on-write path, whatever its COW bit says (kern/vm/vm.c:386).

Inputs from outside are parameters: how much kernel memory is left (`budget`), whether `new_pages`
grants memory to the user heap (`granted`), the clock, the contents of uninitialised memory (`junk`)
and the order in which threads run.

## Model

| member | source | states |
|---|---|---|
| `LongDivision.UDivMod` | 410kern/misc/gccisms.c:305-322 | for all 64-bit a and b the two results are a / b and a % b as the integers define them, and b = 0 faults |
| `LongDivision.QDivRem` | 410kern/misc/gccisms.c:89-283 | u = q·v + r and r < v for every 64-bit u and every nonzero v; a fault if and only if v is 0 |
| `LongDivision.ShortDivide` | 410kern/misc/gccisms.c:157-169 | the unrolled division by a one-digit divisor satisfies the same equation |
| `LongDivision.TrimDivisor` | 410kern/misc/gccisms.c:144-171 | n counts the digits of the divisor; its value does not change and its leading digit is not 0 |
| `LongDivision.TrimDividend` | 410kern/misc/gccisms.c:178-179 | m is at most 4 - n and u is below B^(m+n), with only zeros before it |
| `LongDivision.Normalizer` | 410kern/misc/gccisms.c:190-192 | the shift loop brings the leading digit to at least B/2 without leaving 16 bits |
| `LongDivision.Normalize` | 410kern/misc/gccisms.c:190-196 | both operands are multiplied by the same power of two and no bit falls out |
| `LongDivision.ShiftLeft` | 410kern/misc/gccisms.c:290-299 | `shl` multiplies the number by 2^sh, except for what leaves the leading digit, and changes nothing else |
| `LongDivision.TrialDigit` | 410kern/misc/gccisms.c:214-231 | D3 with its jump into the loop body ends with the smaller of B - 1 and the quotient of the leading three digits by two |
| `LongDivision.NotTooSmall` | 410kern/misc/gccisms.c:206-231 | the trial digit is never below the true digit |
| `LongDivision.AtMostOneTooLarge` | 410kern/misc/gccisms.c:246-250 | for a normalised divisor the trial digit exceeds the true digit by at most one |
| `LongDivision.ChooseDigit` | 410kern/misc/gccisms.c:214-231 | the digit chosen for a window is below B and is the true digit or one more |
| `LongDivision.SubtractRowExact` | 410kern/misc/gccisms.c:238-242 | the wrapping 32-bit borrows of D4 add up to the exact integer subtraction |
| `LongDivision.MultiplySubtract` | 410kern/misc/gccisms.c:238-244 | D4 subtracts qhat·v from the window exactly; the high half of t is nonzero exactly when B^(n+1) was borrowed |
| `LongDivision.AddBack` | 410kern/misc/gccisms.c:253-258 | D6 adds v to the window and drops exactly the carry out of the top |
| `LongDivision.DivideWindow` | 410kern/misc/gccisms.c:203-260 | one round leaves the true digit and the remainder of the window, below the divisor, and no other digit changes |
| `LongDivision.NextDigit` | 410kern/misc/gccisms.c:203-261 | each turn of the loop on j appends one digit to the quotient of the whole number |
| `LongDivision.DivideDigits` | 410kern/misc/gccisms.c:203-261 | the loop leaves quotient digits and a remainder that together are the original number |
| `LongDivision.ShiftRight` | 410kern/misc/gccisms.c:270-273 | shifting the remainder back divides by 2^d and loses only the low bits of the last digit |
| `LongDivision.Unscale` | 410kern/misc/gccisms.c:263-278 | quotient and unscaled remainder of the scaled numbers are those of the original ones |
| `LongDivision.ProgramD` | 410kern/misc/gccisms.c:184-282 | quotient and remainder for every divisor of two to four digits |
| `LongDivision.LongDivide` | 410kern/misc/gccisms.c:173-282 | the same on the split operands, joined back to 64-bit numbers |
| `FrameAllocator.FrameAllocator.constructor` | kern/allocator/frame_allocator.c:50-67 | the threaded array represents the stack of all frames, lowest on top |
| `FrameAllocator.FrameAllocator.Allocate` | kern/allocator/frame_allocator.c:77-92 | pops the top of the represented stack; fails exactly when it is empty; the represented stack has no cycle and no repeats |
| `FrameAllocator.FrameAllocator.Deallocate` | kern/allocator/frame_allocator.c:102-113 | pushes a frame that is not on the stack |
| `FrameAllocator.FrameAllocator.CountFree` | kern/allocator/frame_allocator.c:149-161 | the walk ends and counts the free frames |
| `FrameCounts.Frames.Take` | kern/allocator/frame_allocator.c:77-92 | a frame is handed out only while its reference count is 0, and every count stays exact |
| `FrameCounts.Frames.Drop` | kern/vm/vm.c:686-692 | one reference less; the frame returns to the stack exactly with its last reference |
| `FrameCounts.Frames.CloneTable` | kern/vm/vm.c:220-231 | the copy equals the table and every frame it names is counted once more |
| `FrameCounts.Frames.FreeTable` | kern/vm/vm.c:239-258 | every reference of the table is given up and counts stay exact |
| `FrameCounts.Frames.FreeDirectory` | kern/vm/vm.c:297-308 | the same for all user tables of a directory |
| `FrameCounts.Frames.AbandonClone` | kern/vm/vm.c:279-282 | giving up a partial clone restores every count and frees no frame |
| `FrameCounts.Frames.CloneDirectory` | kern/vm/vm.c:267-289 | a clone is equal to its source and counted; it fails exactly if the budget is below the number of page tables, and leaves every count as it was |
| `PageTables.TwoPages` | kern/vm/vm.c:408-409 | two pages of one space that name the same frame count it twice |
| `AddressSpace.MapPage` | kern/vm/vm.c:739-767 | one round maps one zero page or nothing; it fails only without a frame, or without kernel memory for a page table that is missing |
| `AddressSpace.MoreToMap` | kern/vm/vm.c:734-739 | comparing addresses in the loop guard counts exactly the pages that the segment touches |
| `AddressSpace.MapSegment` | kern/vm/vm.c:732-769 | the pages of the segment that were absent become zero pages with the permissions asked for, every other entry stays, and other tasks notice nothing; the page tables spent are those that were missing, each slot once |
| `AddressSpace.RangeUnmapped` | kern/vm/vm.c:787-814 | UNMAPPED exactly if the arguments are legal and every page up to and including the one at base + len is absent |
| `AddressSpace.MapNewPages` | kern/vm/vm.c:638-665 | the space becomes what `EagerCopy.NewPages` says, START at the base and END at the last page, or a prefix if memory ran out |
| `AddressSpace.UnmapNewPages` | kern/vm/vm.c:672-718 | succeeds exactly on a page marked START and removes the pages of the walk, dropping one reference each |
| `AddressSpace.CopyPage` | kern/vm/vm.c:410-436 | a private copy of a shared frame: the space reads as before and the page is writable |
| `AddressSpace.HandleCow` | kern/vm/vm.c:400-444 | a copy-on-write fault never changes what any task reads; it fails exactly if the frame is shared and none is free |
| `AddressSpace.StoreByte` | kern/vm/vm.c:408-444 | a store through a writable entry changes one byte of this task and nothing of any other |
| `CopyOnWrite.MakeTableCow` | kern/vm/vm.c:357-370 | the loop clears the write bit of exactly the writable entries and keeps everything else |
| `CopyOnWrite.MakePagesCow` | kern/vm/vm.c:338-348 | the same for every user table of the directory |
| `CopyOnWrite.NotShared` | kern/vm/vm.c:357-370 | a frame that some task may write is not among the frames fork shares |
| `CopyOnWrite.ForkSound` | kern/vm/vm.c:267-289 | after fork every writable entry still names a frame with reference count 1 |
| `CopyOnWrite.ForkMeaning` | kern/vm/vm.c:267-289 | sharing all frames reads exactly like copying all bytes |
| `CopyOnWrite.Commit` | kern/vm/vm.c:400-444 | a change to one task that keeps the frames of the others changes the meaning of that task only |
| `CopyOnWrite.Vm.Create` | kern/vm/vm.c:167-178 | a new task starts with an empty space; nothing else changes |
| `CopyOnWrite.Vm.MapSegment` | kern/vm/vm.c:732-769 | refines the eager machine; it stops exactly where the next page needs a page table beyond the budget, or where frames run out |
| `CopyOnWrite.Vm.NewPages` | kern/syscalls/memory_syscalls.c:19-30 | refused exactly on illegal arguments or when a page from base to base + len is mapped; otherwise the pages are added, up to where page tables or frames run out |
| `CopyOnWrite.Vm.RemovePages` | kern/syscalls/memory_syscalls.c:36-42 | fails exactly on an unaligned base or one that no new_pages block starts at |
| `CopyOnWrite.Vm.Read` | kern/vm/vm.c:378-391 | a read through the page tables gives the byte of the eager machine, and faults exactly on its absent pages |
| `CopyOnWrite.Vm.Fault` | kern/interrupts/fault_handlers.c:70-77 | after the handler the page is writable and every memory is as before; it fails exactly if the frame is shared and none is free |
| `CopyOnWrite.Vm.Write` | kern/interrupts/fault_handlers.c:70-81 | a store, with the fault it may take, is one store of the eager machine; it is refused exactly if the page is absent, or has to be copied and no frame is free |
| `CopyOnWrite.Vm.Fork` | kern/vm/vm.c:267-289 | fork is an eager copy of the parent; it fails exactly if there is no kernel memory for the directory and all existing page tables, and then every count and the tables are unchanged |
| `CopyOnWrite.Vm.Exit` | kern/vm/vm.c:297-308 | the memory of the task disappears; all other memories stay |
| `CopyOnWrite.Vm.Perform` | kern/vm/vm.c:267-444 | each request gets the answer of the eager machine: only page tables beyond the budget, no frame, or a page that is not there excuse it from doing what it was asked |
| `CopyOnWrite.Vm.Serve` | kern/vm/vm.c:267-444 | the same on the page tables and frames before and after, where a shortage of frames means that every frame is referred to |
| `CopyOnWrite.Vm.ServeAll` | kern/vm/vm.c:202-769 | every request of every sequence, reads included, is answered as by the machine whose fork copies every byte and whose fresh pages are zero, and counts stay exact |
| `CopyOnWrite.ReleaseExact` | kern/vm/vm.c:672-718 | on the page tables remove_pages succeeds exactly on a block in the ledger and unmaps exactly the pages recorded there |
| `CopyOnWrite.Lifetime` | kern/vm/vm.c:202-769 | from boot on, while every new_pages succeeds, remove_pages(base) takes exactly what new_pages(base, len) mapped out of the page tables |
| `MemoryHistory.ReadsLastStored` | kern/vm/vm.c:267-444 | over every run from boot a read returns the byte last stored there since the page was mapped, a task having the stores of its parent up to the fork, and zero if there was none; it faults exactly on a page that is not mapped |
| `MemoryHistory.TasksExact` | kern/vm/vm.c:267-308 | the tasks that live are those that creation and fork have made and that have not exited |
| `EagerCopy.StoreSpec` | kern/interrupts/fault_handlers.c:70-77 | a store sets one byte; every other byte of every page and all marks stay |
| `EagerCopy.StepByte` | kern/vm/vm.c:267-444 | where each byte after a step comes from: that store, the parent at a fork, the page as it was, or a fresh page |
| `EagerCopy.NewPagesSpec` | kern/vm/vm.c:638-665 | a successful new_pages adds exactly its pages, zero filled, as one block START PAGE* END |
| `EagerCopy.RemoveExactIff` | kern/vm/vm.c:694-712 | remove_pages removes exactly the block if and only if the page behind it does not carry PAGE or END |
| `EagerCopy.FailedNewPagesExtendsBlock` | kern/vm/vm.c:646-649 | a run from the empty machine in which new_pages runs out of frames behind a block, and removing the block removes the page it had left as well |
| `EagerCopy.BlocksDisjoint` | kern/vm/vm.c:698-699 | different blocks share no page even when one follows the other at once |
| `EagerCopy.RemovePagesRecorded` | kern/vm/vm.c:672-718 | removal succeeds exactly on recorded bases and unmaps exactly the recorded pages |
| `EagerCopy.NewPagesRecorded` | kern/vm/vm.c:638-665 | the ledger of blocks gains exactly the new one |
| `EagerCopy.StepRecorded` | kern/vm/vm.c:638-718 | every step of the machine, fork and faults included, keeps the marks equal to the ledger |
| `EagerCopy.RunRecorded` | kern/vm/vm.c:638-718 | over every run in which new_pages succeeds, remove_pages(base) unmaps exactly what new_pages(base, len) mapped |
| `Scheduler.StepInv` | kern/sync/mutex.c:101-139 | every atomic stretch of the scheduler, mutexes and condition variables keeps the invariant |
| `Scheduler.MutualExclusion` | kern/sync/mutex.c:101-139 | over every interleaving a mutex has at most one holder, and its value is 1 exactly when it has none |
| `Scheduler.OnePlace` | kern/core/context.c:30-62 | over every interleaving a started thread is in exactly one of: the processor, the run queue, one mutex queue, asleep on one condition variable, the hand of a signaller |
| `Scheduler.NoDoubleLink` | kern/core/scheduler.c:59-95 | no run queue or mutex queue holds a thread twice, and no thread is in two mutex queues |
| `Scheduler.NoDoubleWait` | kern/sync/cond_var.c:84-86 | the same for condition variables |
| `Scheduler.NoLostWakeup` | kern/sync/mutex.c:125-139 | a nonempty mutex queue means that the mutex is held or a thread woken from it is running or runnable and will test again |
| `Scheduler.LinkedAndActiveHeld` | kern/sync/cond_var.c:78-124 | a thread linked on a condition variable while running or runnable means that the associated mutex is held |
| `Scheduler.HeadIsBlocked` | kern/sync/cond_var.c:115-121 | a signaller that holds the mutex finds at the head only a thread that is neither running nor runnable |
| `Scheduler.NeverAddedTwice` | kern/sync/cond_var.c:110-124 | cond_signal and mutex_unlock add to the run queue only a thread that is not on it and not running |
| `Scheduler.OneAdder` | kern/sync/cond_var.c:110-148 | two signallers never work on the same thread |
| `Scheduler.SleeperIsLinked` | kern/sync/cond_var.c:78-98 | a thread asleep in cond_wait stays linked until a signaller takes it |
| `Scheduler.SwitchInv` | kern/core/context.c:30-62 | context_switch keeps the invariant from every state |
| `Fairness.MovesUp` | kern/core/scheduler.c:61-95 | over every run a thread on the run queue moves forward by one with every context_switch that takes from it, and never back |
| `Fairness.GetsTurn` | kern/core/context.c:30-62 | the thread at position i gets the processor with the (i + 1)-th of them |
| `Fairness.MutexInOrder` | kern/sync/mutex.c:101-140 | over every run the thread at position i of the queue of a mutex is sent back to its test, at the tail of the run queue, by the (i + 1)-th unlock |
| `Fairness.CondInOrder` | kern/sync/cond_var.c:110-148 | over every run the thread at position i of the queue of a condition variable is the (i + 1)-th that is woken |
| `Fairness.SignalTakes` | kern/sync/cond_var.c:110-148 | over every run cond_signal takes the head of the queue, if there is one, and nobody else; cond_broadcast takes all of it |
| `Processor.Machine.constructor` | kern/core/scheduler.c:27-30 | the concrete machine starts in the initial state of the step relation |
| `Processor.Machine.ContextSwitch` | kern/core/context.c:30-62 | the assignments to status, run queue and current thread are the Switch step, whose order `Fairness.MovesUp` is about |
| `Processor.Machine.Timer` | kern/core/context.c:30-62 | a timer interrupt refines the step relation |
| `Processor.Machine.TryLock` | kern/sync/mutex.c:104-112 | one turn of the loop of mutex_lock refines the step; afterwards the thread is the only holder, or it is queued and off the processor |
| `Processor.Machine.MutexUnlock` | kern/sync/mutex.c:128-138 | the first waiter becomes runnable and leaves the queue, and the value is 1 |
| `Processor.Machine.Unlock` | kern/sync/mutex.c:125-139 | unlock by a holder refines the step relation |
| `Processor.Machine.AddWaiter` | kern/sync/cond_var.c:85 | linking in cond_wait refines the step relation |
| `Processor.Machine.Block` | kern/sync/cond_var.c:88-93 | setting the status and unlocking the caller's mutex refine the step relation |
| `Processor.Machine.TakeWaiter` | kern/sync/cond_var.c:115-119 | the head of the queue becomes RUNNABLE and is not on the run queue at that moment |
| `Processor.Machine.AddRunnable` | kern/core/scheduler.c:78-82 | adding the thread taken refines the step relation |
| `Processor.Machine.UnlinkWaiter` | kern/sync/cond_var.c:121 | unlinking it refines the step relation |
| `Interference.OthersDrift` | kern/sync/mutex.c:101-139 | what another thread's step can do to a thread that is not running |
| `Interference.StatusSteps` | kern/sync/cond_var.c:88-90 | a thread becomes DESCHEDULED only by its own step and stops being so only by a signal |
| `Interference.TakenEffect` | kern/sync/cond_var.c:115-121 | a thread that a signal takes becomes RUNNABLE and stays in the hand of the signaller |
| `Semaphore.CountPrivate` | kern/sync/sem.c:42-70 | between reading and writing the count no other thread has read it |
| `Semaphore.SemStepOk` | kern/sync/sem.c:42-70 | every step of sem_wait, sem_signal and everything below them keeps the invariant |
| `Semaphore.NeverStuck` | kern/sync/sem.c:42-70 | the semaphore never unlocks, waits or signals without its mutex |
| `Semaphore.CountLaw` | kern/sync/sem.c:42-70 | over every interleaving count = initial + signals - completed waits, and count >= 0 |
| `SemaphoreWakeup.StepWakes` | kern/sync/sem.c:42-70 | every step of sem_wait, sem_signal and the primitives under them keeps the wake-up law |
| `SemaphoreWakeup.NoLostWakeup` | kern/sync/sem.c:42-70 | over every interleaving: while a thread sleeps on the semaphore, the count is at most the number of threads that were woken, hold the mutex to take from the count, or are about to signal; while nobody has the mutex, at most the number that were woken |
| `Descheduling.DStepOk` | kern/syscalls/thread_syscalls.c:66-104 | every step of deschedule and make_runnable and everything below them keeps the invariant |
| `Descheduling.NeverStuck` | kern/syscalls/thread_syscalls.c:66-104 | the handlers never signal, wait or unlock without the mutex |
| `Descheduling.QueueIsThread` | kern/syscalls/thread_syscalls.c:97-101 | the queue of a descheduled thread holds that thread and nothing else |
| `Descheduling.SucceedsExactlyOnDescheduled` | kern/syscalls/thread_syscalls.c:88-104 | when a make_runnable is about to return, its own signal has taken the thread exactly if its test had let it pass |
| `DescheduleCalls.MakeRunnableExact` | kern/syscalls/thread_syscalls.c:88-104 | over every run a make_runnable that returns has looked at the status, succeeds if and only if it was DESCHEDULED in that step, and then has taken that thread from its queue |
| `DescheduleCalls.TraceOf` | kern/syscalls/thread_syscalls.c:66-104 | every run has its sequence of states, which the laws over runs are about |
| `DescheduleCalls.WokenIsRunnable` | kern/syscalls/thread_syscalls.c:101 | the thread it takes is DESCHEDULED before and RUNNABLE after |
| `DescheduleCalls.RejectDecides` | kern/syscalls/thread_syscalls.c:72-77 | deschedule leaves at once if *reject is nonzero, with nothing changed, and otherwise goes into cond_wait with status DESCHEDULED |
| `DescheduleCalls.DescheduleExact` | kern/syscalls/thread_syscalls.c:66-80 | over every run a deschedule that returns had read a nonzero *reject, or a make_runnable of this thread has taken it since |
| `Descheduling.DescheduledIsWaiting` | kern/syscalls/thread_syscalls.c:66-80 | over every interleaving a descheduled thread is alone in its queue, off the run queue and not running |
| `FreeList.Canonical` | 410kern/lmm/lmm_free.c:56-106 | two well-formed free lists with the same free bytes are the same list |
| `FreeList.CarveFree` | 410kern/lmm/lmm_alloc_gen.c:97-138 | exactly the bytes taken stop being free |
| `FreeList.AbsorbFree` | 410kern/lmm/lmm_free.c:62-106 | exactly the bytes freed become free |
| `FreeList.ExactJoin` | 410kern/lmm/lmm_free.c:66-74 | the assertions that neighbours meet exactly always hold |
| `FreeList.CarveAbsorb` | 410kern/lmm/lmm_free.c:62-106 | taking bytes out and putting them back restores the list |
| `Lmm.AlignUp` | 410kern/lmm/lmm_alloc_gen.c:76-84 | the loop over the bits computes the address `Target` defines |
| `Lmm.TargetLeast` | 410kern/lmm/lmm_alloc_gen.c:74-84 | that address is the least one from the lower bound on that agrees with the offset |
| `Lmm.LaterPass` | 410kern/lmm/lmm_alloc_gen.c:91-95 | once a block passes the end of the range, so does every later one: the early break skips nothing |
| `Lmm.FlagTest` | 410kern/lmm/lmm_alloc.c:44 | the mask test of both allocators says that every flag bit asked for is a flag bit of the region |
| `Lmm.NoFlags` | 410kern/lmm/lmm_alloc.c:44 | a request without flags may have memory of every region |
| `Lmm.OutOfRange` | 410kern/lmm/lmm_alloc_gen.c:50-54 | a region that is rejected as a whole holds no node that fits |
| `Lmm.SearchRegion` | 410kern/lmm/lmm_alloc_gen.c:56-95 | the first node of the region that fits, or none fits |
| `Lmm.SplitNode` | 410kern/lmm/lmm_alloc_gen.c:97-138 | splitting on both sides removes exactly the block from the list and from the counter |
| `Lmm.Pool.AllocGen` | 410kern/lmm/lmm_alloc_gen.c:26-154 | takes the first fit at the least feasible address of the regions that have every flag bit asked for, or nothing fits and nothing changes |
| `Lmm.Pool.Alloc` | 410kern/lmm/lmm_alloc.c:26-85 | the same for a plain request, with the size rounded up |
| `Lmm.Pool.Free` | 410kern/lmm/lmm_free.c:26-107 | lists stay sorted, aligned, apart and not abutting, and counters equal the sums |
| `Lmm.Insert` | 410kern/lmm/lmm_free.c:56-106 | the walk and the four ways to coalesce give the absorbed list |
| `Lmm.Sound` | 410kern/lmm/lmm_alloc_gen.c:41-145 | what is allocated is free, aligned and in range, in a region that has every flag bit asked for |
| `Lmm.Complete` | 410kern/lmm/lmm_alloc_gen.c:153 | 0 is returned only if no run of free bytes in any region with every flag bit asked for satisfies the request |
| `Lmm.TookFree` | 410kern/lmm/lmm_alloc_gen.c:97-145 | exactly the bytes of the block, all free before, stop being free in the pool |
| `Lmm.AllocFreeRestores` | 410kern/lmm/lmm_free.c:37-106 | allocation followed by free restores every node list and counter |
| `Lmm.AllocThenFree` | 410kern/lmm/lmm_free.c:26-107 | the client's view of it, for any size, alignment, offset and range |
| `LmmRanges.FindFree` | 410kern/lmm/lmm_find_free.c:26-73 | the lowest free address from the rounded start over all regions, the length of its run and its flags, or nothing is free from there on |
| `LmmRanges.RunFits` | 410kern/lmm/lmm_remove_free.c:44-46 | allocating a part of the run found cannot fail, so the assertion holds |
| `LmmRanges.RemoveRound` | 410kern/lmm/lmm_remove_free.c:32-47 | each round clears strictly more of the range |
| `LmmRanges.RemoveFree` | 410kern/lmm/lmm_remove_free.c:26-48 | exactly the free bytes from the start rounded up to the end rounded up are removed |
| `LmmRanges.NoneLeftIff` | 410kern/lmm/lmm_remove_free.c:26-48 | no byte of the range stays free if and only if none was free before the first multiple of 8 |
| `LmmRanges.AlignedNoneLeft` | 410kern/lmm/lmm_remove_free.c:26-48 | for an aligned start no byte of the range stays free |
| `LmmRanges.UnalignedLeavesFree` | 410kern/lmm/lmm_find_free.c:30 | an unaligned start can leave free bytes behind: an example |
| `LmmRanges.AddFree` | 410kern/lmm/lmm_add_free.c:26-70 | exactly the whole multiples of 8 of the range that some region covers become free |
| `KernelMalloc.WordRoundTrip` | 410kern/malloc/malloc.c:35 | the size prefix reads back as it was stored |
| `KernelMalloc.Heap.Malloc` | 410kern/malloc/malloc.c:26-37 | a new live block of the size asked for, where it first fits, apart from all others and from the free lists; free plus live bytes is conserved; failure changes nothing and means that nothing fits |
| `KernelMalloc.Heap.Free` | 410kern/malloc/free.c:25-28 | the prefix gives the size, exactly this block leaves the live ones, and bytes are conserved |
| `KernelMalloc.ShiftFor` | 410kern/malloc/memalign.c:31 | the loop finds the least power of two that is not below the alignment |
| `KernelMalloc.Heap.Memalign` | 410kern/malloc/memalign.c:25-46 | the payload, not the prefix, is aligned, at the first place that fits; otherwise as malloc |
| `KernelMalloc.Heap.Realloc` | 410kern/malloc/realloc.c:28-50 | keeps the first min(old, new) bytes, replaces the live block by one where it first fits, touches no other payload; failure changes nothing |
| `KernelMalloc.Heap.Poke` | 410kern/malloc/malloc.c:26-37 | a client that writes inside its block breaks nothing |
| `MallocRuns.Program.Serve` | 410kern/malloc/malloc.c:26-37 | each call is answered in terms of the bytes a program sees: a new block leaves the others, realloc keeps the front, a write changes one byte, a read returns the byte there |
| `MallocRuns.Program.ServeAll` | 410kern/malloc/memalign.c:25-46 | over every run of malloc, memalign, realloc, free, reads and writes every call is answered so, and every state has sound free lists and disjoint live blocks |
| `MallocRuns.Conserved` | 410kern/lmm/lmm_free.c:52-54 | in every state of a run free plus live bytes is what it was at the start |
| `BlockChain.BlocksApart` | 410user/libmalloc/mm_malloc.c:186-292 | blocks of a tiling share no word |
| `BlockChain.MergeCoalesced` | 410user/libmalloc/mm_malloc.c:261-292 | coalescing one free block leaves no two free neighbours |
| `BlockChain.PlaceCoalesced` | 410user/libmalloc/mm_malloc.c:218-234 | placing keeps it that way |
| `BoundaryTags.Heap.constructor` | 410user/libmalloc/mm_malloc.c:57-69 | padding, prologue and epilogue make a well-formed empty heap |
| `BoundaryTags.Heap.Init` | 410user/libmalloc/mm_malloc.c:71-75 | a well-formed heap without live blocks; fails exactly if the heap cannot grow |
| `BoundaryTags.Heap.ReadTags` | 410user/libmalloc/mm_malloc.c:261-265 | the tags read on either side of a block are those of its neighbours |
| `BoundaryTags.Heap.Coalesce` | 410user/libmalloc/mm_malloc.c:261-292 | the four cases merge the block with exactly its free neighbours and leave live payloads alone |
| `BoundaryTags.Heap.Place` | 410user/libmalloc/mm_malloc.c:218-234 | the block is taken, the rest split off when it makes a block, and tags stay equal on both ends |
| `BoundaryTags.Heap.FindFit` | 410user/libmalloc/mm_malloc.c:242-254 | the walk over the tags finds the first free block that is large enough, or there is none |
| `BoundaryTags.Heap.Sbrk` | 410user/libmalloc/memlib.c:46-71 | grows by exactly the increment, with the least number of whole pages; changes nothing exactly if that is too much or needs pages that are not granted |
| `BoundaryTags.Heap.Extend` | 410user/libmalloc/mm_malloc.c:192-209 | the free block at the end, joined to a free predecessor, is larger by exactly the words asked for; fails exactly if the break cannot be moved |
| `BoundaryTags.Heap.Malloc` | 410user/libmalloc/mm_malloc.c:83-113 | a new live block cut from the first free block that fits, the break unmoved, or if none fits from the end of a heap that has grown by exactly the larger of the adjusted size and a chunk; all other payloads unchanged, the heap tiled, tagged and coalesced; null if and only if the size is not positive, or no free block fits and the heap cannot grow |
| `BoundaryTags.AdjustedFits` | 410user/libmalloc/mm_malloc.c:94-97 | the adjusted size is the least even number of words, at least 4, that holds the payload and both tags |
| `BoundaryTags.Heap.Free` | 410user/libmalloc/mm_malloc.c:120-137 | exactly this block stops being live and the heap stays well formed; null does nothing |
| `BoundaryTags.Heap.Copy` | 410user/libmalloc/mm_malloc.c:154 | the memcpy copies exactly the bytes asked for, partial words included |
| `BoundaryTags.Heap.Realloc` | 410user/libmalloc/mm_malloc.c:142-158 | the first min(old payload, new size) bytes are kept, and no other payload changes; the new block comes from where malloc takes it; null exactly as for malloc, with nothing changed |
| `BoundaryTags.Heap.Poke` | 410user/libmalloc/mm_malloc.c:83-113 | a client that writes inside its payload breaks nothing |
| `HeapRuns.Program.Serve` | 410user/libmalloc/mm_malloc.c:83-158 | each call is answered in terms of the words a program sees; a new block is cut from the first free block that fits, and null is returned exactly when there is no memory |
| `HeapRuns.Program.ServeAll` | 410user/libmalloc/mm_malloc.c:83-158 | over every run of malloc, realloc, free, reads and writes every call is answered so, and in every state the tags describe a coalesced tiling |
| `Quicksort.Qsort` | 410kern/stdlib/qsort.c:90-170 | terminates with a sorted rearrangement of the range, outside unchanged, for every length and every total preorder |
| `Quicksort.InsertionSort` | 410kern/stdlib/qsort.c:101-107 | sorted and rearranged |
| `Quicksort.Med3IsMedian` | 410kern/stdlib/qsort.c:80-88 | the result is one of the three and lies between the other two |
| `Quicksort.ChoosePivot` | 410kern/stdlib/qsort.c:108-119 | the middle element, a median of three or a median of three medians, by length |
| `Quicksort.NintherSplits` | 410kern/stdlib/qsort.c:112-118 | of more than 40 elements at least three others are not above the pivot and three others not below it |
| `Quicksort.Partition` | 410kern/stdlib/qsort.c:121-147 | equal, below, above, equal, in these four zones; without a swap the array is unchanged |
| `Quicksort.VecSwap` | 410kern/stdlib/qsort.c:78 | exchanges two stretches element by element |
| `Quicksort.Gather` | 410kern/stdlib/qsort.c:156-160 | the two exchanges leave below, equal, above |
| `Quicksort.Pass` | 410kern/stdlib/qsort.c:99-163 | everything up to `mid` is in its final place when the partition moved something |
| `MersenneTwister.Generator.Generate` | 410kern/RNG/mt19937int.c:63-97 | call i after seeding returns the tempered term i + 624 of the recurrence, across any number of refills |
| `MersenneTwister.Generator.Regenerate` | 410kern/RNG/mt19937int.c:76-87 | the three in-place segments advance the state by exactly 624 terms |
| `MersenneTwister.NextWord` | 410kern/RNG/mt19937int.c:76-85 | each word can be computed from the half-updated state |
| `MersenneTwister.Generator.Seed` | 410kern/RNG/mt19937int.c:50-61 | the state holds the first 624 terms for the seed |
| `MersenneTwister.TemperBijective` | 410kern/RNG/mt19937int.c:91-94 | tempering is a bijection on 32-bit words |
| `MersenneTwister.TemperedWords` | 410kern/RNG/mt19937int.c:91-94 | words before and after tempering |
| `MersenneTwister.TwistedWords` | 410kern/RNG/mt19937int.c:77-78 | words that the recurrence and the seeding give |
| `Numerals.RoundTrip` | 410kern/stdio/doprnt.c:590-593 | the value of the digits written is the number |
| `Numerals.NoLeadingZero` | 410kern/stdio/doprnt.c:590-593 | the first digit of a nonzero number is not 0 |
| `Numerals.AtMost22` | 410kern/stdio/doprnt.c:576-593 | a 64-bit number has at most 22 digits, so the buffer suffices |
| `Formatting.Sink.Put` | 410kern/stdio/sprintf.c:37-51 | what is kept is always the text so far, cut at the limit |
| `Formatting.Sink.Pad` | 410kern/stdio/doprnt.c:601-605 | pads exactly `length` characters, and leaves a count that stops every later padding loop |
| `Formatting.Sink.BuildDigits` | 410kern/stdio/doprnt.c:590-593 | the buffer ends with the numeral of the number |
| `Formatting.Sink.PrintNum` | 410kern/stdio/doprnt.c:574-624 | emits exactly the field: sign, prefix, digits and padding in one of three places |
| `Formatting.FieldPieces` | 410kern/stdio/doprnt.c:601-622 | at most one of the three paddings is not empty |
| `Formatting.FieldWidth` | 410kern/stdio/doprnt.c:595-622 | a field is as long as the larger of its width and its own text |
| `Formatting.Sink.Doprnt` | 410kern/stdio/doprnt.c:207-635 | a format that is already split into directives emits the concatenation of their texts |
| `Formatting.Vsprintf` | 410kern/stdio/sprintf.c:53-64 | the whole text and a terminator, and its length |
| `Formatting.Vsnprintf` | 410kern/stdio/sprintf.c:66-77 | the text cut at the unsigned bound, and a terminator |
| `Formatting.FitsIff` | 410kern/stdio/sprintf.c:66-77 | what is written fits in `size` characters if and only if size >= 1, and is then the first size - 1 characters; size 0 means no limit |
| `Formatting.SizeZeroExample` | 410kern/stdio/sprintf.c:69 | a text that size 0 does not bound |
| `FieldExamples.Padding` | 410kern/stdio/doprnt.c:601-622 | fields padded with blanks in front, with blanks behind and with zeros, character by character |
| `FieldExamples.Signs` | 410kern/stdio/doprnt.c:557-564 | fields with and without a sign |
| `FieldExamples.Prefixes` | 410kern/stdio/doprnt.c:583-588 | fields with the hexadecimal and the octal prefix |
| `Parsing.SkipSpaces` | 410kern/stdlib/strtol.c:31-32 | the first character that isspace rejects |
| `Parsing.Accumulate` | 410kern/stdlib/strtoul.c:45-57 | the value of the longest run of digits modulo 2^32, and where the run ends |
| `Parsing.AccumulateSigned` | 410kern/stdlib/strtol.c:50-62 | the same as a signed 32-bit number |
| `Parsing.Strtoul` | 410kern/stdlib/strtoul.c:26-61 | equals the specification: white space, base, longest run of digits |
| `Parsing.Strtol` | 410kern/stdlib/strtol.c:26-67 | equals the specification with a minus sign |
| `Spelling.DigitExact` | 410kern/stdlib/strtoul.c:48-53 | a character is read as digit d if and only if it stands for d, in either letter case, and the base has that digit |
| `Spelling.SmallLetters` | 410kern/stdlib/strtoul.c:48-51 | the digits up to z, in their order |
| `Spelling.CapitalLetters` | 410kern/stdlib/strtoul.c:52-53 | the digits up to Z, in their order |
| `Spelling.UnsignedValue` | 410kern/stdlib/strtoul.c:26-61 | strtoul on white space and any numeral in its base, in either letter case: the value modulo 2^32 and the place behind it |
| `Spelling.HexValue` | 410kern/stdlib/strtoul.c:32-37 | the same behind 0x or 0X in base 0 and 16 |
| `Spelling.GuessedValue` | 410kern/stdlib/strtoul.c:38-44 | the same in base 0, octal behind a 0 and decimal otherwise |
| `Spelling.SignedValue` | 410kern/stdlib/strtol.c:26-67 | strtol on white space, an optional minus sign and any numeral |
| `Readback.DecimalReadback` | 410kern/stdlib/strtol.c:33-36 | %d read by strtol in base 10 returns every 32-bit number, for all widths and flags, if and only if the field does not start with '+' before a positive number |
| `Readback.PlusStops` | 410kern/stdlib/strtol.c:35-36 | at '+' strtol reads no digit |
| `Readback.PlusExample` | 410kern/stdlib/strtol.c:35-36 | 5 printed with %+d is read as 0 |
| `Readback.PlainReadback` | 410kern/stdlib/strtoul.c:26-61 | %u, %o and %x without prefix return the number in their own base, with the end pointer behind the last digit |
| `Readback.DecimalBaseZero` | 410kern/stdlib/strtoul.c:38-44 | %u read in base 0 returns the number if and only if no zero was padded in front or it is a single octal digit |
| `Readback.PaddedExample` | 410kern/stdlib/strtoul.c:38-44 | 10 printed with %03u is read in base 0 as 8 |
| `Readback.HexReadback` | 410kern/stdlib/strtoul.c:32-37 | %#x read in base 0 or 16 returns the number, for all widths and flags |
| `Readback.OctalReadback` | 410kern/stdlib/strtoul.c:38-44 | %#o read in base 0 or 8 returns the number, for all widths and flags |
| `IntrusiveList.Link.constructor` | kern/list/list.c:16-19 | a head alone is a ring |
| `IntrusiveList.AddToList` | kern/list/list.c:30-36 | the ring with the new link between the two neighbours |
| `IntrusiveList.AddToTail` | kern/list/list.c:43-45 | the list with the entry at its end |
| `IntrusiveList.AddToHead` | kern/list/list.c:52-54 | the list with the entry at its front |
| `IntrusiveList.DelEntry` | kern/list/list.c:62-65 | the list without the entry, whose own links stay as they were |
| `IntrusiveList.GetFirst` | kern/list/list.c:72-77 | the first entry, or null exactly if there is none |
| `IntrusiveList.GetLast` | kern/list/list.c:84-89 | the last entry, or null exactly if there is none |
| `IntrusiveList.ConcatLists` | kern/list/list.c:101-124 | the first list followed by the second; the second head is left empty if and only if one of the lists was |
| `TaskTree.StepInv` | kern/core/wait_vanish.c:39-139 | every step of fork, whether it fails or not, set_status, vanish and wait keeps the lists exact |
| `TaskTree.HandOverInv` | kern/core/wait_vanish.c:111-118 | handing the children of an exiting task to init keeps the lists exact |
| `TaskTree.DepartInv` | kern/core/wait_vanish.c:129-131 | moving the task to the dead list of the parent it has by then keeps them exact |
| `TaskTree.OneList` | kern/core/wait_vanish.c:91-139 | over every run a task is in exactly one list of the tasks that live, once: the alive list of its parent, or the dead list after it departed |
| `TaskTree.WaitExact` | kern/core/wait_vanish.c:52-53 | the look at the dead list reaps exactly when a child is dead, with its own status; the look at the alive list fails exactly when every child is dead |
| `TaskFailure.BetweenStep` | kern/core/wait_vanish.c:51-53 | between the two looks of a wait the dead list of its task changes only by the exit of a child: other waits are shut out and init inherits nothing |
| `TaskFailure.FailsRightlyIff` | kern/core/wait_vanish.c:51-62 | over every run a wait that fails is right that there is no child if and only if no child departed between its first look and its second; for the only thread of a task, if and only if it had no child when it looked |
| `TaskHistory.ReapedOnce` | kern/core/wait_vanish.c:64-84 | over every run the tasks created are those in the tree and those reaped, no task is reaped twice, and every status returned is the last one that task set |
| `TaskOrder.ReapedInOrder` | kern/core/wait_vanish.c:65-67 | over every run the child at position i of the dead list is the one that the (i + 1)-th wait that reaps returns |
| `TaskOrder.RunHasTrees` | kern/core/wait_vanish.c:57-84 | every run has its sequence of task trees, which the laws over runs are about |
| `TaskOrder.DepartWakes` | kern/core/wait_vanish.c:132-138 | an exit wakes one sleeper of the parent if other children are alive, all of them if none is, and nobody else |
| `TaskOrder.ThreadsExact` | kern/core/wait_vanish.c:96-99 | over every run a living task has one thread, plus those forked, less those that vanished |
| `TaskHistory.DanglingExactlyAfterFailedFork` | kern/core/fork.c:40-51 | after a run every entry of every list is a task if and only if no fork of the run failed |
| `TaskWakeup.StepKeepsIff` | kern/core/wait_vanish.c:51-138 | for every task, init included, exactly which steps break the promise that sleepers have a living child and a woken thread for every dead one, told by the state before the step |
| `TaskWakeup.NeverStranded` | kern/core/wait_vanish.c:51-62 | over every run without such a step nobody sleeps in wait when there is a dead child, or no child, and nobody has been woken |
| `TaskStranding.BreaksStrands` | kern/core/wait_vanish.c:57-62 | after every step that breaks the promise the threads of that task can go on by themselves until one of them is stranded |
| `TaskStranding.StrandableIff` | kern/core/wait_vanish.c:51-138 | for every run and task: no step breaks the promise if and only if at no point the threads of the task could strand one of themselves |
| `TaskWakeup.ParentStranded` | kern/core/wait_vanish.c:53-59 | a run that strands an ordinary task: its child exits between its look and its link |
| `TaskWakeup.FailsWrongly` | kern/core/wait_vanish.c:52-53 | a run after which a wait fails beside a dead child: it exits between the two looks |
| `TaskWakeup.InitStranded` | kern/core/wait_vanish.c:115-118 | a run that strands init: it inherits a dead child without a signal |
| `TaskKernel.Kernel.constructor` | kern/core/task.c:111-123 | the kernel starts with init alone |
| `TaskKernel.Kernel.Fork` | kern/core/fork.c:28-76 | linking the child in place, and freeing it with its link left behind when the clone fails, are the fork steps; the id is new |
| `TaskKernel.Kernel.ReparentToInit` | kern/core/wait_vanish.c:185-199 | the loop gives exactly the tasks on the list the parent init |
| `TaskKernel.Kernel.Vanish` | kern/core/wait_vanish.c:96-99 | a thread that is not the last leaves its task |
| `TaskKernel.Kernel.HandOver` | kern/core/wait_vanish.c:108-120 | the updates in their order are the hand-over step |
| `TaskKernel.Kernel.Bequeath` | kern/core/wait_vanish.c:111-118 | the children of the exiting task become children of init, at the end of its lists |
| `TaskKernel.Kernel.Depart` | kern/core/wait_vanish.c:128-138 | the task moves to the dead list of its parent, which wakes one waiter, or all if no child is left alive |
| `TaskKernel.Kernel.Exit` | kern/core/wait_vanish.c:130-138 | the link leaves the alive list and the task is appended to the dead list of its parent |
| `TaskKernel.Kernel.Wait` | kern/core/wait_vanish.c:52 | the look at the dead list, and the reaping, are the wait step |
| `TaskKernel.Kernel.Test` | kern/core/wait_vanish.c:53-57 | the look at the alive list is the test step |
| `TaskKernel.Kernel.Link` | kern/sync/cond_var.c:84-94 | linking on the condition variable is the link step |
| `TaskKernel.Kernel.Resume` | kern/core/wait_vanish.c:60 | a woken thread looks at the dead list again |
| `SleepQueue.Queue.Sleep` | kern/core/sleep.c:41-128 | who sleeps changes by exactly this thread and its wake time; 0, negative and overflowing times do not sleep |
| `SleepQueue.Queue.Insert` | kern/core/sleep.c:108-122 | the queue stays sorted by wake time, first come first among equals |
| `SleepQueue.Queue.Wake` | kern/core/sleep.c:63-78 | looking at the head agrees with scanning everyone: none is returned exactly if none is due, otherwise the earliest one that is |
| `SleepQueue.HeadIsChosen` | kern/core/sleep.c:64-76 | the head of an ordered queue answers for all of it |

## Left out

- Hardware: page directory switches and the TLB, stacks, interrupt controllers, multiprocessor start-up, the console.
- Kernel mappings in the page directory and page tables as memory of their own: a directory is a value, and the pages it takes are a count.
- AddressSpace.MapSegment: the segment has to end below the last page of the address space; addresses that wrap are not modelled.
- AddressSpace.RangeUnmapped: the range has to end below the last page of the address space; addresses that wrap are not modelled.
- CopyOnWrite.Vm.NewPages: the range has to end below the last page of the address space; addresses that wrap are not modelled.
- CopyOnWrite.Vm.RemovePages: a page table that does not exist counts as one without entries.
- CopyOnWrite.Vm.Write: a write to a read-only page succeeds like any copy-on-write fault, as in the code; no protection is claimed.
- Loading programs, exec, swexn and the other system calls.
- Condition variables signalled without the associated mutex (the keyboard driver, and vanish inside the scheduler model).
- TaskTree.StepInv: after a fork that failed the model goes on as if the freed memory were never used again; fork is one step, and so is handing the children over, from the first change of a parent to the second concatenation.
- TaskKernel.Kernel.Link: linking on the condition variable and giving up the processor are one step.
- CopyOnWrite.Vm.Serve: requests for memory are single steps; faults of one task inside those of another are not modelled.
- The sleep queue while its head is unpublished between the insertion and the switch; sleeping threads inside the scheduler model, whose next_thread takes the head of the run queue only.
- Fairness.GetsTurn: a context switch that finds a sleeping thread due runs that thread and leaves the run queue as it is; such switches are not in the model.
- user/libthread, including its readers/writer lock, and the keyboard buffer.
- TaskTree.WaitExact: the check of the status pointer, on which wait fails before it looks at its children.
- IntrusiveList.ConcatLists: the task tree uses sequences for its lists; that the rings of list.c implement them is what the members of this module state, one list at a time.
- Lmm.Pool.AllocGen: the addresses of the request must not wrap around; node headers are kept beside memory, not in the free bytes themselves.
- Lmm.Pool.Alloc: sizes whose rounding would wrap are excluded.
- Lmm.Pool.Free: the bytes have to lie in one region and not be free, as lmm_free assumes of its caller.
- LmmRanges.FindFree: addresses within 7 bytes of the end of the address space are excluded.
- LmmRanges.RemoveFree: ranges that end within 8 bytes of the end of the address space are excluded.
- LmmRanges.AddFree: the range must not be free already and must not wrap.
- KernelMalloc.Heap.Malloc: sizes for which adding the prefix and rounding would wrap are excluded.
- KernelMalloc.Heap.Memalign: alignments above 2^31, for which the shift loop does not end, and requests near the end of the address space are excluded.
- KernelMalloc.Heap.Realloc: sizes for which adding the prefix and rounding would wrap are excluded.
- BoundaryTags.Heap.Malloc: sizes for which the adjusted size would overflow an int are excluded.
- MallocRuns.Program.ServeAll: calls with sizes or alignments that would wrap are excluded, and calls with pointers the program does not have are not made.
- HeapRuns.Program.ServeAll: sizes that would overflow are excluded, and calls with pointers the program does not have are not made; the program reads and writes whole words.
- BoundaryTags.Heap.Realloc: sizes for which the adjusted size would overflow an int are excluded.
- lmm_avail, lmm_dump and the order of regions by priority.
- Quicksort.Qsort: elements are values of one type; the choice between long and byte copies in the swap macros is not modelled.
- Formatting.Sink.Doprnt: reading the format string itself, %c, %s, %b, %t, %p, the radix conversions %r and %n, precision and the truncation flag.
- Formatting.Vsprintf: texts of 2^32 characters or more, whose length would wrap.
- Parsing.Strtol: signed overflow of the accumulator wraps at 32 bits, as in the compiled code.
- String functions, ELF headers, argument copying and test programs: nothing hard to state.
