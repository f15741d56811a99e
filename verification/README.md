# A verified model of the kernel's cores

A multi-core kernel in the RISC OS tradition, modelled in Dafny: its scheduler, pipes, page
allocator, lazy address translation, locks, boot sequence and number conversions. Every `assert` of
the kernel stops the core (`inkernel.h:50`), so those in the modelled code are either proved to hold,
or their exact condition is part of a contract; "Left out" names the few that are neither.

- `Words` has the machine words: integers with explicit wrap-around, masks and flags.
- `TaskRings` has the tasks and the circular lists of `include/doubly_linked_list.h`, on a heap of
  objects. `Ring(s)` says that the tasks of `s`, in order, are linked into one list; every operation
  is stated on such sequences.
- `SleepQueue` has the arithmetic of the sleep ring. A sleeper has the delay that is stored in its
  saved registers and the tick it asked for. `TaskOpSleep` saves the registers first and works out
  the remaining delay afterwards, in the registers on the stack: the saved ones keep the full delay.
  The consequences are that nobody is woken early, that only the sleepers put first are woken on
  time and the others late by all the delays in front of them, and that sleeps that belong in the
  middle of the ring halt the kernel (`Accepted` is the condition for those that do not).
- `Scheduler` has one core: the running ring, the sleep ring, the table of interrupt tasks, the
  wait and resume counters, and the calls on pipes that block and wake. Registers saved on the SVC
  stack (`SvcFrame`) and registers saved in a task (`Task.regs`) are different objects. `at` is the
  layout of the core as a value, which gives each live task one place; `Rings` says that the pointers
  agree with it. `Steady` is what every call keeps: all of that, and no task on its way between two
  places. A task other than the idle task is never alone in
  the running ring (`Core.RunsOn`), so the assertions `running != next` before each blocking step
  hold.
- `PipeModel` has the pipe calls on a value, with the free-running indices, the block mapped twice
  in a row and the bytes it holds; `PipeRuns` has whole runs of both ends against an unbounded queue
  of bytes. `Scheduler.OsPipe` is the same pipe as an object; it may be the debug pipe.
- `FreePages` has the page allocator, as a specification on lists of blocks and as the methods on
  the zero-terminated array; `BootMemory` has its twin, which works in bytes, the placement of the
  ROM image, and the hand-over of the RAM that is left to the kernel.
- `SlotBlocks` has the sorted array of memory blocks of a slot; `LazyTranslation` has the level 2
  tables that are filled from it on faults and cleared on slot switches. `GoodSlot` collects what the
  code relies on: blocks of whole pages that exist, sorted and apart; none reaches over the end of the
  first MiB or of the section of the SVC stack (`map_block` would overrun the table); application
  memory starts at 0x8000; and each block of the stack section starts at its bottom or ends at the top
  of the stack, because the loops that clear the section work inwards from both ends up to the first
  unmapped entry. `ClearsAlwaysIffEndBlocks` says that the last condition is exactly what is needed,
  and `StandardStackIsGood` that every slot starts with it.
- `TablePool` has the pool of level 2 tables that the cores share: finding a table again from its
  physical address (the entries are those of section B3.5 of ARM DDI 0406C), and taking a free one.
- `ExclusiveAccess` and `SpinLock` have `change_word_if_equal`, `claim_lock` and `release_lock`
  instruction by instruction, on any number of cores, with exclusive monitors (section A3.4 of
  ARM DDI 0406C), event registers, and exclusive stores that may fail at any time. `BootProtocol`
  has the boot sequence of any number of cores, access by access.
- `Numbers` has the printing of decimal and hexadecimal numbers and `OS_ReadUnsigned`, and proves
  that they undo each other.

Some properties that one might expect do not hold, and the model says exactly when they do:

- a pipe's locations follow its indices through the wrap-around if and only if the block size divides
  the range of the indices (`PipeModel.LocationsFollowIffDivides`);
- a debug pipe, on which any task may be the sender, loses a waiting sender for good, exactly when a
  task other than the recorded one blocks (`PipeRuns.StepKeepsWakeupsIff`,
  `PipeRuns.ForeignBlockIsForever`, `PipeRuns.ForeignBlockExample`);
- two tasks can block each other on a pipe if and only if their largest requests add up to more than
  `max_block_size + 1` (`PipeRuns.DeadlockIff`);
- growing application memory by a MiB or more at once does not give the memory asked for, since the
  size of a block has 20 bits (`SlotBlocks.GrowsIffUnderMiB`);
- moving the ROM image repeats its first words if its new place starts inside the old one; whatever it
  holds it is intact if and only if `BootMemory.CopyIsSafe` (`BootMemory.RelocatedIsIntactIff`), which is
  so for every start if and only if RAM is at least three times the image
  (`BootMemory.CopyIsAlwaysSafeIff`), and so in the boot configuration (256 MiB by `rool.script:20`, and an
  image of 5 MiB by `MMU/ARMv6/mmu.c:935`);
- `map_block` stays in its table if and only if the block ends in its section
  (`LazyTranslation.StaysInTableIff`), which growing application memory does not check
  (`LazyTranslation.GrownBlockStaysIff`);
- the array of free blocks loses its terminator if a split finds only that left
  (`FreePages.AllocateRun`). The boot table never does (`BootMemory.BootTableIsLongEnough`), and the
  kernel's array not before it has served as many requests with an alignment as it had entries to spare
  (`FreePages.ArrayIsLongEnough`);
- a request for no pages at all can fail although there are free ones (`FreePages.EmptyRequestCanFail`), in
  exactly one case (`FreePages.FailureIsRightIff`);
- `claim_lock` waits for an event before it notices that the core owns the lock already
  (`SpinLock.ReclaimSleepsIffNoEvent`). Without an event from outside it returns if and only if the
  core's event register is set or another core is about to set it (`SpinLock.ReclaimReturnsIff`);
- that is how core 0 claims the boot lock, which has been given to it. `kernel.c:52` says that it will
  not block; it does, and with it the whole boot, if and only if its event register is clear and no
  event comes from outside (`BootProtocol.RegistersIff`,
  `BootProtocol.SomeoneGoesOnIff`); with an event, every core gets to the end (`BootProtocol.FinishesIff`);
- `OS_ReadUnsigned` returns the number that is written if and only if it is within the limit, but it
  refuses every other number if and only if `(limit + 1) * (base - 1)` is less than 2^32
  (`Numbers.PlainRefusesIff`, `Numbers.AmpersandRefusesIff`, `Numbers.PrefixRefusesIff`): with the limit of
  one byte in every base, without a limit in none (`Numbers.OverflowUnnoticed` is an example).

Interrupts, ticks, faults, the addresses that allocators return, failing exclusive stores and the
order in which cores take turns are inputs of the model.

## Model

| member | source | states |
|---|---|---|
| Words.MaskIsRem | memory/simple/memory_manager.c:826-834 | "and" with an alignment less one is the remainder, for every power of two |
| Words.CarryIs | TaskSlot/simple/task_slot.c:1625-1630 | setting or clearing the carry flag sets or clears that bit and leaves all others alone |
| TaskRings.RingIsDetermined | include/doubly_linked_list.h:37-48 | the links determine the list: two rings with the same head are the same sequence |
| TaskRings.LinksMatch | include/doubly_linked_list.h:37-60 | following one link of a member and then the other leads back to it, within the list |
| TaskRings.Rotate | include/doubly_linked_list.h:33-36 | stepping the head along a list gives the same tasks, rotated |
| TaskRings.Attach | include/doubly_linked_list.h:37-48 | the item is put in front of the ring, whether or not the list was empty |
| TaskRings.AttachAtTail | include/doubly_linked_list.h:33-48 | attaching and then stepping the head on puts the item last |
| TaskRings.AttachAfterHead | include/doubly_linked_list.h:33-48 | attaching through a head variable of one's own, set to the second task, puts the item second |
| TaskRings.Detach | include/doubly_linked_list.h:52-60 | the item ends up alone; the others are still a ring, in order |
| TaskRings.Replace | include/doubly_linked_list.h:82-100 | one member is swapped for the other in its place, and the head with it; the old one ends up alone |
| TaskRings.DetachUntil | include/doubly_linked_list.h:102-116 | the prefix that ends at last becomes a ring of its own, and the rest a ring or the empty list |
| TaskRings.InsertListAtHead | include/doubly_linked_list.h:117-129 | the inserted ring comes first, then the old list, as one ring |
| TaskRings.InsertListAfterHead | TaskSlot/simple/task_slot.c:1101-1105 | through a head variable of its own, the inserted ring goes straight after the running task |
| TaskRings.MoveFront | TaskSlot/simple/task_slot.c:1095-1105 | splitting and inserting together move a prefix of one ring into another, in order |
| TaskRings.DetachThenInsert | include/doubly_linked_list.h:102-129 | splitting a prefix off and inserting it again restores every link exactly |
| SleepQueue.ZeroPrefixIs | TaskSlot/simple/task_slot.c:1078-1085 | the sleepers that a tick finds due are the longest prefix without delay |
| SleepQueue.SearchStep | TaskSlot/simple/task_slot.c:1663-1674 | what is left after k sleepers have been passed is n less the sum of their delays, without underflow |
| SleepQueue.SearchDecides | TaskSlot/simple/task_slot.c:1663-1697 | where the search ends decides: the sleep is carried out, first or last, exactly when Accepted says so |
| SleepQueue.SleepKeepsGood | TaskSlot/simple/task_slot.c:1648-1697 | after an accepted sleep the delays up to and including each sleeper still sum to at least its remaining time |
| SleepQueue.TickKeepsGood | TaskSlot/simple/task_slot.c:1062-1108 | a tick keeps that sum property, the first delay can be counted down, and those it wakes are due |
| SleepQueue.NobodyWakesEarly | TaskSlot/simple/task_slot.c:1057-1109 | over every run of ticks and sleeps, no task is woken before the ticks that it asked for have passed |
| SleepQueue.WakesAtSum | TaskSlot/simple/task_slot.c:1057-1109 | in every run of ticks and sleeps, the k-th sleeper is woken when as many ticks have passed as the delays up to its own add up to at the start, whatever sleeps are put in meanwhile |
| SleepQueue.WakeTimeIsWakeup | TaskSlot/simple/task_slot.c:1057-1109 | that time is the time of a wake-up of the run, with the tick that the sleeper asked for |
| SleepQueue.OnTimeIffFirst | TaskSlot/simple/task_slot.c:1602-1702 | in every run that follows, a sleeper that is woken is woken exactly on time if and only if it was put first; one put last is late by all the delays in front of it |
| PipeModel.TwiceIsSlot | TaskSlot/simple/pipes.c:63-82 | k bytes after the location of an index, the double mapping reaches the byte of the block for the index plus k |
| PipeModel.LocationsFollowIffDivides | TaskSlot/simple/pipes.c:290-308 | locations follow the indices through every wrap-around if and only if the block size divides their range |
| PipeModel.ReceiverSeesContents | TaskSlot/simple/pipes.c:300-303 | at the location it is given, the receiver finds the unread bytes in order, wherever they straddle the end of the block |
| PipeModel.StoreIsInvisible | TaskSlot/simple/pipes.c:305-308 | storing into the space that was granted changes nothing that the receiver has yet to read |
| PipeModel.StoreIsSeen | TaskSlot/simple/pipes.c:305-308 | the sender finds its own store where it made it, and nowhere else in its space |
| PipeModel.FillAppends | TaskSlot/simple/pipes.c:372-453 | filling appends the bytes at the sender's location to the queue, and keeps the older ones and the bounds |
| PipeModel.ConsumeDrops | TaskSlot/simple/pipes.c:553-611 | consuming removes exactly the oldest bytes of the queue |
| PipeRuns.StepKeepsRefinement | TaskSlot/simple/pipes.c:313-611 | every step keeps consumed plus unread equal to written, and the data between 0 and max_block_size |
| PipeRuns.StepKeepsWakeupsIff | TaskSlot/simple/pipes.c:313-611 | a step keeps "non-zero waiting_for asks for more than there is" if and only if no task but the recorded sender blocks on a debug pipe |
| PipeRuns.WokenReceiverFindsData | TaskSlot/simple/pipes.c:425-447 | only a blocked receiver is woken; it is told of at least what it asked for, at the read location, and finds the bytes there |
| PipeRuns.WokenSenderFindsSpace | TaskSlot/simple/pipes.c:582-601 | only a blocked sender is woken, and it gets at least the space it asked for |
| PipeRuns.AnswersAreTrue | TaskSlot/simple/pipes.c:341-606 | a caller that goes on is told exactly how much space or data there is and where; a receiver finds the unread bytes there |
| PipeRuns.WaitForSpaceDecides | TaskSlot/simple/pipes.c:313-352 | by the queue and the caller: refused if and only if it may not send, goes on if and only if there is the space it asks for, blocks otherwise; the first caller becomes the sender, and nothing else changes |
| PipeRuns.SpaceFilledDecides | TaskSlot/simple/pipes.c:372-447 | carried out if and only if the caller may send and there is the space, overfilled if and only if it may and there is not; a blocked receiver is woken if and only if it then has what it waits for |
| PipeRuns.WaitForDataDecides | TaskSlot/simple/pipes.c:488-528 | the same three-way decision for the receiver, also on the debug pipe |
| PipeRuns.DataConsumedDecides | TaskSlot/simple/pipes.c:553-601 | carried out if and only if the caller may receive and there is as much data, up to all of it; too much if and only if it may and there is not; a blocked sender is woken if and only if it then has its space |
| PipeRuns.EnabledIff | TaskSlot/simple/pipes.c:313-611 | a task that is not blocked can make every call, except that consuming more than there is halts the core |
| PipeRuns.WriteIsSent | TaskSlot/simple/pipes.c:305-308 | a store of the sender changes that byte of what it will send, and nothing of what it has sent |
| PipeRuns.FillSends | TaskSlot/simple/pipes.c:372-453 | a fill appends exactly the sender's bytes to the queue, if the caller may send and there is space for all of them, and changes nothing otherwise |
| PipeRuns.ConsumeReceives | TaskSlot/simple/pipes.c:553-611 | consuming takes exactly the oldest bytes out of the queue, if the caller may receive, and changes nothing otherwise |
| PipeRuns.ReceiverGetsWhatItAsked | TaskSlot/simple/pipes.c:488-601 | over every run from the call that blocks a receiver to the call that wakes it, it is woken with at least the bytes it asked for in that call, where it is told |
| PipeRuns.SenderGetsWhatItAsked | TaskSlot/simple/pipes.c:313-601 | the same for a sender and space, as long as no foreign task blocks on the debug pipe |
| PipeRuns.ForeignBlockIsForever | TaskSlot/simple/pipes.c:313-362 | a task other than the recorded sender that blocks on the debug pipe stays blocked in every run |
| PipeRuns.ForeignBlockExample | TaskSlot/simple/pipes.c:313-362 | a debug pipe on which that happens |
| PipeRuns.ToldDataStays | TaskSlot/simple/pipes.c:290-611 | over every run in which the receiver makes no call, the bytes it has been told of are still where it was told, in order |
| PipeRuns.ToldSpaceStays | TaskSlot/simple/pipes.c:290-611 | over every run in which the sender makes no call, the space it has been told of is still free and at the same place |
| PipeRuns.RunRefinesQueue | TaskSlot/simple/pipes.c:290-611 | over every run of allowed calls and stores, what has been consumed and what can still be read are exactly what was written, in order; both histories only grow, and never differ by more than a block |
| PipeRuns.RunLosesNoWakeup | TaskSlot/simple/pipes.c:313-611 | in every run, a task is blocked only while what it waits for is missing |
| PipeRuns.DeadlockIff | TaskSlot/simple/pipes.c:341-352 | both ends can be blocked at once if and only if the largest requests add up to more than max_block_size + 1 (the rationale of include/pipeop.h:65-74) |
| PipeRuns.DeadlockExample | TaskSlot/simple/pipes.c:341-352 | the run that blocks both ends, for every such pair of requests |
| Scheduler.ExactlyOnePlace | TaskSlot/simple/task_slot.c:1057-1109 | between calls (Steady, which every call keeps), every live task is in exactly one of: running ring, sleep ring, one interrupt entry, waiting to be woken, blocked on one end of one pipe; unlinked tasks point to themselves |
| Scheduler.BlockedEndsArePlaces | TaskSlot/simple/pipes.c:341-362 | a non-zero waiting_for belongs to exactly one blocked task, the recorded end of the pipe |
| Scheduler.Core.RunsOn | TaskSlot/simple/task_slot.c:1654-1656 | a task that does not idle is never alone in the running ring, so the assertions before each blocking step hold |
| Scheduler.Core.constructor | TaskSlot/simple/task_slot.c:1366-1404 | a core starts steady, with the idle task running and nothing else |
| Scheduler.Core.SaveTaskContext | TaskSlot/simple/common.h:150-164 | the registers are copied to the task; the SVC stack pointer is kept exactly if the task owns the slot's stack |
| Scheduler.Core.Block | TaskSlot/simple/pipes.c:351-362 | the running task saves its registers and leaves the ring for its new place; its successor runs |
| Scheduler.Core.TaskOpWaitUntilWoken | TaskSlot/simple/task_slot.c:1131-1155 | the count goes down by one; the task is detached exactly if no resume was pending |
| Scheduler.Core.TaskOpResume | TaskSlot/simple/task_slot.c:1157-1181 | the count goes up by one; exactly one waiting task, if any, is put straight after the running one |
| Scheduler.Core.TaskOpStart | TaskSlot/simple/task_slot.c:1545-1600 | the core halts exactly if no slot or task is free for it; otherwise a fresh task joins the end of the running ring, in user mode at the word-aligned entry point in r1, with its handle in r0, the caller's r3 to r8 in r1 to r6 and its r2 as stack pointer; the caller keeps running and gets the handle |
| Scheduler.Core.StartRegistersAre | TaskSlot/simple/task_slot.c:1571-1588 | field by field, the registers of a new task are those |
| Scheduler.Core.NextIrqTask | TaskSlot/simple/task_slot.c:1406-1435 | the task that waits for the interrupting device, if any, is taken out of its entry |
| Scheduler.Core.RunIrqTasks | TaskSlot/simple/task_slot.c:2728-2750 | the task for the interrupt becomes the head of the running ring; the pre-empted one, which the kernel asserts to be in user mode or about to resume a SWI, is second |
| Scheduler.Core.TaskOpWaitForInterrupt | TaskSlot/simple/task_slot.c:1437-1506 | errors for a bad or a claimed device change nothing, even for the idle task; otherwise exactly that entry is taken, and a task whose interrupt is pending runs instead |
| Scheduler.Core.EnsureTable | TaskSlot/simple/task_slot.c:1448-1454 | the table is made, empty, by the first task that wants it, and kept by later ones |
| Scheduler.Core.FindSleepPlace | TaskSlot/simple/task_slot.c:1663-1676 | the search stops at the first sleeper with no less delay, or halts only on a sleep that is not accepted |
| Scheduler.Core.PutToSleep | TaskSlot/simple/task_slot.c:1656-1697 | the sleep ring becomes the specified one, with every saved delay, or the core halts, exactly by Accepted |
| Scheduler.Core.TaskOpSleep | TaskSlot/simple/task_slot.c:1602-1702 | yield, refusal, sleep and halt each happen exactly under their condition, with the resulting rings, delays and flags; a sleeper gives up its slot's SVC stack, and what is left of its delay goes to the registers on the stack only; no other register changes |
| Scheduler.Core.Tick | TaskSlot/simple/task_slot.c:1057-1109 | the first sleepers, exactly those that are due, move in order to between the running task and its successor, and none of them before the tick it asked for; of the registers only the first delay changes |
| Scheduler.Core.FindLastToWake | TaskSlot/simple/task_slot.c:1068-1092 | the search ends at the last of the due sleepers, or at the end of the ring |
| Scheduler.Core.PipeWaitForSpace | TaskSlot/simple/pipes.c:313-367 | the pipe, which may be the debug pipe, does what PipeModel says; the task goes on with space and location, or is blocked as this pipe's sender; the core stays steady if and only if that is not a foreign task on the debug pipe |
| Scheduler.Core.PipeWaitForData | TaskSlot/simple/pipes.c:488-548 | the same for the receiver; the core halts exactly if it goes on with the overflow flag set |
| Scheduler.Core.PipeSpaceFilled | TaskSlot/simple/pipes.c:372-453 | a receiver that is blocked and has enough is put at the end of the running ring with the amount and location in its saved registers; no other register changes; the caller is not the debug receiver, as the kernel asserts |
| Scheduler.Core.PipeDataConsumed | TaskSlot/simple/pipes.c:553-611 | a sender that is blocked and has enough is put straight after the running task, likewise; the core halts exactly if more is consumed than there is, or r3 ends up as 0x2a2a2a2a |
| Scheduler.Core.WakeReceiver | TaskSlot/simple/pipes.c:425-447 | the woken receiver is at the end of the running ring, with amount and location in its saved registers |
| Scheduler.Core.WakeSender | TaskSlot/simple/pipes.c:582-601 | the woken sender is second in the running ring, with amount and location in its saved registers |
| Scheduler.Core.PipeCreate | TaskSlot/simple/pipes.c:204-258 | errors, and a lack of room, change nothing; otherwise the new pipe has the size asked for, whatever it is, is empty, starts at the offset asked for, and the caller is both of its ends |
| Scheduler.Core.BecomeDebugPipe | modules.c:3654 | making a pipe the debug pipe keeps the core steady |
| Scheduler.OsPipe.WaitForSpace | TaskSlot/simple/pipes.c:313-352 | the fields of the pipe become those of PipeModel.WaitForSpace |
| Scheduler.OsPipe.SpaceFilled | TaskSlot/simple/pipes.c:372-447 | the fields of the pipe become those of PipeModel.SpaceFilled |
| Scheduler.OsPipe.WaitForData | TaskSlot/simple/pipes.c:488-528 | the fields of the pipe become those of PipeModel.WaitForData |
| Scheduler.OsPipe.DataConsumed | TaskSlot/simple/pipes.c:553-601 | the fields of the pipe become those of PipeModel.DataConsumed |
| FreePages.AllocateConserves | memory/simple/memory_manager.c:856-909 | an allocated run is aligned; with what is free afterwards it makes up exactly what was free before |
| FreePages.AllocateTakes | memory/simple/memory_manager.c:856-909 | the pages of the result were free, are no longer free, and every other page is as before; a failure takes none |
| FreePages.AllocateTakesFirstFit | memory/simple/memory_manager.c:865-901 | the pages are the first ones of the first block that starts aligned and is large enough, which shrinks, or goes if nothing is left |
| FreePages.AllocateCutsFirst | memory/simple/memory_manager.c:874-901 | only without such a block, the first block that reaches far enough is cut at its first alignment; what is below keeps its place and what is left above goes to the end |
| FreePages.FailsIffNothingFits | memory/simple/memory_manager.c:865-902 | a request for at least one page fails exactly when no single free block holds an aligned run of that length, in spite of misalignment() being a whole alignment for aligned bases |
| FreePages.FailureIsRightIff | memory/simple/memory_manager.c:865-902 | for requests of any size, the search fails only if nothing fits, except exactly when nothing is asked for, no block is aligned and the first one to reach an alignment ends there |
| FreePages.EmptyRequestCanFail | memory/simple/memory_manager.c:865-892 | a request for no pages can fail although a block holds an aligned page |
| FreePages.RunConserves | memory/simple/memory_manager.c:856-909 | over any sequence of requests, free pages and allocated pages together are exactly the RAM that was registered |
| FreePages.NothingGivenTwice | memory/simple/memory_manager.c:856-909 | over any sequence of requests, no page is given out twice and no page given out is free |
| FreePages.IsAligned | memory/simple/memory_manager.c:826-829 | the mask test decides alignment for every power of two |
| FreePages.MisalignmentOf | memory/simple/memory_manager.c:831-834 | the distance to the next alignment boundary above the base |
| FreePages.FindFit | memory/simple/memory_manager.c:865-871 | the index of the first aligned block that is large enough, or the terminator |
| FreePages.FindSplit | memory/simple/memory_manager.c:877-881 | the index of the first block that can be cut, or the terminator |
| FreePages.WrappedSumDecidesIff | boot/generic/boot.c:286-292 | adding size and misalignment on words decides whether a block can be cut, for every block, if and only if size plus alignment is less than 2^32 |
| FreePages.SplitAt | memory/simple/memory_manager.c:883-888 | the upper part goes to the terminator's entry; the array stays tidy, and terminated exactly if there was an entry to spare |
| FreePages.Compact | memory/simple/memory_manager.c:896-901 | removing the emptied entry keeps the order of the others and the terminator |
| FreePages.AllocateRun | memory/simple/memory_manager.c:856-909 | the array after the call is what Allocate says, and so is the result; the array keeps its terminator exactly unless a split needs an entry when only the terminator is left |
| FreePages.AllocateAddsOne | memory/simple/memory_manager.c:877-902 | a request adds at most one entry, and only if it has to split a block, which takes an alignment |
| FreePages.FreeAfterBound | memory/simple/memory_manager.c:856-909 | over any sequence of requests, there are at most as many entries as at the start and requests with an alignment |
| FreePages.ArrayIsLongEnough | memory/simple/memory_manager.h:37 | an array with an entry for each block to start with, each request with an alignment, and the terminator finds and leaves a terminator at every call of any sequence |
| FreePages.KernelAddFreeRam | memory/simple/memory_manager.c:809-824 | the block is appended, unless it is empty, and nothing else changes; the terminator survives exactly if there is an entry to spare for a block |
| FreePages.KernelAllocatePages | memory/simple/memory_manager.c:856-909 | the same as AllocateRun in bytes: the pages from the result on were free and are no longer, and no other page changes; the failure value is no page's address |
| BootMemory.AllocateScales | boot/generic/boot.c:271-315 | allocating in bytes from scaled blocks is allocating in pages: the two allocators agree, on failure too (where their sums fit in a word: WrappedSumDecidesIff) |
| BootMemory.FreeRamIsTheRest | boot/generic/boot.c:210-257 | the RAM blocks and the ROM image together are all of RAM, without overlap |
| BootMemory.Copy | boot/generic/boot.c:198-207 | copying upwards word by word gives the source's words, or, if the destination starts inside the source, those in front of it over and over again; nothing else changes |
| BootMemory.CopiedIsIntactIff | boot/generic/boot.c:198-207 | whatever is copied, the copy is like it, if and only if the destination does not start inside the source |
| BootMemory.RelocatedIsIntactIff | boot/generic/boot.c:210-257 | whatever the image holds, it is intact at its new place, if and only if the copy is safe |
| BootMemory.CopyIsAlwaysSafeIff | boot/generic/boot.c:210-257 | the image and its new place overlap for no start address if and only if RAM is at least three times the image |
| BootMemory.ConfiguredCopyIsSafe | rool.script:20 | moving an image of 5 MiB in the 256 MiB of the boot configuration is safe from every start address |
| BootMemory.MoveImage | boot/generic/boot.c:248-254 | what is at the new place is what such a copy makes of the image, and the rest of memory is unchanged |
| BootMemory.RelocateAsNecessary | boot/generic/boot.c:210-257 | the image ends up on a MiB boundary, unmoved if it was on one, and intact if the copy is safe; otherwise its first words are repeated; the table holds exactly the other pages |
| BootMemory.FillTable | boot/generic/boot.c:230-245 | the table holds the RAM below and above the image, and no empty block |
| BootMemory.PreMmuAllocate | boot/generic/boot.c:317-323 | the size is rounded up to whole pages; every byte from the aligned result to result + size was free and no longer is, and the bytes beyond those pages are as before; the table keeps its terminator exactly unless a split needs an entry when only the terminator is left |
| BootMemory.PagesForHold | boot/generic/boot.c:317-321 | as many pages are taken as it needs to hold the bytes, and no more |
| BootMemory.NoByteGivenTwice | boot/generic/boot.c:317-323 | over any sequence of requests for bytes, no byte of two results is the same, and none is free afterwards |
| BootMemory.BootTableIsLongEnough | boot/generic/boot.h:37 | for the requests of the boot, wherever the image is, the table's eight entries always hold a terminator |
| BootMemory.RegisterRam | kernel.c:49-59 | the kernel's free list starts as exactly the blocks that are left in the boot table |
| BootMemory.NoPageTwice | kernel.c:49-62 | for any requests before and after the MMU starts: image, early pages, late pages and free pages are all of RAM and overlap nowhere |
| SlotBlocks.InsertKeepsApart | TaskSlot/simple/task_slot.c:509-527 | adding a block that overlaps none keeps the array sorted and apart, and adds exactly its addresses |
| SlotBlocks.AppTopIsLimit | TaskSlot/simple/task_slot.c:906-923 | if application memory is gap-free up to a limit, the scan finds that limit, and the place between app blocks and the rest |
| SlotBlocks.GrowsIffUnderMiB | TaskSlot/simple/task_slot.c:896-954 | growing keeps order and areas; application memory is gap-free up to exactly the new limit if and only if it grows by less than a MiB |
| SlotBlocks.SlotMemory.constructor | TaskSlot/simple/task_slot.c:545-580 | a new slot has no blocks |
| SlotBlocks.SlotMemory.AddMemory | TaskSlot/simple/task_slot.c:509-527 | the array is that of Insert, without its last block if it was full; a size of whole MiBs, cut to 20 bits, ends the list instead |
| SlotBlocks.SlotMemory.InsertBlock | TaskSlot/simple/task_slot.c:515-526 | the same for a place that has been found; the entry and the next one are equal, as the kernel asserts, before the block is stored |
| SlotBlocks.SlotMemory.ShiftUp | TaskSlot/simple/task_slot.c:515-517 | the entries from the free place on move up by one, and no others |
| SlotBlocks.SlotMemory.FindPlace | TaskSlot/simple/task_slot.c:512-514 | the number of blocks that start no later than the address |
| SlotBlocks.SlotMemory.FindBlock | TaskSlot/simple/task_slot.c:306-313 | the scan that gives up early finds a block if and only if one holds the address, and then one that does |
| SlotBlocks.SlotMemory.FindAppTop | TaskSlot/simple/task_slot.c:906-923 | the end of the last app block and the entry above it |
| SlotBlocks.SlotMemory.AdjustAppMemory | TaskSlot/simple/task_slot.c:896-954 | the array is that of Grow, and both handlers hold the new limit, unless there is no memory to grow by, where the core halts |
| LazyTranslation.MapKeepsCache | MMU/ARMv6/mmu.c:405-435 | mapping one of the slot's blocks keeps every entry a page that the blocks give, or the asking handler |
| LazyTranslation.MapKeepsWhole | MMU/ARMv6/mmu.c:405-435 | and keeps every block mapped as a whole or not at all |
| LazyTranslation.ClearsIffPagesAtEnds | MMU/ARMv6/mmu.c:1105-1125 | the two loops that stop early empty the stack area if and only if no page lies between two entries that ask |
| LazyTranslation.ClearsAlwaysIffEndBlocks | MMU/ARMv6/mmu.c:1105-1125 | they do so whichever blocks have been mapped, if and only if each block of the section touches one of its ends |
| LazyTranslation.FaultKeepsOk | MMU/ARMv6/mmu.c:482-497 | a handled fault keeps the tables a cache of the loaded slot's blocks |
| LazyTranslation.FaultResolves | MMU/ARMv6/mmu.c:482-497 | and leaves, at the address that faulted, the page where the slot's blocks put it |
| LazyTranslation.AddKeepsOk | TaskSlot/simple/task_slot.c:509-527 | so does adding a block to the loaded slot: none of its pages can have been mapped before |
| LazyTranslation.AddGives | TaskSlot/simple/task_slot.c:509-527 | adding a block gives the loaded slot exactly that block's addresses too, in that block's memory, and leaves the others where they are |
| LazyTranslation.AdjustKeepsOk | TaskSlot/simple/task_slot.c:896-954 | so does growing the application memory of the loaded slot |
| LazyTranslation.AdjustGives | TaskSlot/simple/task_slot.c:896-954 | growing gives it exactly the addresses up to the new limit too, in the memory that is passed, and leaves the others where they are |
| LazyTranslation.SwitchForgets | MMU/ARMv6/mmu.c:1127-1163 | after a switch none of the old slot's pages is left |
| LazyTranslation.EventKeepsOwn | MMU/ARMv6/mmu.c:1068-1163 | no fault, switch, added block or grown memory changes an entry of the core's own: below 0x8000, or at and above the top of the stack |
| LazyTranslation.RunKeepsOwn | MMU/ARMv6/mmu.c:1068-1163 | nor does any run of them |
| LazyTranslation.RunIsCache | MMU/ARMv6/mmu.c:405-1163 | in every run of faults, switches, added blocks and grown memory, each entry asks the slot or is exactly the physical page that the loaded slot's blocks give |
| LazyTranslation.StartIsOkIff | MMU/ARMv6/mmu.c:804-830 | a table fresh from the pool, cleared by the loops that stop early, asks the slot everywhere if and only if it holds nothing else between two words that look like the asking handler; then the state is a good one to start from |
| LazyTranslation.RunFromStartIsCache | MMU/ARMv6/mmu.c:405-1163 | in every run from that start, each entry asks the slot or is exactly the physical page that the loaded slot's blocks give |
| LazyTranslation.LocalTables.InitialiseApp | MMU/ARMv6/mmu.c:515-535 | every entry of the first MiB from 0x8000 on asks the slot |
| LazyTranslation.LocalTables.InitialiseSvcStack | MMU/ARMv6/mmu.c:804-830 | the page at the top of the stack gets another handler; the entries below ask the slot, all of them if and only if the table held nothing else between two asking ones |
| LazyTranslation.LocalTables.ClearSections | MMU/ARMv6/mmu.c:1080-1103 | every level 1 entry of the area asks the slot, or the core halts exactly if one is a table |
| LazyTranslation.StaysInTableIff | MMU/ARMv6/mmu.c:405-435 | map_block writes only entries of its table if and only if the block ends in the section it starts in |
| LazyTranslation.GrownBlockStaysIff | TaskSlot/simple/task_slot.c:896-954 | growing by less than a MiB is accepted wherever it ends; its block ends in the first MiB if and only if the new limit is within it |
| LazyTranslation.LocalTables.MapPages | MMU/ARMv6/mmu.c:405-435 | the table of the block's section is that of MapBlock, and the other one is unchanged |
| LazyTranslation.LocalTables.CheckTaskSlot | MMU/ARMv6/mmu.c:482-497 | the fault is handled if and only if a block holds the address, which then has the page where the block puts it; the core's own entries are unchanged; otherwise nothing changes and the core halts |
| LazyTranslation.LocalTables.ClearAppArea | MMU/ARMv6/mmu.c:1068-1087 | every entry from 0x8000 on asks the slot, and the first 32 KiB are unchanged; the later sections ask the slot, or the core halts exactly if one has a table |
| LazyTranslation.LocalTables.ClearSvcStackArea | MMU/ARMv6/mmu.c:1105-1125 | the entries outside the outermost pair that asks the slot are cleared, and those between and those at and above the top are unchanged; all are cleared if and only if there are pages at the ends only |
| LazyTranslation.LocalTables.SwitchTo | MMU/ARMv6/mmu.c:1127-1163 | every entry from 0x8000 on asks the slot, and the first 32 KiB and the entries from the stack's top on are unchanged; the sections of the application and pipes areas ask the slot, or the core halts exactly if one of them has a table |
| LazyTranslation.StandardStackIsGood | TaskSlot/simple/task_slot.c:582-601 | the workspace and stack that every slot starts with meet all conditions on a slot's blocks |
| LazyTranslation.StandardSvcStack | TaskSlot/simple/task_slot.c:582-601 | an empty slot gets exactly these two blocks, in address order |
| TablePool.StoreThenLookup | MMU/ARMv6/mmu.c:244-251 | storing a table's physical address in a level 1 entry and looking it up gives the same table, for every table of the pool |
| TablePool.LookupThenStore | MMU/ARMv6/mmu.c:159-180 | whatever its other bits, an entry that refers to the pool leads to the table whose physical address it holds |
| TablePool.PhysicalIsOffset | MMU/ARMv6/mmu.c:215-242 | the physical address of a table is its offset in the pool on the pool's physical base |
| TablePool.MapPool | MMU/ARMv6/mmu.c:690-697 | the pool's pages are mapped in order, readable and writable by the kernel only, never executed, and no other entry changes |
| TablePool.CheckGlobal | MMU/ARMv6/mmu.c:575-598 | the faulting entry is copied; the core's table still agrees with the global one; the core halts exactly if the global entry is the handler again |
| TablePool.FindTable | MMU/ARMv6/mmu.c:159-180 | the loop ends, at the table of Lookup |
| TablePool.MapAtSection | MMU/ARMv6/mmu.c:244-251 | afterwards looking the section's entry up leads to the table; it is a non-secure one of domain 0; no other section changes |
| TablePool.TableEntryBits | MMU/ARMv6/mmu.c:244-251 | the type, NS, domain and address bits of the entry that is written for any table |
| TablePool.PrivateDataBits | MMU/ARMv6/mmu.c:256-262 | the type, permission, cache and address bits of the entry that is written for any page of the pool |
| TablePool.NoTableGivenTwice | MMU/ARMv6/mmu.c:377-396 | however any number of cores interleave, no table goes to two callers, neither the kernel's own nor the marker is given away, and a core halts only when all have been |
| TablePool.StepKeepsInv | MMU/ARMv6/mmu.c:377-396 | every access keeps: each table is free or given out once, and no table a core has passed is free |
| TablePool.GetsFirstFree | MMU/ARMv6/mmu.c:377-396 | wherever in the search a core has got to, and also if others have taken what it had seen, it gets the first table that is free once nobody interferes, or halts if there is none |
| TablePool.FindFreeTablePreMmu | MMU/ARMv6/mmu.c:618-635 | the first free table is taken, or the core halts at the marker with none free before it |
| ExclusiveAccess.CallsAreAtomic | processor/ARMv6/processor.c:291-318 | however the instructions of any number of cores interleave and exclusive stores fail, calls take effect one at a time as compare-and-swaps, and each core gets its own results in order |
| ExclusiveAccess.NextKeepsInv | processor/ARMv6/processor.c:291-318 | between exclusive load and store the word is as loaded while the monitor is set; each access is logged once |
| ExclusiveAccess.UndisturbedCallReturns | processor/ARMv6/processor.c:291-318 | a call that nobody interferes with returns what the word held, and has swapped exactly if that was expected |
| ExclusiveAccess.CallReturns | processor/ARMv6/processor.c:291-318 | from any place in a call, also after its exclusive store has failed, the core's own steps lead to its return with what the word then holds |
| ExclusiveAccess.CallsReturn | processor/ARMv6/processor.c:291-318 | the same after every run |
| ExclusiveAccess.MonitorFollows | processor/ARMv6/processor.c:291-318 | a monitor is set by the exclusive load, and cleared by the end of the call, any exclusive store of the core, and every store of another one |
| SpinLock.MutualExclusion | processor/ARMv6/processor.c:322-397 | in every interleaving of any number of cores, at most one is in a section |
| SpinLock.ReclaimedIffOwner | processor/ARMv6/processor.h:162-168 | claim_lock returns true exactly when the caller owned the lock, and the caller owns it afterwards |
| SpinLock.FreedAtOutermost | processor/ARMv6/processor.c:378-397 | only its owner frees the lock, and only when it is in no section any more |
| SpinLock.LeavingReleasesIffOutermost | processor/ARMv6/processor.h:163-166 | "if (!reclaimed) release" releases exactly when the outermost section is left |
| SpinLock.SleepsForAReason | processor/ARMv6/processor.c:336-366 | a core asleep with no event pending waits for another owner, for an event about to be sent, or for its own lock |
| SpinLock.NextKeepsInv | processor/ARMv6/processor.c:322-397 | every instruction keeps: the lock word names the only owner, a set monitor before the exclusive store means a free lock, no event is lost before the wfe |
| SpinLock.ReclaimSleepsIffNoEvent | processor/ARMv6/processor.c:336-366 | a core that claims its own lock sleeps first exactly if its event register is clear |
| SpinLock.ReclaimReturnsIff | processor/ARMv6/processor.c:336-366 | on any number of cores and without outside events, such a claim returns if and only if the event register is set when it gets to the wfe, or another core is about to set it |
| SpinLock.ReclaimIsStuck | processor/ARMv6/processor.c:336-366 | otherwise the core stays asleep in it in every run, whatever the other cores do |
| SpinLock.FreeLockIsClaimed | processor/ARMv6/processor.c:336-376 | a core outside claim_lock has a free lock at the first try, unless the exclusive store fails |
| SpinLock.FreeLockIsHadIff | processor/ARMv6/processor.c:336-376 | a core anywhere inside claim_lock, also after failed stores and wake-ups, can get the lock by steps of its own when it is free, coming out with one more section that holds false, if and only if it is not to sleep without an event |
| SpinLock.WaiterGetsReleasedLock | processor/ARMv6/processor.c:336-397 | when the owner leaves its outermost section, every core that waits in claim_lock, asleep or not, can be the next owner |
| SpinLock.SectionsFollow | processor/ARMv6/processor.h:162-168 | a section begins, with what claim_lock returns, exactly when a core comes out of it, and ends exactly when it leaves |
| SpinLock.MonitorFollows | processor/ARMv6/processor.c:336-376 | a monitor is set by the exclusive load, and cleared by clrex, any exclusive store of the core, and every store of another one |
| SpinLock.EventRegisterFollows | processor/ARMv6/processor.c:336-397 | an event register is set by any sev and from outside, and cleared by getting past a wfe |
| SpinLock.JoltWakes | processor/ARMv6/processor.c:346-350 | an event from outside gets a sleeping core past its wfe and changes nothing else |
| SpinLock.LeavingWakesAll | processor/ARMv6/processor.c:378-397 | leaving the outermost section frees the lock, wakes every core that sleeps, and ends |
| BootProtocol.NonePassesEarly | boot/generic/boot.c:31-53 | in every interleaving of n cores, none leaves a checkpoint before all have reached it |
| BootProtocol.OneAllocates | boot/generic/boot.c:330-366 | at most one core at a time allocates memory before the MMU runs |
| BootProtocol.AllocateInOrder | boot/generic/boot.c:349-361 | cores 1 to n-1 allocate in turn, and core 0 after all of them |
| BootProtocol.RegisteredOnceBeforeOthers | kernel.c:49-62 | RAM is registered at most once, by core 0, when no core allocates early any more; nobody is past the boot lock before it has been |
| BootProtocol.StepKeepsCheckpoints | boot/generic/boot.c:91-184 | every access keeps what core 0 concludes from its scans true |
| BootProtocol.StepKeepsTurns | boot/generic/boot.c:325-366 | every access keeps core_to_enter_mmu and core_entered_mmu in step with whose turn it is |
| BootProtocol.StepKeepsLocks | kernel.c:49-62 | every access keeps the gifted lock with core 0 until the RAM is registered |
| BootProtocol.SomeoneGoesOnIff | boot/generic/boot.c:31-366 | until every core has started or been parked, some core can go on if and only if not all of them sleep with core 0 in its claim of the boot lock |
| BootProtocol.FinishesIff | boot/generic/boot.c:31-366 | wherever a run has got to, all cores can still get to the end of their boot without outside events, with the RAM registered once, if and only if core 0 is past the wfe of that claim or its event register is set |
| BootProtocol.WhoAllocatesAndStarts | boot/generic/boot.c:325-366 | cores 0 to 3 allocate their tables exactly once before they go for the boot lock, and start; the others never do, and are parked; what all share has been allocated once before |
| BootProtocol.EventRegistersFollow | processor/ARMv6/processor.c:336-397 | an event register is set by any sev and from outside, and cleared by getting past a wfe |
| BootProtocol.RegistersIff | kernel.c:49-62 | once core 0 has got to the wfe of that claim, RAM can be registered without an outside event if and only if its event register is set |
| BootProtocol.NeverRegisteredWithoutEvent | kernel.c:49-62 | if the event register of core 0 is clear at power-on and no event reaches it, RAM is never registered and no core starts |
| Numbers.DecimalIsNumber | swis.c:1644-1657 | the decimal digits of a number, read as a number, are that number |
| Numbers.HexIsNumber | swis.c:1606-1617 | the lowest k hexadecimal digits of n, read as a number, are n mod 16^k |
| Numbers.DigitsAre | swis.c:1604 | the characters printed are 0 to 9 and, for 10 to 15, lower-case a to f |
| Numbers.ValuesAre | swis.c:272-283 | read as digits, 0 to 9, and letters of either case from 10 on, are accepted, and nothing else |
| Numbers.PutAllEffect | swis.c:1577-1583 | the characters are written in order and nothing else is; all of them without error if and only if r2 is 0 or exceeds their number |
| Numbers.DecimalRoundTrip | swis.c:1644-1670 | a decimal is printed if and only if there is room, and is then read back in base 10 as the same number, up to the terminator |
| Numbers.PrintedEffect | swis.c:1659-1670 | where the text starts, which bytes are written and where r1 and r2 end, on the uncounted terminator or after a failure |
| Numbers.HexRoundTrip | swis.c:1606-1617 | hexadecimal is printed if and only if there is room for the terminator and one more, and is read back in base 16 as the digits asked for |
| Numbers.ScanIsRightIff | swis.c:272-297 | the digit loop returns the number that is written if and only if that is within the limit |
| Numbers.PlainIsRightIff | swis.c:249-329 | a number without a prefix is read correctly if and only if there is one, it is within the limit, and it ends well |
| Numbers.AmpersandIsRightIff | swis.c:266-271 | the same after "&", in base 16, whatever base r0 asks for |
| Numbers.PrefixIsRightIff | swis.c:299-312 | the same after a base from 2 to 36 and "_", if the base is within the limit too; after any other base, however big, the text is refused |
| Numbers.ScanRefusesIff | swis.c:284-294 | the digit loop refuses every number beyond the limit if and only if (limit + 1) * (base - 1) is less than 2^32 |
| Numbers.PlainRefusesIff | swis.c:249-329 | OS_ReadUnsigned refuses every number without a prefix beyond the limit if and only if the same holds of the base and limit that r0 and r2 give |
| Numbers.AmpersandRefusesIff | swis.c:266-271 | the same after "&", for base 16 |
| Numbers.PrefixRefusesIff | swis.c:299-312 | the same after a base from 2 to 36 and "_", for that base |
| Numbers.OverflowUnnoticed | swis.c:284-289 | an example in base 36 without a limit: 7000000 wraps around to no less than its prefix and is accepted |
| Numbers.BaseAndLimitAre | swis.c:251-260 | the base is the low seven bits of r0, or 10 if they are not from 2 to 36; the limit is r2 if bit 29 is set, otherwise 0xff if bit 30 is, and otherwise all ones |
| Numbers.Conversion.WriteConvertedCharacter | swis.c:1577-1583 | one character goes to r1, r1 and r2 move on by one, wrapping, and it fails when r2 becomes 0 |
| Numbers.Conversion.RecursiveConvertDecimal | swis.c:1644-1657 | memory and registers are those after writing the decimal digits, up to a failure |
| Numbers.Conversion.ConvertDecimal | swis.c:1659-1670 | the masked number is written with an uncounted terminator; r0 is where the text starts |
| Numbers.Conversion.HexConvert | swis.c:1606-1617 | memory and registers are those after writing the digits and the terminator, up to a failure |
| Numbers.Conversion.ScanDigits | swis.c:272-297 | the loop computes Scan, at the address where its text starts |
| Numbers.Conversion.OsReadUnsigned | swis.c:249-329 | the registers and the error are those of ReadUnsigned on the text at r1; errors leave r1 and r2 |

## Left out

- Multi-core sharing of tasks: one core's lists are modelled. Both ends of a pipe run on the core, and the queues of `include/mpsafe_dll.h` (tasks waiting for the legacy kernel or for a slot's SVC stack) are not part of this model.
- Scheduler.Core.TaskOpSleep: `release_task_waiting_for_stack` finds no one waiting for the slot's SVC stack; the queue of those tasks is shared between cores.
- Scheduler.Core.PipeWaitForSpace: takes the virtual address as given, because `allocate_virtual_address` is a placeholder. The theorems about the bytes also need the double mapping to lie below the top of memory, and a size that divides the range of the indices, of which PipeModel.LocationsFollowIffDivides shows the need; those about who waits and who is woken do not.
- Scheduler.Core.PipeSpaceFilled: takes the receiver of the core's debug pipe as given.
- Scheduler.Core.PipeCreate: takes the physical memory and the handle as given; the kernel allocates one page, whatever the size.
- Scheduler.Core.TaskOpResume: requires the running task not to be alone if another one is to be resumed, as the kernel asserts; the handle is that of a live task, and the count has not reached 0x7fffffff.
- Scheduler.Core.TaskOpStart: whether a slot and a task are free is given; that the pool's objects are distinct is a fresh allocation.
- Scheduler.Core.TaskOpWaitForInterrupt: the assertion that a task waits for the pending device is a condition, as for RunIrqTasks.
- Assertions that are not part of this model: `is_a_task` (a task is always one of the pool's) and `!reclaimed` (who holds `pipes_lock` and the other locks of single calls).
- Error blocks: the pointer in r0 becomes the result of the method.
- PipePassingOver, PipePassingOff, PipeUnreadData and the not-listening calls: not modelled.
- `dll_new`, `dll_move` and the pool: `dll_move` onto a list that is not empty breaks it; no other modelled code uses them.
- FreePages.AllocateRun: requires that the search does not read past the end of an array that has lost its terminator (ReadsPastEnd). Alignments are powers of two.
- FreePages.KernelAllocatePages: an alignment of less than a page, or one that is not a power of two, is excluded; no caller uses one.
- BootMemory.PreMmuAllocate: requires that size and alignment together are less than 2^32, since the source adds them on words (FreePages.WrappedSumDecidesIff); no caller asks for nearly as much.
- BootMemory.RelocateAsNecessary: sizes are whole MiBs, and RAM is more than twice the image; the jump to the new place is not modelled.
- SlotBlocks.SlotMemory.AddMemory: excludes the last entry of the array, whose successor the assertions would read past the end of the array.
- SlotBlocks.SlotMemory.AdjustAppMemory: requires an entry to spare, as the kernel asserts.
- LazyTranslation.RunIsCache: blocks keep to one section, and faults happen while the loaded slot is the running task's. The kernel checks neither: an address in a later MiB stops it, but for a block that crosses the end of the first MiB (GrownBlockStaysIff), a fault below that makes map_block write past its table (StaysInTableIff).
- LazyTranslation.LocalTables.CheckTaskSlot: an address without a block halts the core; the source then tries `Pipe_physical_address`, which has only a placeholder for pipes other than the debug pipe, whose addresses are in other sections.
- TablePool.FindTable: requires that the entry refers to the pool; the loop would run off the table otherwise.
- TablePool.NoTableGivenTwice: takes change_word_if_equal as one access, which ExclusiveAccess.CallsAreAtomic justifies.
- BootProtocol.RegisteredOnceBeforeOthers: takes the exclusive load and store of claim_lock as one access, and release_lock's store likewise; the wfe, the sev and the event registers are modelled; the relocation of the code between the checkpoints is not modelled.
- Numbers.Conversion.OsReadUnsigned: requires a control character somewhere after r1, as strings have; without one the loop would never end.
- Signed, binary and spaced conversions, OS_SubstituteArgs32, GSTrans and the expression evaluator: not modelled.
- `find_handler`, section entries of `physical_address`, kernel stack pages, zero page, device mappings, and the lazily allocated legacy workspace: not modelled.
- Memory ordering, caches, TLBs, register banking and inline assembler: every access takes effect in the order of the interleaving.
- Shutdown of tasks and slots, modules, devices, display, Wimp and legacy calls: not modelled.
