# XJOS kernel, verified model

XJOS is a small 32-bit kernel in C.  This project models its hard parts in Dafny
and proves what they are for.  `dafny verify dfyconfig.toml` checks everything.

Objects the kernel updates in place are classes, and their methods keep the loops
and the order of the C code.  Each method is proved against functions on plain
values, and the theorems are about those functions.  A failed kernel assertion, a
`panic` and an error return are results of the functions, so the theorems say
when they can happen.

* **Copy-on-write memory** (`PageTables`, `PageTableProofs`, `PageUpdates`,
  `PageFork`, `PageOps`, `CowRefinement`, `MmapPages`, `CowMachine`,
  `RefCounts`, `FreshPages`, `PageLoops`, `MemoryManager`).  Page directories and tables with
  their reference counts, shared between processes by fork.  Every run of reads,
  writes, maps, unmaps, forks and exits looks to each process like a run of a
  machine that copies all pages at fork.
* **Red-black tree** (`RbNodes`, `RbRotate`, `RbBalance`, `RbInsert`, `RbErase`,
  `RbDelete`) on linked nodes with parent pointers.
* **Fair scheduler** (`CfsModel`, `CfsAccounting`, `CfsProgress`, `CfsQueue`) over
  that tree: a stable priority queue, virtual time in proportion to time run and
  weight, a bound on how far apart ready tasks drift, and exactly when a ready
  task is picked.
* **Blocking protocols** (`MutexProtocol`, `Fifo`, `PipeProtocol`, `Elevator`),
  each as steps that interleave in any order.  System calls run with interrupts
  off, so what a task does between two blocking calls is one step.
* **Buffer cache and files** (`BufferCache`, `BufferProofs`, `BufferMachine`,
  `BufferHolders`, `Buffers`, `MinixFs`, `MinixProofs`, `MinixFiles`, `MinixSpace`, `MinixRuns`,
  `MinixCached`, `MinixMount`, `MinixDisk`).  The cache behaves like the disk behind it.  Minix
  files behave like sequences of bytes, over a plain disk and over the cache.
* **Allocators** (`Bitmap`, `KernelPages`, `Arena`, `ArenaProofs`,
  `ArenaMachine`, `ArenaHeap`).  First fit over bytes, and kmalloc on top of it.
* **Console, strings, calendar** (`Attributes`, `Terminal`, `Sequences`,
  `ScreenLaws`, `Console`, `Strings`, `Calendar`).
  The scrolling window in video memory shows a plain grid of cells, on which every
  control sequence has its effect described from its bytes on; the word-wise
  string routines equal their byte-wise meaning; the calendar conversions are
  inverse to each other and tick like a clock.

Several natural properties do not hold of the code.  For each the project has the
exact condition under which it does, and an input on which it fails:

* mapping over a page that is already there leaves others alone:
  `MmapPages.MapPresent`; failing, from boot on, `RefCounts.RemapRun`, and every
  shared page, `RefCounts.RemapAfterForkIsSeen`;
* `strchr` finds its character: `Strings.Strchr`; failing from 128 on,
  `Strings.HighCharacter`;
* a page linked on demand reads as zeros: `FreshPages.DemandZeroExactly`; failing,
  `FreshPages.StaleByteRun`;
* `bsync` brings the disk up to date: `BufferMachine.SyncExactly`; failing for
  clients that set the dirty flag themselves, `BufferMachine.DirectMissed`.  The
  Minix code does so everywhere, so `bsync` writes nothing of a file:
  `MinixMount.SyncMissesWrites`, `MinixMount.MissedByte`;
* a file can be read after a write past its end: `MinixFiles.HolesExactly`;
  failing, `MinixRuns.HoleExample`;
* files keep their zones apart when zones run out: `MinixSpace.CreateOutExactly`
  with `MinixSpace.CreateFits`; failing, `MinixSpace.FullDiskShares`, and on large
  disks with the loss of data, `MinixSpace.FullOverwrites`;
* a new table of blocks is empty: `MinixSpace.NewTable`; failing,
  `MinixSpace.StaleDiskShares`;
* a ready task gets the processor in the end: `CfsProgress.PickedExactly`; failing,
  `CfsProgress.Starves`, in a state that `CfsProgress.StarvingReached` reaches;
* tasks get a mutex in the order in which they asked:
  `MutexProtocol.FirstComeExactly`; failing, `MutexProtocol.OvertakingRun`;
* the console's `delete_line` deletes the line: `Terminal.DeleteLineExactly`;
  failing, `Terminal.DeleteLineKeepsLetter`;
* an escape sequence comes to an end: `Terminal.ReturnsExactly`,
  `Terminal.LeavesExactly`; failing, `Terminal.EscSwallows` and
  `Terminal.SixteenSemicolons`;
* a cursor sequence moves by its number: `ScreenLaws.MovesBy`; failing,
  `ScreenLaws.FarDownFails`;
* the elevator serves by sector: `Elevator.SectorOrderExactly`; failing,
  `Elevator.FarSectorFirst`;
* `localtime` undoes `mktime`: `Calendar.StampsExactly`, up to 7 February 2106,
  06:28:15; failing, `Calendar.FirstLost`.

## Model

| member | source | states |
|---|---|---|
| CowMachine.RunRefines | src/kernel/mm/memory.c:429-808 | for every run of reads, user writes with their faults, maps, unmaps, heap changes, forks and exits, over any number of processes, what the processes read is what a machine gives them that copies all pages at fork |
| CowMachine.StepRefines | src/kernel/mm/memory.c:429-808 | one event of the kernel is one event of the eager machine, and the memory invariant holds again |
| CowMachine.Isolation | src/kernel/mm/memory.c:561-808 | nothing other processes do in any run changes a byte that a process reads |
| CowMachine.ForkSnapshot | src/kernel/mm/memory.c:561-607 | a child reads what its parent had at the fork, whatever everybody else does, until the child acts itself |
| CowMachine.WriteFault | src/kernel/mm/memory.c:750-808 | when page_fault returns from a refused write, both levels allow the write and the invariant holds |
| CowMachine.Demand | src/kernel/mm/memory.c:795-802 | a page linked on demand is mapped and writable at both levels; whether it is linked is RefCounts.DemandFailsExactly |
| RefCounts.CountsAreReferences | src/kernel/mm/memory.c:163-204 | the count of a user frame is the number of directory slots using it as a table plus the number of walks reaching it as data |
| RefCounts.RunCountsAreReferences | src/kernel/mm/memory.c:163-808 | that equation holds in every state any run reaches |
| RefCounts.ForkNeverOverflows | src/kernel/mm/memory.c:561-607 | with fewer tasks than the task table holds, copy_pde's assertions that a count is below 255 never fail |
| RefCounts.CountBound | src/kernel/mm/memory.c:561-607 | no count exceeds the number of address spaces |
| RefCounts.FreePagesInBounds | src/kernel/mm/memory.c:163-204 | the assertions on free_pages in get_page and put_page hold in every good state |
| RefCounts.FreeingFree | src/kernel/mm/memory.c:527-557 | they also hold between any two put_page calls inside free_pde |
| RefCounts.NothingLeaks | src/kernel/mm/memory.c:527-557 | when the last process is gone every user frame is free and free_pages is its boot value |
| RefCounts.ExitUndoesFork | src/kernel/mm/memory.c:527-607 | an exit of the child right after a fork puts all counts and free_pages back, and the invariant holds in between |
| RefCounts.BootGood | src/kernel/mm/memory.c:122-158 | the memory the kernel starts with satisfies the invariant |
| RefCounts.SpawnGood | src/kernel/task/task.c:532-549 | a process with an empty user part keeps the invariant and changes no other view |
| RefCounts.RemapAfterForkIsSeen | src/kernel/mm/memory.c:636-682 | every page shared by a fork whose contents are not zero is changed under the other process when one of them maps over it, given a free frame |
| RefCounts.RemapRun | src/kernel/mm/memory.c:636-682 | the same at the end of a run from boot: a process maps and writes a page, forks, and the child's mapping changes what the other process reads |
| RefCounts.LinkFailsExactly | src/kernel/mm/memory.c:429-447 | link_page runs out of memory if and only if fewer frames are free than the table step and the page need |
| RefCounts.UnlinkFailsExactly | src/kernel/mm/memory.c:450-475 | likewise for unlink_page, which may have to copy a shared table first |
| RefCounts.CowFailsExactly | src/kernel/mm/memory.c:708-734 | copy_on_write runs out of memory if and only if a shared table and a shared frame need more frames than are free |
| RefCounts.DemandFailsExactly | src/kernel/mm/memory.c:795-802 | a fault on an absent page panics if and only if the page number is neither below brk nor at or above 63 * 1024, or too few frames are free |
| RefCounts.WriteOutcomeExactly | src/kernel/mm/memory.c:750-808 | for every user store whether it is done, kills the process (exactly on a page mapped read-only) or panics, each if and only if |
| RefCounts.StepOutcomeExactly | src/kernel/mm/memory.c:429-808 | for every event of the machine, whether it succeeds, ends the process or panics, by conditions on free frames, tables, brk and vmap alone |
| RefCounts.StepLimits | src/kernel/mm/memory.c:610-702 | what every event does to brk and vmap of every process: exactly one of them in one process, a copy for a child, and nothing otherwise |
| MmapPages.MapPresent | src/kernel/mm/memory.c:636-682 | mapping over a present page leaves other processes alone if and only if the frame has one user or is zero already, and keeps the invariant if and only if it has one user or the mapping is not writable |
| MmapPages.MapAbsent | src/kernel/mm/memory.c:636-682 | mapping an absent page gives the process a zero page, keeps the invariant and changes no other view |
| MmapPages.MapSafe | src/kernel/mm/memory.c:636-682 | so does mapping over a page that is not shared, or that is zero and not made writable, which by MapPresent are all the safe cases |
| PageFork.ForkInv | src/kernel/mm/memory.c:561-607 | after copy_pde counts are exact again and no shared frame can be written |
| PageFork.ExitInv | src/kernel/mm/memory.c:527-557 | after free_pde the counts are exact for the processes that remain, and the rest of the invariant holds |
| CowRefinement.ForkViews | src/kernel/mm/memory.c:561-607 | fork gives the child the parent's view and changes none |
| CowRefinement.ExitViews | src/kernel/mm/memory.c:527-557 | exit takes one view away and changes none of the others |
| CowRefinement.CopyOnWriteViews | src/kernel/mm/memory.c:708-734 | copy_on_write changes no view |
| CowRefinement.LinkPageViews | src/kernel/mm/memory.c:429-447 | link_page adds one page to one view, with the bytes its frame held before, or changes none if it was there |
| FreshPages.DemandZeroExactly | src/kernel/mm/memory.c:163-447 | a page linked on demand shows the bytes of the frame get_page hands out after the table's, so it is zero if and only if that frame was |
| FreshPages.StaleByteRun | src/kernel/mm/memory.c:429-808 | from boot: a process stores a byte on its stack and exits, and the next process reads that byte on its own stack |
| CowRefinement.UnlinkPageViews | src/kernel/mm/memory.c:450-475 | unlink_page takes one page out of one view and changes no other |
| CowRefinement.EntryPrivateViews | src/kernel/mm/memory.c:283-307 | making a page table private changes no view |
| CowRefinement.StoreViews | src/kernel/mm/memory.c:775-792 | a write through a writable mapping changes one byte of one view |
| MemoryManager.Memory.GetPage | src/kernel/mm/memory.c:163-181 | the loop returns the first frame with count zero and counts it, or nothing when there is none |
| MemoryManager.Memory.PutPage | src/kernel/mm/memory.c:185-204 | one reference less, and one free page more when it was the last |
| MemoryManager.Memory.GetEntryPrivate | src/kernel/mm/memory.c:256-307 | the code computes the table step that the invariant and view lemmas are about, copying the table exactly when it is shared |
| MemoryManager.Memory.LinkPage | src/kernel/mm/memory.c:429-447 | the code computes the modelled link_page, including its failure when no frame is left |
| MemoryManager.Memory.UnlinkPage | src/kernel/mm/memory.c:450-475 | the code computes the modelled unlink_page |
| MemoryManager.Memory.CopyOnWrite | src/kernel/mm/memory.c:708-734 | the code computes the modelled copy_on_write, and fails if and only if a shared table and a shared frame need more frames than are free |
| MemoryManager.Memory.CopyPde | src/kernel/mm/memory.c:561-607 | the nested loops over directory and tables produce exactly the forked memory |
| MemoryManager.Memory.FreePde | src/kernel/mm/memory.c:527-557 | the nested loops release exactly what the process holds |
| MemoryManager.Memory.WriteFault | src/kernel/mm/memory.c:750-808 | the handler's branches are the modelled outcome: page supplied, task killed, or panic |
| MemoryManager.Memory.UserStore | src/kernel/mm/memory.c:750-808 | a user store succeeds after at most one fault with the modelled result; it kills exactly on a page mapped read-only and panics exactly in the cases of RefCounts.WriteOutcomeExactly |
| MemoryManager.Memory.SysBrk | src/kernel/mm/memory.c:610-634 | -1 exactly when the heap would outgrow the free pages; otherwise it is the run of unmaps and the new break, panics if and only if that run does, and takes exactly the given-up pages out of the view |
| MemoryManager.Memory.SysMmap | src/kernel/mm/memory.c:636-682 | over absent pages and over present ones as long as mapping them is safe, the loop is the run of one map event for each page, panics if and only if that run does, and puts zero pages into the view |
| MemoryManager.ScannedCleanly | src/kernel/mm/memory.c:643-645 | a range whose vmap bits are clear, as scan_page chooses it, is such a range |
| MemoryManager.Memory.SysMunmap | src/kernel/mm/memory.c:684-702 | the loop is the run of one unmap event for each page, panics if and only if that run does, and takes the pages out of view and vmap |
| MemoryManager.Memory.MmapPage | src/kernel/mm/memory.c:654-674 | one pass of the loop of sys_mmap, whatever was there: the modelled map, and failure exactly when that fails |
| RbRotate.RotateLeft | src/kernel/lib/rbtree.c:28-50 | on linked nodes, the rotated subtree stands in the old place with every parent link right |
| RbRotate.RotateRight | src/kernel/lib/rbtree.c:58-80 | the mirror image |
| RbInsert.InsertColor | src/kernel/lib/rbtree.c:276-384 | after a red leaf was linked, the same nodes in the same order form a red-black tree with a black root and right parent links; the loop ends |
| RbErase.EraseColor | src/kernel/lib/rbtree.c:89-268 | where a subtree lost a black node, the same nodes in the same order form a red-black tree again; the loop ends |
| RbErase.SiblingExists | src/kernel/lib/rbtree.c:89-268 | the sibling that the code reads without a test is never null |
| RbDelete.Erase | src/kernel/lib/rbtree.c:387-448 | exactly the given node leaves the in-order sequence and the tree is red-black again, for zero, one or two children |
| RbDelete.ReplaceNode | src/kernel/lib/rbtree.c:523-542 | any subtree that lies off the victim's path, wherever it hung before, stands in the victim's place with its parent link right |
| RbDelete.TakePlace | src/kernel/lib/rbtree.c:415-438 | the successor takes the node's place, colour and children |
| RbDelete.First | src/kernel/lib/rbtree.c:451-461 | the first task of the in-order walk, null exactly for the empty tree |
| RbDelete.Last | src/kernel/lib/rbtree.c:464-474 | the last task of the in-order walk |
| RbDelete.Next | src/kernel/lib/rbtree.c:477-497 | the neighbour to the right in the in-order walk |
| RbDelete.Prev | src/kernel/lib/rbtree.c:500-520 | the neighbour to the left in the in-order walk |
| RbBalance.Logarithmic | src/kernel/lib/rbtree.c:276-448 | a tree of n tasks is at most 2 log2(n + 1) deep |
| CfsModel.RunFairly | src/kernel/task/sched.c:77-261 | over every run of ticks, schedules, blocks, wake-ups, creations and reweightings the minimum never goes back, the queue stays sorted, and every ready task stays between the minimum and the minimum plus 6826 |
| CfsModel.ScheduleFairly | src/kernel/task/sched.c:204-261 | schedule keeps these bounds and never lowers the minimum |
| CfsModel.WakeFairly | src/kernel/task/task.c:118-142 | so does a wake-up, which takes the bonus off twice |
| CfsModel.SpawnFairly | src/kernel/task/sched.c:77-113 | so does a new task |
| CfsModel.InsertPlace | src/kernel/task/sched.c:77-113 | a task goes behind all tasks due as early and before all tasks due later |
| CfsModel.InsertUnique | src/kernel/task/sched.c:77-113 | there is only one such place |
| CfsModel.DeltaBound | src/kernel/task/sched.c:204-252 | one slice moves a task by at most 6826 |
| CfsModel.SliceBounds | src/kernel/task/sched.c:49-66 | a time slice lies between 10 and 100 ms |
| CfsModel.NiceToWeightAntitone | src/kernel/task/sched.c:30-46 | a nicer task never weighs more, and no weight is below 15 |
| CfsAccounting.Proportional | src/kernel/task/sched.c:204-261 | over every run, the virtual time put on a task times its weight is 1024 times the milliseconds it ran, up to less than its weight for each time it was charged; until it is woken nothing else moves its virtual time |
| CfsAccounting.ChargeExact | src/kernel/task/sched.c:210-228 | schedule charges the running task x with weight * x <= 1024 * ms < weight * (x + 1), and no other |
| CfsAccounting.ScheduleExact | src/kernel/task/sched.c:204-261 | schedule leaves exactly the same tasks ready or running, less one that blocked; a task due first among them runs next, its virtual time is the minimum, and its slice is its share of 100 ms among all that were ready |
| CfsAccounting.VirtualTime | src/kernel/task/sched.c:77-261 | over every run without a wake-up of the task its virtual time moves by exactly what it was charged |
| CfsAccounting.WakeExact | src/kernel/task/sched.c:173-185 | a wake-up takes off twice the b with weight * b <= 2048 < weight * (b + 1), but nothing below the minimum, and queues the task there |
| CfsAccounting.SpawnExact | src/kernel/task/sched.c:166-170 | a new task starts at the minimum with its own weight |
| CfsAccounting.SliceExact | src/kernel/task/sched.c:49-66 | a slice is the task's share of 100 ms by weight, rounded down, and 10 ms where that is less |
| CfsAccounting.TicksExact | src/kernel/task/sched.c:49-66 | its ticks are the tens of milliseconds in it, and at least one |
| CfsAccounting.NiceSteps | src/kernel/task/sched.c:30-46 | nice 0 weighs 1024, each step less weighs 20 to 40 per cent more, and values out of range count as the nearest in range |
| CfsProgress.PickedExactly | src/kernel/task/sched.c:204-261 | as slices are used up and no task joins or leaves, a ready task is picked in the end if and only if no task due before it, once the running one has paid for its slice, is stuck, that is has a slice too short to move its clock |
| CfsProgress.WaitBound | src/kernel/task/sched.c:204-261 | over every run in which no task joins, while a task is ready schedule takes the processor from advanced or departing tasks at most 6827 times for each task ready with it |
| CfsProgress.AdvancesExactly | src/kernel/task/sched.c:210-228 | the running task's virtual time moves if and only if its milliseconds times 1024 reach its weight |
| CfsProgress.ReschedNearer | src/kernel/task/sched.c:204-261 | a schedule never takes a waiting task further from the processor, and brings it strictly nearer if the running task advanced |
| CfsProgress.Starves | src/kernel/task/sched.c:204-261 | one stuck task due before it and a ready task is never picked, however many slices go by |
| CfsProgress.HeavyStarve | src/kernel/task/sched.c:204-261 | two tasks of weight 88761 and a third due later are such a case: no clock of the three moves, over any number of ticks and schedules of the machine |
| CfsProgress.SlicesRun | src/kernel/interrupt/clock.c:57-89 | slices used up one after the other are runs of ticks and schedules of the machine |
| CfsProgress.StarvingReached | src/kernel/task/sched.c:166-261 | three tasks and one tick lead there from an idle system |
| CfsQueue.Sched.Enqueue | src/kernel/task/sched.c:77-113 | descent, linking, recolouring and counters insert the task into the sorted queue, and the counters are its length and total weight |
| CfsQueue.Sched.Dequeue | src/kernel/task/sched.c:118-129 | any queued task leaves queue and counters; the others keep their order |
| CfsQueue.Sched.PickNext | src/kernel/task/sched.c:134-146 | the head of the queue, whose virtual run time becomes the minimum |
| CfsQueue.Sched.SetTimeslice | src/kernel/task/sched.c:49-66 | the slice and its ticks are those of the model |
| CfsQueue.Sched.Charge | src/kernel/task/sched.c:210-228 | the running task's virtual time moves by the x with weight * x <= 1024 * ms < weight * (x + 1) for its ms milliseconds |
| CfsQueue.Sched.Schedule | src/kernel/task/sched.c:204-261 | charging, requeueing and picking are one schedule step of the model, whose outcome is CfsAccounting.ChargeExact and ScheduleExact |
| CfsQueue.Sched.Wakeup | src/kernel/task/sched.c:173-185 | a wake-up is one step of the model, whose arithmetic is CfsAccounting.WakeExact |
| CfsQueue.Sched.Spawn | src/kernel/task/sched.c:166-170 | a new task enters as in the model |
| CfsQueue.Sched.ClockTick | src/kernel/interrupt/clock.c:57-89 | one tick less; schedule runs exactly when the slice is used up, when a sleeper woke and tasks are ready, or when idle ran and tasks are ready |
| MutexProtocol.RunInv | src/kernel/sync/mutex.c:13-50 | over every interleaving the semaphore is 0 exactly while there is a holder, repeat is the holder's nesting, and a free mutex with waiters has a woken task |
| MutexProtocol.MutualExclusion | src/kernel/sync/mutex.c:13-50 | two tasks between lock and unlock are the same task, and the mutex names it |
| MutexProtocol.NoLostWakeup | src/kernel/sync/semaphore.c:18-53 | when the mutex is free and somebody waits, some woken task can retry, and gets it |
| MutexProtocol.FirstComeExactly | src/kernel/sync/semaphore.c:18-53 | over every run, the sequence of tasks that got the mutex is a prefix of the sequence that asked if and only if nobody took it while a woken task was on its way |
| MutexProtocol.OvertakingRun | src/kernel/sync/mutex.c:13-50 | a task that locks again right after its unlock overtakes the one it woke |
| MutexProtocol.Balance | src/kernel/sync/mutex.c:13-50 | over every run, a task's returned locks less its unlocks are repeat if it is the holder and zero otherwise |
| MutexProtocol.WokenInOrder | src/kernel/sync/semaphore.c:36-53 | the task woken has waited longest and the others keep their order |
| MutexProtocol.UnlockUndoesLock | src/kernel/sync/mutex.c:13-50 | an unlock after a successful lock restores holder and nesting |
| MutexProtocol.Mutex.Lock | src/kernel/sync/mutex.c:13-30 | the code up to its return or its block is one step of the protocol |
| MutexProtocol.Mutex.Resume | src/kernel/sync/semaphore.c:18-33 | so is a woken task's next round |
| MutexProtocol.Mutex.Unlock | src/kernel/sync/mutex.c:32-50 | so is mutex_unlock, whose assertions hold |
| Fifo.Ringbuffer.Put | src/include/xjos/fifo.h:48-56 | the byte is appended; the oldest byte goes exactly when the ring was full |
| Fifo.Ringbuffer.Get | src/include/xjos/fifo.h:40-45 | the oldest byte is returned and removed |
| Fifo.Ringbuffer.Full | src/include/xjos/fifo.h:29-32 | true exactly with size - 1 bytes inside |
| PipeProtocol.PrefixDelivered | src/kernel/fs/pipe/pipe.c:48-82 | in every interleaving no assertion fails, the bytes read are the first bytes written in order, and reader and writer never sleep at once |
| PipeProtocol.StepInv | src/kernel/fs/pipe/pipe.c:48-82 | no pass of either loop fails an assertion, drops a byte or reorders one |
| PipeProtocol.PassesBounded | src/kernel/fs/pipe/pipe.c:48-82 | between calls the two tasks make a bounded number of passes |
| PipeProtocol.StuckIsServed | src/kernel/fs/pipe/pipe.c:48-82 | when neither can go on, a read is finished if and only if as many bytes were offered as asked, and a write if and only if at most 4095 bytes are unread |
| PipeProtocol.ReadOnIsRun | src/kernel/fs/pipe/pipe.c:48-64 | the read loop up to its return or block is a run of single passes |
| PipeProtocol.WriteOnIsRun | src/kernel/fs/pipe/pipe.c:66-82 | so is the write loop |
| PipeProtocol.PipeInode.Read | src/kernel/fs/pipe/pipe.c:48-64 | the code, resumed or not, leaves ring and waiters as that run does and returns its bytes |
| PipeProtocol.PipeInode.Write | src/kernel/fs/pipe/pipe.c:66-82 | likewise for writing |
| Elevator.RunInv | src/kernel/driver/device.c:141-211 | over every interleaving the list stays sorted, exactly one request of a non-empty list is in service or woken, and no woken request lacks a task |
| Elevator.FinishSole | src/kernel/driver/device.c:141-161 | request_nextreq is null if and only if the request was alone; otherwise exactly that request is woken |
| Elevator.NearestNext | src/kernel/driver/device.c:141-161 | the next request is the nearest in the direction of travel, and the direction turns only with nothing left in front |
| Elevator.KeyIsInt | src/include/xjos/list.h:42-43 | the list's key is the sector number as a 32-bit int |
| Elevator.SectorOrderExactly | src/include/xjos/list.h:205-222 | the sorted list is in the order of the sectors if and only if all of them lie below 2^31 or none does |
| Elevator.FarSectorFirst | src/include/xjos/list.h:205-222 | a request for sector 2^31 comes before one for sector 0 |
| Elevator.OneReversal | src/kernel/driver/device.c:141-211 | while a request waits the arm turns at most once, however many others arrive |
| Elevator.NeverStuck | src/kernel/driver/device.c:164-211 | a non-empty list always has a task that can go on |
| Elevator.BlockDevice.InsertSort | src/include/xjos/list.h:205-222 | the loop inserts behind all keys that are not greater |
| Elevator.BlockDevice.Request | src/kernel/driver/device.c:164-197 | a caller waits exactly when the list was not empty |
| Elevator.BlockDevice.NextRequest | src/kernel/driver/device.c:141-161 | direction and successor are those of the model |
| Elevator.BlockDevice.Complete | src/kernel/driver/device.c:199-211 | removal and wake-up are one step of the model, and the invariant holds |
| BufferMachine.ReadsLastStored | src/kernel/fs/buffer.c:142-265 | after any run of calls, with evictions and write-backs wherever they fall, bread returns what was last stored in the block, or what the disk held |
| BufferMachine.StepInv | src/kernel/fs/buffer.c:142-265 | every call keeps one buffer per block, each buffer in its hash bucket, the free list in order of release, and cache and disk together equal to the plain disk |
| BufferMachine.BreadReturnsPlain | src/kernel/fs/buffer.c:169-186 | bread returns the block's only buffer, held and valid, with the plain disk's contents |
| BufferMachine.HeldStays | src/kernel/fs/buffer.c:108-265 | a held buffer keeps its block, and its contents but for its own writes |
| BufferHolders.CountIsHolders | src/kernel/fs/buffer.c:142-227 | after every run the count of a block's buffer is how much more often the block was asked for than given back, and a block without a buffer has no holder |
| BufferHolders.StepCounts | src/kernel/fs/buffer.c:142-265 | one holder more for each getblk and bread of the block, one less for each brelse, and no other call changes it |
| BufferHolders.HeldThrough | src/kernel/fs/buffer.c:108-265 | over every run with fewer releases of a buffer than it has holders it keeps its block |
| BufferMachine.VictimIsOldest | src/kernel/fs/buffer.c:108-135 | the recycled buffer is unused and was released before every other unused one |
| BufferMachine.SyncedDisk | src/kernel/fs/buffer.c:229-265 | for clients that mark with bdirty, bsync leaves every block on the disk as it was last stored |
| BufferMachine.SyncExactly | src/kernel/fs/buffer.c:229-245 | in general a block is up to date after bsync if and only if no dirty buffer off the dirty list holds different contents for it |
| BufferMachine.DirectMissed | src/kernel/fs/buffer.c:229-265 | a changed block whose flag a client set itself is stale on the disk after bsync |
| BufferMachine.SyncIdle | src/kernel/fs/buffer.c:229-265 | for clients that only ever set the flag themselves bsync changes nothing after any run |
| BufferProofs.GetblkInv | src/kernel/fs/buffer.c:142-166 | getblk waits if and only if the block is not cached and all buffers are held; otherwise it returns the block's one buffer and keeps the invariant |
| BufferProofs.ScanExact | src/kernel/fs/buffer.c:49-77 | the hash lookup finds a block's buffer exactly when there is one |
| BufferProofs.BwriteInv | src/kernel/fs/buffer.c:189-206 | bwrite leaves the buffer clean, the block on the disk current, and the invariant intact |
| BufferProofs.BrelseInv | src/kernel/fs/buffer.c:209-226 | a buffer released for the last time goes to the front of the free list |
| Buffers.Pool.Lookup | src/kernel/fs/buffer.c:49-61 | the bucket loop returns the block's buffer, or nothing exactly when no buffer has the block |
| Buffers.Pool.GetFreeBuffer | src/kernel/fs/buffer.c:84-135 | new buffer, recycled buffer or wait, as modelled |
| Buffers.Pool.GetBlock | src/kernel/fs/buffer.c:142-166 | the code is the modelled getblk |
| Buffers.Pool.ReadBlock | src/kernel/fs/buffer.c:169-186 | the code is the modelled bread, with the plain disk's contents |
| Buffers.Pool.WriteBuffer | src/kernel/fs/buffer.c:189-206 | the code is the modelled bwrite |
| Buffers.Pool.SetDirty | src/kernel/fs/buffer.c:248-265 | the code is the modelled bdirty |
| Buffers.Pool.ReleaseBuffer | src/kernel/fs/buffer.c:209-226 | the code is the modelled brelse |
| Buffers.Pool.SyncAll | src/kernel/fs/buffer.c:229-245 | the loop is the modelled bsync and empties the dirty list |
| MinixRuns.ReadsAfterWrites | src/kernel/fs/minix/minix.c:312-448 | on a disk made empty, after any sequence of writes to any files at offsets up to their sizes, a read returns the slice of the byte sequence the same writes build |
| MinixRuns.RunRefines | src/kernel/fs/minix/minix.c:312-448 | the files of every run are those of the same writes on plain sequences |
| MinixRuns.WriteGood | src/kernel/fs/minix/minix.c:377-448 | one write overwrites one file's sequence, leaves all others, and makes no hole |
| MinixRuns.ReadGood | src/kernel/fs/minix/minix.c:312-374 | a read of a file without holes is a slice of its contents, or EOF from its size on |
| MinixFiles.WriteThenRead | src/kernel/fs/minix/minix.c:312-448 | reading back a write returns its bytes, for any offset |
| MinixFiles.WriteEffect | src/kernel/fs/minix/minix.c:377-448 | a write changes exactly its bytes among the bytes of all files, sets the size to the maximum, and adds zones exactly for the blocks it touches |
| MinixFiles.OtherFiles | src/kernel/fs/minix/minix.c:312-448 | no read of another file gives a different result after a write |
| MinixFiles.ReadsWithoutHole | src/kernel/fs/minix/minix.c:312-374 | the assertion in minix_read holds if and only if every block of the range has a zone |
| MinixFiles.ReadExact | src/kernel/fs/minix/minix.c:312-374 | then the loop returns the file's bytes |
| MinixFiles.ReadIsRaw | src/kernel/fs/minix/minix.c:312-374 | each byte returned is the byte of the disk at the zone that the inode and the raw little-endian words of its tables name |
| MinixFiles.HolesExactly | src/kernel/fs/minix/minix.c:377-448 | a write leaves a file without holes if and only if the whole blocks it skips past the old end have zones already |
| MinixRuns.JumpLeavesHole | src/kernel/fs/minix/minix.c:312-448 | a first write past the first block leaves a file whose first byte cannot be read |
| MinixRuns.HoleExample | src/kernel/fs/minix/minix.c:312-448 | one byte written at offset 2048 of a new file is such a write, on a disk of nine blocks as minix_mkfs lays it out |
| MinixMount.RunThroughRefines | src/kernel/fs/minix/minix.c:134-448 | files over the buffer cache, with tables and blocks taken from what bread returns: after any writes and reads, and any other use of the cache between them, the file system is the one the writes make of the plain disk |
| MinixMount.ReadsThroughCache | src/kernel/fs/minix/minix.c:312-448 | so a read gives the slice of the byte sequence that the writes build |
| MinixMount.WriteThroughWorks | src/kernel/fs/minix/minix.c:377-448 | minix_write over the cache never waits while some buffer is not held, succeeds if and only if the plain write does, leaves its zones and makes exactly its stores |
| MinixMount.ReadThroughWorks | src/kernel/fs/minix/minix.c:312-374 | minix_read over the cache gives what the plain read gives and changes no file |
| MinixMount.CreateThroughWorks | src/kernel/fs/minix/minix.c:134-200 | the walk that reads each table from its buffer and writes new entries into it is the creating walk of the theorems, and returns its zone |
| MinixCached.CachedWrites | src/kernel/fs/minix/minix.c:377-448 | when other users of the cache come in between the stores of a write, bread of a zone still gives what the file system over a plain disk has there |
| MinixCached.WritePutsApplied | src/kernel/fs/minix/minix.c:134-448 | the stores of minix_bmap and minix_write, one after the other, are all the write does to the zones |
| MinixMount.SyncMissesWrites | src/kernel/fs/minix/minix.c:403-428 | after any such run bsync does nothing, and a zone is on the disk as the files have it if and only if it has no stale buffer off the dirty list |
| MinixMount.MissedByte | src/kernel/fs/minix/minix.c:403-428 | one byte written to a new file is not on the disk after bsync |
| MinixSpace.CreateFits | src/kernel/fs/minix/minix.c:21-200 | minix_bmap finds its zones if and only if as many bits are clear as slots on the way have none, and then exactly so many are taken |
| MinixSpace.CreateOutExactly | src/kernel/fs/minix/minix.c:134-200 | the file system's invariant outlives minix_bmap if and only if no zone was missing |
| MinixSpace.CreateOutAgrees | src/kernel/fs/minix/minix.c:134-200 | the code with its full-disk behaviour is the creating walk of the theorems whenever that finds its zones; otherwise it does not come to a zone of the disk, unless 0xFF9C, the low half of EOF, is one |
| MinixSpace.WriteOutAgrees | src/kernel/fs/minix/minix.c:377-448 | so is minix_write |
| MinixSpace.FullShares | src/kernel/fs/minix/minix.c:134-200 | two files that ask a full disk for a block both get the number 0xFF9C |
| MinixSpace.FullDiskShares | src/kernel/fs/minix/minix.c:134-200 | so do two empty files of a disk of nine blocks without a clear bit |
| MinixSpace.FullOverwrites | src/kernel/fs/minix/minix.c:134-448 | on a full disk with a zone 0xFF9C a write to a new block of one file succeeds and changes the bytes of the file that has this zone |
| MinixSpace.NewTable | src/kernel/fs/minix/minix.c:178-199 | a new table reads entry by entry as its zone did before, so it is empty exactly when the zone held zeros |
| MinixSpace.StaleDiskShares | src/kernel/fs/minix/minix.c:178-199 | on a disk of nine blocks with a free zone that is not zero a new table leads to another file's block |
| MinixProofs.Apart | src/kernel/fs/minix/minix.c:134-200 | two places of one file or of two, at any of the three levels, never share a zone |
| MinixProofs.CreateEffect | src/kernel/fs/minix/minix.c:134-200 | minix_bmap with create adds zones only on the way to its block and changes no byte of any file |
| MinixFs.BlockPathInjective | src/kernel/fs/minix/minix.c:134-200 | different blocks of a file take different ways through direct, single and double indirect tables |
| MinixFs.BlockPathOrdered | src/kernel/fs/minix/minix.c:134-200 | a block comes before another if and only if its way through the tables comes before the other's, lexicographically |
| MinixFs.BlockPathOnto | src/kernel/fs/minix/minix.c:134-200 | every way to a data zone is that of some block, so with the order there is only one such numbering |
| MinixFs.AtIsZoneOf | src/kernel/fs/minix/minix.c:134-200 | the zone of a block: the inode's word below 7, the word of the table in zone 7 below 519, else the word of the table named in the table in zone 8 |
| MinixDisk.Disk.AllocZone | src/kernel/fs/minix/minix.c:21-47 | the first clear bit k is set and the zone is k + firstdatazone - 1; -100 in 32 bits exactly when every bit is set; the failed assertion exactly when that zone does not exist |
| MinixDisk.Disk.Bmap | src/kernel/fs/minix/minix.c:134-200 | the loop over levels, index and divider returns the zone of the block in the raw words of inode and tables, or 0 |
| MinixDisk.Disk.BmapCreate | src/kernel/fs/minix/minix.c:134-200 | with create the loop leaves the modelled state and reply in every case, also with the disk full or full before; inside the file system the reply is the zone of the block in the raw words afterwards |
| MinixDisk.Disk.Read | src/kernel/fs/minix/minix.c:312-374 | the loop is the modelled read |
| MinixDisk.Disk.Write | src/kernel/fs/minix/minix.c:377-448 | the loop leaves the modelled state, also when it does not get to its end or the disk was full before; it gets there and is the write of the theorems when that succeeds, and on disks up to zone 0xFF9C only then |
| Bitmap.Map.Scan | src/kernel/lib/bitmap.c:54-100 | exact first fit: the least start of count clear bits, with those bits set and no others, or EOF exactly for count 0 or when no such run exists |
| Bitmap.Map.Search | src/kernel/lib/bitmap.c:54-89 | the search with its skip over full bytes finds the first fit |
| Bitmap.Map.Test | src/kernel/lib/bitmap.c:20-33 | the bit of the index |
| Bitmap.Map.Set | src/kernel/lib/bitmap.c:36-51 | one bit of the map changes and no other |
| KernelPages.NeverOverlap | src/kernel/mm/memory.c:382-426 | over every history no page is in two live ranges, and every page of one is marked |
| KernelPages.AllBack | src/kernel/mm/memory.c:397-426 | when all ranges are back the bitmap is what it was |
| KernelPages.PanicsOnlyWhenFull | src/kernel/mm/memory.c:382-393 | an allocation panics if and only if no run of free pages is long enough |
| KernelPages.FreeUndoesAlloc | src/kernel/mm/memory.c:410-426 | a free right after an allocation restores everything |
| KernelPages.AllocKpage | src/kernel/mm/memory.c:382-417 | the address is the first fit and exactly its pages are marked |
| KernelPages.FreeKpage | src/kernel/mm/memory.c:397-426 | the loop's assertions hold and exactly the given pages are cleared |
| ArenaMachine.SafeHistories | src/kernel/mm/arena.c:40-132 | after every history of kmalloc and kfree, with other callers of alloc_kpage and free_kpage in between, no byte belongs to two allocations, and every byte of one lies in a page that is held and not one of theirs |
| ArenaMachine.KmallocInv | src/kernel/mm/arena.c:40-98 | the address is nobody's, the block is big enough, and it fails if and only if pages are needed and none are free |
| ArenaMachine.KmallocPlace | src/kernel/mm/arena.c:40-98 | up to 1024 bytes lie in a block of the smallest size that fits, more behind the 16 bytes of a header of exactly as many pages as they need |
| ArenaMachine.FreeUndoesMalloc | src/kernel/mm/arena.c:40-132 | kfree right after kmalloc of up to 1024 bytes puts the whole heap back, the order of its lists included, except for a new page while fewer than four of its size are held |
| ArenaMachine.FreeUndoesLarge | src/kernel/mm/arena.c:40-132 | for more bytes it puts everything back without exception |
| ArenaMachine.MallocReuses | src/kernel/mm/arena.c:89-119 | the block freed last is the next of its size to be handed out, unless its page went back |
| ArenaMachine.AlignedHistories | src/kernel/mm/arena.c:26-98 | after every history every address handed out is a multiple of 16 and not at the start of a page |
| ArenaMachine.SizeIs | src/kernel/mm/arena.c:13-23 | the block sizes are 16 to 1024, and a page holds as many as fit behind 16 bytes |
| ArenaMachine.KfreeInv | src/kernel/mm/arena.c:101-132 | the assertions hold, exactly one allocation goes, and a page goes back if and only if its last block came back with more than four pages of that size held |
| ArenaMachine.ReserveBounded | src/kernel/mm/arena.c:101-132 | after every history, once all blocks of a size are back at most four pages of that size are held |
| ArenaMachine.RunLean | src/kernel/mm/arena.c:40-132 | over every history, with more than four pages of a size each of them has a block in use |
| ArenaMachine.LiveApart | src/kernel/mm/arena.c:40-132 | live allocations never share a byte |
| ArenaProofs.DropPageInv | src/kernel/mm/arena.c:121-131 | giving a page back removes exactly its blocks from the list and keeps all counts right |
| ArenaProofs.AddPageInv | src/kernel/mm/arena.c:71-87 | a new page's blocks are apart from all others and all on the list |
| ArenaProofs.AllFree | src/kernel/mm/arena.c:121-126 | when an arena's count equals its number of blocks, all of them are on the list and none is live |
| Arena.ClassOf | src/kernel/mm/arena.c:62-66 | the smallest block size that fits |
| ArenaHeap.KernelHeap.Allocate | src/kernel/mm/arena.c:40-98 | the code is the modelled kmalloc |
| ArenaHeap.KernelHeap.Release | src/kernel/mm/arena.c:101-132 | the code is the modelled kfree |
| ArenaHeap.KernelHeap.PushBlocks | src/kernel/mm/arena.c:81-86 | the loop puts all blocks of the page on the list |
| ArenaHeap.KernelHeap.RemoveBlocks | src/kernel/mm/arena.c:122-127 | the loop takes exactly the page's blocks off the list |
| Console.Driver.WriteAll | src/kernel/driver/console.c:547-583 | for every byte stream the window in video memory shows what the plain terminal shows; cursor, window and arguments stay in bounds; the result is one more than the count |
| Console.Driver.ScrollUp | src/kernel/driver/console.c:158-171 | moving the window, or copying it back to the base, shows the rows moved up over a blank row |
| Console.Driver.Character | src/kernel/driver/console.c:145-155 | a character, wrapped to the next line when the row is full |
| Console.Driver.Tabulate | src/kernel/driver/console.c:102-111 | the next tab stop, with wrap |
| Console.Driver.AddLine | src/kernel/driver/console.c:322-332 | a blank row comes in at the cursor and the rows below move down |
| Console.Driver.RemoveLine | src/kernel/driver/console.c:347-357 | the rows that delete_line leaves, which are not those of a deleted line in general |
| Console.Driver.AddChar | src/kernel/driver/console.c:400-417 | a blank cell comes in and the rest of the row moves on |
| Console.Driver.RemoveChar | src/kernel/driver/console.c:372-383 | a cell leaves and the rest of the row follows |
| Console.Driver.EditTimes | src/kernel/driver/console.c:335-431 | how often an edit is repeated, with unsigned and signed comparisons as in the code |
| Console.Driver.ClearDisplay | src/kernel/driver/console.c:273-295 | the cells csi_J erases |
| Console.Driver.ClearRow | src/kernel/driver/console.c:298-319 | the cells csi_K erases |
| Console.Driver.ChangeStyle | src/kernel/driver/console.c:434-456 | the style all arguments leave together, in the style byte and in the erase cell |
| Attributes.Apply | src/kernel/driver/console.c:436-454 | the masks and shifts of one round change blinking, ground, bold and text as the argument says and leave the other parts |
| Attributes.Combine | src/kernel/driver/console.c:434-455 | the loop leaves the byte that packs the parts all arguments leave together |
| Attributes.StyleExactly | src/kernel/driver/console.c:434-456 | the style byte of a whole sequence part by part: text, ground, bold and blinking each come from the last argument that has a say, and 7 trades them |
| Console.Driver.MoveTo | src/kernel/driver/console.c:61-76 | the clamped position, and the cursor address that goes with it |
| Console.Driver.CsiByte | src/kernel/driver/console.c:459-545 | each final byte has the effect that the laws of ScreenLaws describe for whole sequences |
| Console.Driver.NormalByte | src/kernel/driver/console.c:186-220 | each control or text byte has the effect described by ScreenLaws.Backspace, TabStop, LineEnds and Terminal.TypedText |
| Console.Driver.EscByte | src/kernel/driver/console.c:223-250 | each byte after ESC has the effect described by ScreenLaws.AfterEscape |
| Console.Driver.ArgByte | src/kernel/driver/console.c:253-270 | arguments are read with 32-bit wrap-around and never outside their array |
| Terminal.TypedText | src/kernel/driver/console.c:145-220 | text of any length typed on a cleared screen is shown as its last 25 lines of 80 characters |
| Sequences.SequenceRuns | src/kernel/driver/console.c:186-270 | ESC, bracket, up to sixteen numbers in decimal with semicolons between them and a final byte: the effect of the final byte with those numbers, reduced to 32 bits |
| ScreenLaws.MovesBy | src/kernel/driver/console.c:459-545 | A to F, a and e, over whole byte streams: nothing but the cursor changes, and it moves by the number (by one for none) and stops at the edge, if and only if place and number stay in range in 32 bits |
| ScreenLaws.FarDownFails | src/kernel/driver/console.c:473-478 | 2147483648 rows down from the start screen does not end on the last row |
| ScreenLaws.MovesTo | src/kernel/driver/console.c:459-545 | G, backquote, d, H and f go to the place named, counted from one and cut at the edges, if and only if the numbers used are at most 2^31 |
| ScreenLaws.SavesAndRestores | src/kernel/driver/console.c:536-541 | s keeps the place of the cursor, and u goes to the place kept with the column cut to 79 |
| ScreenLaws.ErasesCells | src/kernel/driver/console.c:273-319 | J on the screen and K on the row erase cell by cell: at and behind the cursor for 0, before it for 1, all for 2, and nothing for other numbers |
| ScreenLaws.InsertsLines | src/kernel/driver/console.c:322-344 | L brings in as many blank rows as asked, one for none and at most 25, and every other cell is the one that many rows above |
| ScreenLaws.DeletesLines | src/kernel/driver/console.c:347-369 | M, cell by cell for any number: below the cursor every second row takes the next one, and the last row is blank |
| ScreenLaws.InsertsChars | src/kernel/driver/console.c:400-431 | @ brings in as many blank cells as asked, and the rest of the row moves on |
| ScreenLaws.DeletesChars | src/kernel/driver/console.c:372-397 | P takes as many cells away, the rest of the row follows and blanks come in at its end |
| ScreenLaws.EditsAtMargin | src/kernel/driver/console.c:372-431 | behind the last column @ and P do nothing for a positive number, and otherwise erase the first cell of the next row |
| ScreenLaws.SetsStyle | src/kernel/driver/console.c:434-456 | m sets the style of all the numbers together, which is Attributes.StyleExactly, and blanks of that style |
| ScreenLaws.OthersIgnored | src/kernel/driver/console.c:459-545 | a sequence that ends in any other byte changes nothing on the screen |
| ScreenLaws.AfterEscape | src/kernel/driver/console.c:223-250 | after ESC, D and E feed a line, 7 keeps the place of the cursor and 8 goes back to it |
| ScreenLaws.Backspace | src/kernel/driver/console.c:131-137 | backspace erases the cell before the cursor and goes there, and does nothing at the start of a row |
| ScreenLaws.TabStop | src/kernel/driver/console.c:102-111 | tab goes to the next column divisible by eight, on the next row if there is none |
| ScreenLaws.LineEnds | src/kernel/driver/console.c:114-220 | line feed, vertical tab, form feed, carriage return, delete, bell and zero, cell by cell |
| ScreenLaws.PutsByte | src/kernel/driver/console.c:145-155 | any other byte goes to the cell at the cursor in the style set, from 128 on in style 0xFF, and the cursor moves on; behind the last column it does so after a line feed and carriage return |
| Terminal.ReturnsExactly | src/kernel/driver/console.c:186-270 | after ESC the console is back in its normal state for the first time behind a byte stream if and only if the stream is: bytes up to the first bracket, an optional question mark, digits and fewer than sixteen semicolons, and one more byte |
| Terminal.LeavesExactly | src/kernel/driver/console.c:186-270 | it comes back at all if and only if some beginning of the stream is of that form |
| Terminal.EscSwallows | src/kernel/driver/console.c:223-250 | without a bracket no stream of any length leads out of the state after ESC, and without E, D, 7 and 8 none changes anything |
| Terminal.SixteenSemicolons | src/kernel/driver/console.c:186-270 | ESC, bracket and sixteen semicolons lead from every normal state to one in which whatever follows is swallowed |
| Terminal.SwallowsAll | src/kernel/driver/console.c:253-270 | with sixteen semicolons read, every later byte is swallowed |
| Terminal.EndsSequence | src/kernel/driver/console.c:253-270 | one byte of the arguments: it ends them if and only if fewer than sixteen were read and it is neither digit nor semicolon |
| Terminal.DeleteLineExactly | src/kernel/driver/console.c:347-357 | delete_line deletes the line if and only if every second row from the cursor on equals the row below it |
| Terminal.DeleteLineFails | src/kernel/driver/console.c:347-357 | text typed on a cleared screen stays when its line is deleted |
| Terminal.DeleteLineKeepsLetter | src/kernel/driver/console.c:347-357 | one letter typed on the screen as it starts is enough |
| Strings.Strlen | src/libs/common/string.c:68-103 | the number of bytes before the first zero, for every alignment and content |
| Strings.Strcmp | src/libs/common/string.c:112-163 | the sign of the unsigned lexicographic order, for any two alignments |
| Strings.Strchr | src/libs/common/string.c:172-221 | the first match if and only if the character is below 128 or absent; null for every character from 128 on |
| Strings.HighCharacter | src/libs/common/string.c:172-221 | every character from 128 on stands first in some string |
| Strings.MagicZero | src/libs/common/string.c:83-92 | the magic test is non-zero exactly when one of the four bytes is zero |
| Strings.MagicMatch | src/libs/common/string.c:187-200 | on the xored word it is non-zero exactly when one of them is the character |
| Calendar.MktimeOfLocaltime | src/kernel/time/time.c:89-154 | mktime undoes localtime for every stamp |
| Calendar.LocaltimeOfMktime | src/kernel/time/time.c:89-154 | localtime undoes mktime for every valid date from 1970 on |
| Calendar.LocaltimeValid | src/kernel/time/time.c:89-127 | localtime gives an existing date with the right day of the week and of the year, and the date is the one whose closed form in year, month and day is the day of the stamp |
| Calendar.LocaltimeTicks | src/kernel/time/time.c:89-127 | the dates of successive stamps follow each other as on a clock |
| Calendar.Epoch | src/kernel/time/time.c:89-127 | stamp 0 is Thursday, 1 January 1970 |
| Calendar.ElapsedIsCount | src/kernel/time/time.c:75-86 | the closed form counts the leap years since 1970 |
| Calendar.MktimeIsCount | src/kernel/time/time.c:55-154 | mktime and get_yday are the counts of days, for every date from 1970 on, and a closed form in year, month and day without a table of months |
| Calendar.DayIsCivil | src/kernel/time/time.c:31-45 | the count of days is the closed form, month lengths and month starts included |
| Calendar.MonthStarts | src/kernel/time/time.c:31-45 | the days before a month are (367 * month - 362) / 12, less one or two from March on, and a month is as long as the next start is later |
| Calendar.MktimeExactly | src/kernel/time/time.c:75-154 | for every year at all, mktime is the closed form if and only if the year is at least 1 or follows a leap year |
| Calendar.LocaltimeLoop | src/kernel/time/time.c:89-127 | the loops compute the modelled localtime, and the closed form of the date is the stamp |
| Calendar.MktimeLoop | src/kernel/time/time.c:129-154 | the loop computes in 32 bits the closed form in year, month, day and time of day |
| Calendar.StampsExactly | src/kernel/time/time.c:89-154 | in 32 bits localtime undoes mktime if and only if the date and time are no later than 7 February 2106, 06:28:15 |
| Calendar.FirstLost | src/kernel/time/time.c:89-154 | the second after that is taken for the start of 1970 |
| Calendar.GetYday | src/kernel/time/time.c:55-73 | the loop computes the day of the year by the closed form |

## Left out

- MAP_SHARED mappings are not modelled.
- MemoryManager.Memory.SysMmap: a range with a page that is shared, and not zero or made writable, is not modelled as a whole; what happens at that page is MmapPages.MapPresent and RefCounts.RemapRun.
- Kernel-mode writes to user pages, translation buffers and the page-directory register: writes in kernel mode do not fault here.
- The contents of a freed page table read as data, and map_page and map_area, which run before the first process.
- Unlimited widths: counts, sizes and virtual run times are mathematical integers except where the table above names a width; the bounds proved keep reference counts within eight bits.
- Calendar.MktimeLoop: the year product overflows an int from 2039 on, which C leaves undefined; the model wraps, as the machine does.
- Console.Driver.EditTimes: an argument from 2^31 on repeats as often as its unsigned value, which is what wrap-around arithmetic gives; the C language leaves it undefined.
- Buffers.Pool.GetFreeBuffer: the sleep on the wait list and the locks are not modelled, because calls run one after the other here.
- The buffer pool's hash table is a map from bucket numbers, so that the masked hash stays below the table size is not stated.
- MinixDisk.Disk.Read: character and block special files go to their drivers and are not modelled.
- The theorems on files assume that free zones hold zeros, which MinixSpace.NewTable shows to be needed; minix_bfree and truncate, which leave old bytes in them, are not modelled.
- MinixDisk.Disk.Write: on disks without a zone 0xFF9C the block that a full disk hands out lies outside the file system; what is read and written there is not modelled.
- MinixMount.WriteThroughWorks: the blocks of inodes and bitmaps are not in the modelled cache, only the zones, and other users come in between calls, not inside one.
- Minix directories, links, permissions and mounting, and the inode cache: they add many operations of the same kind.
- The memory that alloc_kpage and kmalloc clear is not modelled, only which addresses they hand out.
- KernelPages.FreeKpage: callers free ranges whose pages are marked, as the loop asserts.
- Elevator.BlockDevice.Request: the driver's work between start and completion, and its failure codes, are not modelled.
- Two readers or two writers on one pipe: the wake-up there relies on one of each.
- Sleeping tasks with timeouts, signals and the timer wheel.
- strcpy, strcat, strlcpy, strrchr and the memory routines: direct uses of strlen or of string instructions.
- Device drivers, network, ELF loading, shell and the C library: hardware, layout or thin wrappers.
