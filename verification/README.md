# uintOS kernel: verified model

uintOS is a small teaching kernel in C.  This project models its stateful cores in Dafny and
proves what they promise over all inputs, all runs and all interleavings.  `dafny verify
dfyconfig.toml` checks everything.

* **Scheduler** (`TaskQueues`, `SchedulerModel`, `SchedulerInvariant`, `SchedulerFairness`,
  `SchedulerSleep`, `SchedulerOrder`, `SchedulerExamples`, `Scheduler`, `LoadBalance`): 32 ring
  queues, an ordered sleep list, time slices and per-CPU balancing.  `SchedulerModel` gives each
  operation as a function on states; class `Schedulers.Scheduler` has the loops and in-place
  updates and is proved against it.
* **Synchronisation** (`Mutex`, `MutexTryLock`, `Semaphore`): step systems with one step per
  shared-memory access and one program counter per task.
* **Interrupt handlers** (`IrqTable`): the four-slot priority table of one vector.
* **FAT12** (`Fat12`, `FileContents`, `ShortNames`, `DirectoryListing`): reading files, 8.3 names,
  listing and looking up.  The field layout is that of the Microsoft FAT specification, section
  "FAT Data Structure".
* **ELF** (`ElfLoader`): mapping PT_LOAD segments, after chapter 5 ("Program Header") of the
  System V gABI.
* **IPC** (`Ipc`): rings of pointers into a heap that behave like bounded mailboxes.
* **Keyboard** (`Keyboard`): a ring with an interrupt handler between any two reader accesses.
* **Modules** (`Modules`, `ModuleCycles`): the registry, dependency resolution, cycles and the
  dependency-tree walk.
* **Preemption accounting** (`Preempt`): counters on each timer tick.

`Common` and `Rings` hold machine words, optional values, a fact about sequences and circular
buffers read as sequences.

What a caller must respect is written in predicates such as `SchedulerInvariant.Permitted`:
a task blocks or puts to sleep only itself while it runs, the idle task is not terminated, and
at most 256 tasks are alive.  Several lemmas named "...ExactlyWhen..." show that such a
condition cannot be dropped.

Where expectation and code part, the model follows the code:

* A waiting task may have to sit out the whole rest of a longer slice before its own level gets a
  turn, so k+1 slices of its own level are not always enough
  (`OwnSlicesEnoughExactlyWhenCurrentIsShort`, `OwnSlicesNotEnough`).  As long as the quantum,
  the mode and the priorities are what they were at the dispatch, only a more urgent task can hold
  such a slice, and in round-robin mode none.
* `scheduler_unblock_task` wakes a sleeper but leaves its entry in the list, and that entry ends a
  later, longer sleep early (`NoEarlyWakeExactlyWithoutEarlierEntry`, `WokenByStaleEntry`).
* `scheduler_block_current_task` leaves a task where `scheduler_unblock_task` cannot find it
  once another task runs (`BlockStrandsExactlyWithoutEntry`, `StrandedForever`, `BlockedForGood`).
* `mutex_try_lock` also fails on a free mutex whose spinlock is busy, although its comment speaks
  of another owner only (`TryLockFailsExactlyWhenRefused`, `FreeMutexRefused`).
* `module_unregister` does not look for dependents (`CarelessRemovalMakesCycle`,
  `RegisterKeepsAcyclicExactlyWhen`).
* The listing goes on after an end marker, in the next sector; lookups do not
  (`ListedButNotFound`).
* The FAT reader decodes entries that straddle two sectors from one sector and copies one
  sector per cluster (`DecodesExactlyWithinSector`, `RightForEveryDiskExactlyWhen`,
  `TwoClustersReadWrong`).
* The lookups find a listed file under its listed name, but `fat12_read_file` compares raw bytes:
  it reads the file only if its base is full and its extension is three dots, and can read another
  file instead (`ReadsItselfExactlyWithThreeDots`, `AliasIsReadInstead`).
* Sizes from 2^31 on come back wrong (`ListedSizeExactlyBelow2G`).
* The indents of the dependency tree outgrow their buffer on long chains
  (`IndentFitsExactlyWhenPathsShort`, `RegisteredChainDoesNotFit`).

## Model

| member | source | states |
|---|---|---|
| `SchedulerInvariant.EveryRunIsSafe` | kernel/scheduler.c:138-200 | After any permitted sequence of create, tick, yield, block, unblock, sleep, wake, terminate and setting calls from boot: two different slots of the 32 ready queues hold different tasks, every queued task is READY, only the current task is RUNNING and it is not queued, no ZOMBIE is queued, a task that was a ZOMBIE after any prefix of the run still is one and so was not dispatched again, and every READY task is queued exactly once, the idle task too once it has run after some prefix |
| `SchedulerInvariant.IdleAsideExactlyUntilItRuns` | kernel/scheduler.c:186-200 | In every permitted run from boot the idle task is READY without being in any queue or list exactly until it is dispatched for the first time |
| `SchedulerInvariant.RunKeepsQueued` | kernel/scheduler.c:138-156 | A task that is queued whenever it is READY, as every task is that has ever run, stays so over every permitted run |
| `SchedulerInvariant.RunInv` | kernel/scheduler.c:299-376 | Every permitted run keeps the whole invariant, including the ordered sleep list and the bound on live tasks |
| `SchedulerInvariant.ApplyInv` | kernel/scheduler.c:432-511 | One permitted operation with the scheduling decision it causes keeps the invariant |
| `SchedulerInvariant.ScheduleInv` | kernel/scheduler.c:299-376 | A scheduling decision keeps the invariant |
| `SchedulerInvariant.AtDecisionInv` | kernel/scheduler.c:310-321 | When the next task is chosen no task at all is RUNNING: the preempted one has been queued again |
| `SchedulerInvariant.RoomFor` | kernel/scheduler.c:138-156 | Pigeonhole: while at most 256 tasks are alive, a live task that is not queued always finds room, so the "queue full" branch is dead |
| `SchedulerInvariant.CreateLosesExactlyWhenFull` | kernel/scheduler.c:210-264 | A created task is lost exactly when its level already holds 256 entries, and never below 256 live tasks |
| `SchedulerInvariant.BlockBreaksExactlyWhenQueued` | kernel/scheduler.c:484-496 | Blocking the current task keeps queued tasks READY exactly when that task is not itself queued |
| `SchedulerInvariant.TerminateInv` | kernel/scheduler.c:897-932 | Terminating any task but the idle one keeps the invariant: the zombie leaves the queues |
| `SchedulerInvariant.ZombieForever` | kernel/scheduler.c:299-376 | A terminated task stays a ZOMBIE through every permitted run: no decision, wake-up or unblocking brings it back |
| `SchedulerInvariant.TerminatedIdleRunsExactlyWhenNothingElse` | kernel/scheduler.c:186-200 | A terminated idle task is dispatched by a decision exactly when nothing is queued, nothing is running and no blocked sleeper is due, which is why the runs above leave it alone |
| `SchedulerFairness.BoundedWaiting` | kernel/scheduler.c:299-376 | A task queued behind k others runs within k+1 decisions of any run in which nothing more urgent is queued at a decision |
| `SchedulerFairness.BoundedTicks` | kernel/scheduler.c:432-456 | The same task runs within max(1, rest of the current slice) + k * max(1, quantum/10 + 2*(31-p)) ticks, or k * max(1, quantum/10) in runs that stay in round-robin mode |
| `SchedulerFairness.BudgetIsTight` | kernel/scheduler.c:432-456 | In round-robin mode and in the others that bound is exact: before that many ticks the task has not run, when only the timer acts |
| `SchedulerFairness.OwnSlicesEnoughExactlyWhenCurrentIsShort` | kernel/scheduler.c:299-376 | A task queued behind k others runs, in any mode, within k+1 slices of its own level only if the rest of the current slice is no longer than one of them; with nothing more urgent queued at a decision that is also enough |
| `SchedulerExamples.OwnSlicesNotEnough` | kernel/scheduler.c:432-456 | A run from boot in which k+1 slices are not enough: a task alone at level 31, where a slice is one tick, has not run after 62 ticks |
| `SchedulerFairness.SliceEnds` | kernel/scheduler.c:432-456 | With a non-negative slice, max(1, slice) ticks on their own lead to exactly one decision |
| `SchedulerFairness.PreemptibleExactlyWhenSliceNonNegative` | kernel/scheduler.c:432-456 | Ticks can ever take the CPU from the current task exactly when its slice is not negative |
| `SchedulerFairness.OutOfRangePriorityNeverPreempted` | kernel/scheduler.c:210-264 | For every unsigned priority and quantum: creation stores the priority unclamped, and the new task, once dispatched, has a negative slice and is never preempted by ticks exactly when twice the excess over level 31 outweighs the base quantum by 1 to 2^31, or by that much over 2^32 |
| `SchedulerOrder.EqualTicksStayInArrivalOrder` | kernel/scheduler.c:514-651 | After every permitted run the sleep list is sorted, and its entries for any one tick are, in order, a subsequence of those there at the start followed by those the sleep calls of the run added |
| `SchedulerOrder.NoEntryLostBeforeItsTick` | kernel/scheduler.c:514-612 | Without wake-ups by id they are exactly those until the tick has come: none is lost |
| `SchedulerOrder.InsertArrives` | kernel/scheduler.c:514-550 | An insertion puts its entry last among those of its tick and leaves the other ticks alone |
| `SchedulerSleep.InsertPlace` | kernel/scheduler.c:514-550 | Ordered insertion puts an entry after all that wake no later and before all that wake later |
| `SchedulerSleep.ScanTakesPrefix` | kernel/scheduler.c:553-585 | On the sorted list the overdue entries are exactly a prefix |
| `SchedulerSleep.ScanWakesExactlyTheOverdue` | kernel/scheduler.c:553-585 | A scan removes exactly the overdue prefix, appends the tasks of it that are still blocked to their levels in wake order, each once, and changes no other task |
| `SchedulerSleep.NothingOverdueAfterDecision` | kernel/scheduler.c:310-321 | A decision leaves exactly the sleep entries that are not overdue |
| `SchedulerSleep.DecisionWakesOverdue` | kernel/scheduler.c:310-321 | After a decision no task whose time had come is still blocked |
| `SchedulerSleep.NoEarlyWake` | kernel/scheduler.c:553-585 | Over any permitted run a blocked task none of whose entries is due before a tick stays blocked until that tick, unless it is unblocked, woken or terminated by id |
| `SchedulerSleep.SleepsUntilExactlyWithoutEarlierEntry` | kernel/scheduler.c:588-612 | `scheduler_sleep` puts its caller to sleep until its tick exactly when at least a tick is asked for (or nothing is decided) and no earlier entry of the caller is left over |
| `SchedulerSleep.SleeperStaysAsleep` | kernel/scheduler.c:588-651 | From the call on: then no permitted run wakes the caller before its tick unless it is named by id |
| `SchedulerSleep.EarlierEntryWakes` | kernel/scheduler.c:499-585 | An earlier entry left over by an unblocked sleep wakes the caller early, at the tick of that entry, in a run that never names it |
| `SchedulerSleep.NoEarlyWakeExactlyWithoutEarlierEntry` | kernel/scheduler.c:499-612 | No run that does not name the sleeper wakes it early exactly when it had no earlier entry when it called |
| `SchedulerExamples.WokenByStaleEntry` | kernel/scheduler.c:499-511 | A run from boot: sleep, be unblocked, run, sleep for 100 ticks, and be woken after one by the entry of the first sleep |
| `SchedulerSleep.UnblockWorksOnlyWhenFindable` | kernel/scheduler.c:499-511 | Unblocking a blocked task takes effect exactly while it is still the current task or has a sleep entry |
| `SchedulerSleep.StrandedForever` | kernel/scheduler.c:773-803 | A blocked task that is neither current nor in the sleep list never runs again in any permitted run: the search by id does not reach it |
| `SchedulerSleep.BlockStrandsExactlyWithoutEntry` | kernel/scheduler.c:484-496 | With another idle task registered, blocking puts the caller into that position exactly when it has no sleep entry |
| `SchedulerExamples.BlockedForGood` | kernel/scheduler.c:484-511 | A run from boot: the first task blocks itself, and no further run of permitted calls ever brings it back |
| `TaskQueues.TaskQueue.Push` | kernel/scheduler.c:138-156 | Appends to the ring, or reports that 256 entries are there; tail stays (head + count) mod 256 |
| `TaskQueues.TaskQueue.PopFront` | kernel/scheduler.c:186-200 | Takes the oldest entry |
| `TaskQueues.TaskQueue.Remove` | kernel/scheduler.c:159-183 | Deletes exactly the first entry of the task, across wrap-around, and keeps the order of the rest |
| `TaskQueues.TaskQueue.Find` | kernel/scheduler.c:164-168 | The position of the first entry of the task, if any |
| `TaskQueues.TaskQueue.Shift` | kernel/scheduler.c:169-174 | Closes the gap by moving every later entry one slot back around the ring |
| `Schedulers.Scheduler.constructor` | kernel/scheduler.c:83-110 | Builds the empty scheduler of the model |
| `Schedulers.Scheduler.AddTask` | kernel/scheduler.c:138-156 | Does what the model says of `scheduler_add_task` on the ring of the clamped level |
| `Schedulers.Scheduler.RemoveFromReadyQueue` | kernel/scheduler.c:159-183 | Removes the first entry in the first level that has one |
| `Schedulers.Scheduler.GetNextTask` | kernel/scheduler.c:186-200 | Takes the head of the lowest-numbered non-empty level, or returns the idle task and changes nothing |
| `Schedulers.Scheduler.FindTask` | kernel/scheduler.c:773-803 | Finds exactly the current, the queued and the sleeping tasks |
| `Schedulers.Scheduler.AddSleepingTask` | kernel/scheduler.c:514-550 | Ordered insertion into the sleep list, in place; without memory nothing changes and the task is not blocked |
| `Schedulers.Scheduler.CheckSleepingTasks` | kernel/scheduler.c:553-585 | The in-place scan equals the scan of the model |
| `Schedulers.Scheduler.Schedule` | kernel/scheduler.c:299-376 | The decision of the model |
| `Schedulers.Scheduler.Dispatch` | kernel/scheduler.c:329-363 | The chosen task becomes the running one with a fresh slice |
| `Schedulers.Scheduler.Create` | kernel/scheduler.c:210-264 | Creation as in the model, the new id being the next one; -1 without memory, where a missing stack still uses up the id |
| `Schedulers.Scheduler.Tick` | kernel/scheduler.c:432-456 | A tick as in the model |
| `Schedulers.Scheduler.Yield` | kernel/scheduler.c:477-481 | Decides only with preemption on |
| `Schedulers.Scheduler.BlockCurrent` | kernel/scheduler.c:484-496 | Blocks the current task, then decides |
| `Schedulers.Scheduler.Unblock` | kernel/scheduler.c:499-511 | Queues a blocked task that can be found |
| `Schedulers.Scheduler.Sleep` | kernel/scheduler.c:588-612 | Sleeps the current task; zero milliseconds, or no memory for the entry, only yield; error without a current task |
| `Schedulers.Scheduler.Wake` | kernel/scheduler.c:615-651 | Removes the first sleep entry of the task and queues it if blocked; error without an entry |
| `Schedulers.Scheduler.Terminate` | kernel/scheduler.c:897-932 | Marks, dequeues and, for the current task, decides; error if the task is not found |
| `Schedulers.Scheduler.SetPriority` | kernel/scheduler.c:876-894 | Clamps and stores the priority without moving a queued task |
| `Schedulers.Scheduler.SetPreemption` | kernel/scheduler.c:459-468 | Switches preemption |
| `Schedulers.Scheduler.SetQuantum` | kernel/scheduler.c:1008-1010 | Stores the quantum |
| `Schedulers.Scheduler.SetAlgorithm` | kernel/scheduler.c:970-993 | Accepts the four algorithms and nothing else |
| `LoadBalance.BalanceConserves` | kernel/scheduler.c:379-429 | Balancing keeps the multiset of tasks; each migration lowers the sum of squared queue lengths by at least 4 |
| `LoadBalance.MigrationEnds` | kernel/scheduler.c:404-428 | When a task migrates both CPUs are active, lengths differ by at least 3 and the target has room: the put-back branch is dead |
| `LoadBalance.RestExactlyWhenBalanced` | kernel/scheduler.c:379-429 | Nothing moves exactly when active CPUs differ by at most 2 |
| `LoadBalance.IterateConserves` | kernel/scheduler.c:379-429 | Any number of balancing calls keeps the multiset of tasks |
| `LoadBalance.BalancingSettles` | kernel/scheduler.c:379-429 | Repeated balancing is balanced after at most a quarter of the sum of squares calls and never moves anything again |
| `LoadBalance.CpuQueues.LoadBalance` | kernel/scheduler.c:379-429 | The in-place call is one balancing step |
| `LoadBalance.CpuQueues.FindExtremes` | kernel/scheduler.c:382-402 | The loop finds the busiest and the idlest active CPU |
| `Mutex.MutualExclusion` | kernel/sync.c:91-201 | Under every interleaving of the single memory accesses of lock, try_lock and unlock: at most one task holds the mutex, owner_task names it, and between its calls lock_count is its nesting depth |
| `Mutex.NextInv` | kernel/sync.c:91-201 | Every single access by any task keeps the invariant behind that, despite the unprotected owner check and increment |
| `Mutex.RunInv` | kernel/sync.c:91-201 | So does every run |
| `Mutex.RefinesAtomicLock` | kernel/sync.c:91-201 | Every access is invisible to callers or is one atomic acquisition or release by the acting task |
| `Mutex.EveryRunLinearises` | kernel/sync.c:91-201 | The acquisitions and releases of any run, in the order they take effect, are a legal history of an atomic re-entrant lock |
| `Mutex.OneEffectPerCall` | kernel/sync.c:91-201 | Between its begin and its return, whatever others do: a lock takes effect exactly once, a try_lock exactly once if it succeeds and else never, an unlock exactly once if its caller owns the mutex and else never |
| `Mutex.ForeignUnlockLeavesNoTrace` | kernel/sync.c:174-201 | An unlock by a task that does not own the mutex, with any events of others between its begin and its access, ends in the state reached without it |
| `MutexTryLock.TryLockFailsExactlyWhenRefused` | kernel/sync.c:134-167 | Whatever others do meanwhile, a try_lock fails exactly when it finds the spinlock taken or, holding it, another owner |
| `MutexTryLock.FreeMutexRefusedOnlyInPassing` | kernel/sync.c:149-152 | In every run, a try_lock that finds the spinlock of a free mutex taken does so because another task is just passing through lock, try_lock or unlock |
| `MutexTryLock.TryLockAloneSucceedsExactlyWhen` | kernel/sync.c:134-167 | Undisturbed, a try_lock returns after at most six accesses and succeeds exactly when its caller owns the mutex or both mutex and spinlock are free |
| `MutexTryLock.FreeMutexRefused` | kernel/sync.c:149-152 | A run from the start in which a try_lock fails on a mutex that nobody owns |
| `Semaphore.PermitsBalance` | kernel/sync.c:210-296 | Under every interleaving 0 <= count <= max; completed waits never exceed initial plus signals begun; with no wait returning, count + waits = initial + effective signals; at rest the difference is exactly the lost signals |
| `Semaphore.NextInv` | kernel/sync.c:223-296 | Every single access keeps the accounts |
| `Semaphore.RunInv` | kernel/sync.c:223-296 | So does every run |
| `Semaphore.LossNeedsFull` | kernel/sync.c:280-296 | A run that loses a signal passes through a state with the count at its maximum |
| `Semaphore.NeverFullNothingLost` | kernel/sync.c:210-296 | A semaphore that was never at its maximum has lost no signal, and at rest its permits balance against all signals |
| `IrqTable.TopFour` | kernel/irq.c:1039-1088 | After any registrations the table is the first four entries of the stable priority sort of the whole history |
| `IrqTable.SortIsStable` | kernel/irq.c:1039-1088 | The sort used there is ordered and keeps, at every priority, the order of registration |
| `IrqTable.StableSortUnique` | kernel/irq.c:1039-1088 | There is only one such sort |
| `IrqTable.RegisterSelects` | kernel/irq.c:1039-1088 | One registration keeps the four most urgent of the old entries and the new one, without gaps |
| `IrqTable.NullOpensGapExactlyWhenUrgent` | kernel/irq.c:1049-1074 | Registering NULL leaves a gap exactly when one of the first three handlers is less urgent |
| `IrqTable.UnregisterRemovesFirst` | kernel/irq.c:1099-1120 | Unregistering removes the first entry with that handler and keeps the order of the rest |
| `IrqTable.RunInv` | kernel/irq.c:1039-1136 | Any mix of registering and unregistering keeps the table ordered and gap-free, and the interrupt enabled exactly while a handler is registered |
| `IrqTable.Vector.Register` | kernel/irq.c:1039-1088 | The in-place registration |
| `IrqTable.Vector.Unregister` | kernel/irq.c:1093-1136 | The in-place removal |
| `IrqTable.Vector.Dispatch` | kernel/irq.c:1402-1426 | The handlers called are a prefix of the table ending at the first that handles, or all of it |
| `Fat12.ReadFile` | filesystem/fat12.c:170-235 | Returns -1 and leaves the buffer alone if the name is not found; else copies exactly the first min(file size, size, 512 * chain length) bytes of the chain, and no byte after them changes |
| `Fat12.FindEntry` | filesystem/fat12.c:175-187 | Finds the first live entry of that name before the end marker |
| `Fat12.CopyChain` | filesystem/fat12.c:192-228 | The copy loop, which ends even on a cyclic chain |
| `Fat12.DecodesExactlyWithinSector` | filesystem/fat12.c:216-225 | The reader decodes entry c as the 12-bit little-endian field at bit 12c, whatever follows its buffer, exactly when the entry does not straddle two sectors |
| `Fat12.FieldIsDecoded` | filesystem/fat12.c:221-225 | The shift-and-mask arithmetic on two bytes equals the nibble definition of the field |
| `FileContents.RightForEveryDiskExactlyWhen` | filesystem/fat12.c:195-211 | For any layout and cluster chain, what the reader copies is the start of the file, to full length and whatever the sectors hold, exactly when clusters are one sector long or at most 512 bytes are wanted |
| `FileContents.SomeDiskWithThisChainFails` | filesystem/fat12.c:195-211 | Otherwise every disk whose table gives a non-empty chain and lies outside that sector is itself read wrong, or is so after changing one byte of the second sector of the file, which leaves the chain as it is |
| `FileContents.TwoClustersReadWrong` | filesystem/fat12.c:195-211 | A floppy with two sectors per cluster whose table gives the chain 2, 3: every read of more than 512 bytes is wrong |
| `FileContents.SameForEveryDisk` | filesystem/fat12.c:195-211 | Two lists of sectors read alike up to a length on every disk exactly when equally many bytes come back and the numbers of the sectors touched agree |
| `FileContents.ChainsAgree` | filesystem/fat12.c:195-226 | The reader follows the chain the table defines as far as no entry but the last straddles two sectors |
| `FileContents.ReadIsPrefixOfFile` | filesystem/fat12.c:192-228 | With one sector per cluster, or at most 512 bytes wanted, and no followed entry straddling, the bytes copied are the first bytes of the file the table describes |
| `ShortNames.RoundTripExactlyWhenCanonical` | filesystem/fat12.c:250-302 | Converting a listed name back gives the same 11 bytes exactly when base and extension are space-padded words without NUL and, in the base, without dot |
| `ShortNames.CanonicalRoundTrip` | filesystem/fat12.c:250-302 | The round trip for those names |
| `ShortNames.ParseName` | filesystem/fat12.c:306-333 | The conversion loops build the 11-byte name a C string stands for |
| `ShortNames.ListName` | filesystem/fat12.c:270-282 | The listing loops build the NAME.EXT form |
| `DirectoryListing.EveryListedFileIsFound` | filesystem/fat12.c:238-372 | With unique canonical names and nothing live after the end marker, every listed file is found again, as the same entry, under its listed name |
| `DirectoryListing.ListedSizeExactlyBelow2G` | filesystem/fat12.c:375-442 | There it exists, and its size is answered as listed exactly below 2^31 bytes; 2^32 - 1 is answered like a missing file |
| `DirectoryListing.ListedNameMatchesExactlyAlias` | filesystem/fat12.c:175-187 | Compared as raw bytes, the listed form of one canonical name matches another exactly when its base is full, its extension has two characters or more, and the other is its first eight characters, the dot and the first two of the extension |
| `DirectoryListing.ListedNameReadsAlias` | filesystem/fat12.c:170-187 | So in any directory of canonical names `fat12_read_file` under a listed name finds exactly what a lookup of that alias finds, and nothing if there is no alias |
| `DirectoryListing.ReadsItselfExactlyWithThreeDots` | filesystem/fat12.c:170-187 | With unique names a file that lookups find is read under its own listed name exactly when its base is full and its extension is three dots |
| `DirectoryListing.AliasIsReadInstead` | filesystem/fat12.c:170-187 | A file whose name is the alias of another is read in its place |
| `DirectoryListing.FoundExactlyWhenBeforeEnd` | filesystem/fat12.c:305-372 | A live entry is found under its listed name exactly when no end marker precedes it |
| `DirectoryListing.ListedButNotFound` | filesystem/fat12.c:238-302 | Without that condition it fails: an end marker ends its sector for the listing but the directory for a lookup |
| `DirectoryListing.ListDirectory` | filesystem/fat12.c:238-302 | Which files are shown, in order, with name, attributes, size, cluster and dates, and the result code, for every path argument |
| `DirectoryListing.ListEntry` | filesystem/fat12.c:262-296 | The shown form of one entry |
| `DirectoryListing.GetFileSize` | filesystem/fat12.c:375-442 | The size of the first match, or not-found or I/O error |
| `DirectoryListing.FileExists` | filesystem/fat12.c:305-372 | 1 exactly for a match, else 0 or I/O error |
| `ElfLoader.EveryByte` | kernel/elf_loader.c:223-269 | After loading, every address holds the byte of the last PT_LOAD segment covering it (file byte, then zeros), or what it held before |
| `ElfLoader.IntactExactlyWhenAgreeing` | kernel/elf_loader.c:223-269 | All segments read back in full exactly when overlapping ones want the same bytes |
| `ElfLoader.DisjointSegmentsIntact` | kernel/elf_loader.c:223-269 | So disjoint segments always do |
| `ElfLoader.BiasShiftsImage` | kernel/elf_loader.c:208-269 | The image loaded with a bias is the unbiased image moved by it |
| `ElfLoader.BelowBiasUntouched` | kernel/elf_loader.c:226-269 | Nothing below the bias is written |
| `ElfLoader.RangeHoldsExactlyWhenNoWrap` | kernel/elf_loader.c:176-202 | The page-rounded range contains every segment exactly when rounding the end up does not wrap, and is then the tightest of whole pages |
| `ElfLoader.NothingToLoadTakesOnePage` | kernel/elf_loader.c:176-202 | A file without PT_LOAD is accounted one page |
| `ElfLoader.Process.MapSegments` | kernel/elf_loader.c:167-269 | Both passes in place: memory, total_memory, is_pie and load_bias |
| `ElfLoader.Process.Bounds` | kernel/elf_loader.c:176-192 | The first pass finds the lowest start and highest end |
| `ElfLoader.Process.LoadSegment` | kernel/elf_loader.c:226-269 | Bias, copy and zero-fill of one segment |
| `IpcRefinement.EveryRunIsMailboxes` | kernel/ipc.c:25-314 | From start-up every run of calls answers exactly as 256 first-in-first-out mailboxes of 32 messages; the 32-bit counters account for every message: sent + carried over a reset = received + flushed + queued |
| `IpcRefinement.SentArrives` | kernel/ipc.c:53-197 | From start-up, with any calls by others in between: an accepted message is handed over in its turn, unless its queue is flushed, with the header and bytes it was sent with; the rest of the receiver's buffer is untouched |
| `IpcRefinement.CallRefines` | kernel/ipc.c:53-314 | Every single call keeps that correspondence and gives the same answer |
| `IpcRefinement.RunConserves` | kernel/ipc.c:53-314 | Conservation over any run |
| `IpcModel.EnqueueInv` | kernel/ipc.c:94-98 | Sending keeps: occupied slots are exactly the non-null ones, no message is in two slots, the heap holds exactly the messages in slots |
| `IpcModel.EnqueuePending` | kernel/ipc.c:94-98 | Sending appends to one queue and leaves the others alone |
| `IpcModel.DropInv` | kernel/ipc.c:165-191 | Receiving keeps the same |
| `IpcModel.DropPending` | kernel/ipc.c:165-191 | Receiving takes the oldest message of one queue and leaves the others alone |
| `IpcModel.DropManyPending` | kernel/ipc.c:295-304 | Freeing the first n messages of a queue leaves the rest in order |
| `IpcModel.RestartInv` | kernel/ipc.c:306-309 | Resetting the indices of an emptied queue is harmless |
| `Ipc.MessageQueues.constructor` | kernel/ipc.c:25-41 | Empty queues |
| `Ipc.MessageQueues.Send` | kernel/ipc.c:53-115 | The call, with its four error cases |
| `Ipc.MessageQueues.Receive` | kernel/ipc.c:124-197 | The non-blocking call |
| `Ipc.MessageQueues.Peek` | kernel/ipc.c:206-241 | Hands over the oldest message and changes nothing |
| `Ipc.MessageQueues.Flush` | kernel/ipc.c:282-314 | Empties the queue and returns exactly how many messages were pending |
| `Ipc.MessageQueues.ResetStatistics` | kernel/ipc.c:272-274 | Clears the counters only |
| `Keyboard.KeysArriveInOrder` | kernel/keyboard.c:86-129 | With the handler firing between any two reader accesses: returned keys, the key in hand and the ring make up the accepted keys in order; a press is dropped exactly when 127 are waiting; a read comes back empty only if nothing was pending when it looked; buffer_full is never set |
| `Keyboard.StepInv` | kernel/keyboard.c:86-129 | Every access of reader or handler keeps the invariant behind that |
| `Keyboard.RoomExactlyBelow127` | kernel/keyboard.c:86-96 | The handler finds room exactly below 127 waiting keys |
| `Keyboard.SlotBeingReadIsSafe` | kernel/keyboard.c:121-129 | The handler never writes the slot the reader has in hand |
| `Keyboard.EveryPressRecorded` | kernel/keyboard.c:86-96 | Every press of a run is either stored or dropped, in order |
| `ModuleRegistry.EveryCarefulRunIsAcyclic` | kernel/module.c:69-240 | In every run that unregisters only modules no other names, each dependency is met, in version and status, by an earlier module, and no chain of dependencies is a cycle |
| `ModuleRegistry.DependenciesPointDown` | kernel/module.c:69-147 | In a run that only registers, every dependency resolves to a lower slot |
| `ModuleRegistry.RegisterInv` | kernel/module.c:69-147 | Registering keeps names distinct and dependencies resolved, and reports no room exactly when 64 modules are there: the last branch is dead |
| `ModuleRegistry.UnregisterSafeExactlyWhenUnneeded` | kernel/module.c:152-240 | Unregistering keeps all dependencies resolved exactly when no other module names the one removed |
| `ModuleRegistry.CarelessRemovalMakesCycle` | kernel/module.c:152-240 | Otherwise a replacement of the same name can close a cycle of two |
| `ModuleRegistry.FailedHasNoDependents` | kernel/module.c:106-127 | A module whose init failed stays registered but never gets a dependent |
| `ModuleRegistry.PathsGoBack` | kernel/module.c:549-594 | Registration times strictly fall along dependency paths |
| `DependencyTree.TreeIsAllPaths` | kernel/module.c:775-808 | The printed tree lists exactly the ends of the dependency paths from its root, each as deep as its path is long |
| `DependencyTree.NothingMissing` | kernel/module.c:775-808 | With all dependencies resolved nothing is printed as not loaded |
| `DependencyTree.ResolvedIsGrounded` | kernel/module.c:775-808 | With all dependencies resolved every call of the walk goes to an earlier module, which is what its termination needs |
| `DependencyTree.DepthBounded` | kernel/module.c:775-808 | No line is deeper than its root has predecessors |
| `DependencyTree.IndentFitsExactlyWhenPathsShort` | kernel/module.c:775-808 | Every indent fits the 64-byte buffer with its NUL exactly when no dependency path from the root has more than 32 modules |
| `DependencyTree.EarlyRootsFit` | kernel/module.c:775-808 | So it fits from each of the first 32 modules registered |
| `DependencyTree.LongChainDoesNotFit` | kernel/module.c:775-808 | And does not from the end of a chain of more than 32 |
| `ModuleCycles.RegisteredChainDoesNotFit` | kernel/module.c:69-147 | Registering a chain of 33 to 64 modules from start-up succeeds, and the tree of the last does not fit |
| `ModuleCycles.RegisterKeepsAcyclicExactlyWhen` | kernel/module.c:69-147 | `module_register` keeps an acyclic dependency graph acyclic exactly when it refuses the module or no module that its dependencies lead to names it |
| `ModuleCycles.RegistrationClosesCycleExactlyWhenNamed` | kernel/module.c:69-147 | The same of the slots, for any admissible new entry |
| `ModuleCycles.UnregisterKeepsAcyclic` | kernel/module.c:152-240 | Unregistering never closes a cycle |
| `Modules.ModuleSystem.constructor` | kernel/module.c:41-58 | The empty registry |
| `Modules.ModuleSystem.FindByName` | kernel/module.c:429-441 | The first slot with the name |
| `Modules.ModuleSystem.CheckDependencies` | kernel/module.c:549-594 | True exactly when every dependency is provided |
| `Modules.ModuleSystem.Register` | kernel/module.c:69-147 | The call with its error codes, in the order of its checks |
| `Modules.ModuleSystem.Unregister` | kernel/module.c:152-240 | The call, for a registered module or any other; essential modules are refused, unknown ones reported |
| `Modules.ModuleSystem.PrintTree` | kernel/module.c:775-808 | The recursive walk terminates, with registration time as measure, and prints that tree |
| `Preemption.StatisticsTellHistory` | kernel/preempt.c:96-194 | Under any mix of ticks, enable, disable and reset the statistics equal the tick history since the last reset: all ticks, disabled ticks, trailing disabled stretch and longest one, each to its counter width |
| `Preemption.LongestStretchIsReal` | kernel/preempt.c:176-194 | The recorded longest stretch happened, and none was longer unless 32 bits could not tell |
| `Preemption.NoStretchLonger` | kernel/preempt.c:183-194 | No unbroken stretch of disabled ticks anywhere in the history is longer than the recursive maximum |
| `Preemption.LongestAfterOff` | kernel/preempt.c:183-194 | A wrapping current counter cannot spoil the recorded maximum |
| `Preemption.Timer.Interrupt` | kernel/preempt.c:176-194 | The accounting of one tick |
| `Preemption.Timer.EnablePreemption` | kernel/preempt.c:96-100 | Changes the flag only |
| `Preemption.Timer.DisablePreemption` | kernel/preempt.c:105-109 | Changes the flag only |
| `Preemption.Timer.ResetStatistics` | kernel/preempt.c:148-155 | Clears the statistics but not the tick count or the flag |

## Left out

- ReadIsPrefixOfFile: for cluster sizes the FAT specification allows (1, 2, 4 up to 128 sectors) and entries that do not straddle; when the reader errs otherwise is stated by `RightForEveryDiskExactlyWhen` and `DecodesExactlyWithinSector`.
- Fat12: a read beyond the disk is modelled as leaving the sector buffer as it was; the unit is one such buffer, with `beyond` the byte after it.
- DirectoryListing: name bytes are unsigned; with a signed `char` the comparisons with 0xE5 never hold and deleted entries count as live.
- Schedulers.Scheduler.Create: names, stacks and parents; the runs of `SchedulerInvariant` have no creation that fails for lack of memory.
- Schedulers.Scheduler.Terminate: parents waiting in `scheduler_waitpid`, which the search by id does not reach once they have been switched away from; the waiting list is taken to be empty.
- SchedulerModel: tick and switch counters are unbounded; 64-bit wrap-around of the tick count is not modelled. The scheduler runs on CPU 0 only, as `scheduler_get_current_cpu` says.
- LoadBalance: the local queues are modelled for balancing only, since dispatch never reads them; `scheduler_migrate_task` is left out for the same reason, and the counter that spaces the balancing calls is not modelled.
- Mutex: `lock_count` is unbounded, so overflow after 2^31 nested acquisitions is not modelled; spinning steps are steps that change nothing.
- Semaphore: a waiter that finds no permit retries; fairness between waiters is not promised by the code and not stated.
- Condition variables, kernel threads, suspend and resume, and blocking a task other than the current one: they change task states without touching the queues.
- IrqTable: one object per vector; statistics, masking hardware, end-of-interrupt signals and the spurious handler.
- IpcModel: the blocking receive loop; the lock around each call makes calls atomic here. A NULL data pointer with a positive size leaves the stale bytes of the new block in the message, as in the code.
- Keyboard: scan-code translation and modifier keys; the model starts from the character to store, and the reader compares the indices by reading `buffer_head` first.
- ElfLoader.Process.MapSegments: requires addresses that do not wrap at 2^64, biased or not. The file is a byte for every offset, so that what lies behind its end is whatever memory holds there; it is taken not to overlap the memory that is loaded.
- ElfLoader: page permissions, text, data and BSS bookkeeping, the stack and the interpreter path. Mapping pages does not change byte contents.
- ModuleRegistry: calls before `module_system_init` and with NULL, which only return an error; module file loading, symbols, drivers, enabling and disabling, ids wrapping at 32 bits; callbacks do not touch the registry.
- Modules.ModuleSystem.PrintTree: prints lines with their depth; the indent buffer is not a variable of the model, and when it suffices is stated by `IndentFitsExactlyWhenPathsShort`.
- Preemption: involuntary and voluntary switch counters, which need the scheduler's answer.
- Drivers, paging, virtual memory, the network stack, the shell and the other file systems: hardware access or easy bookkeeping.
