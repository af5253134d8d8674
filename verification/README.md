# Verified models of the operating-systems projects

A Dafny model of the algorithms in seven course projects, with proofs of what
each is for. Arrays, records and queues that the programs update in place are
arrays and classes here; each method is proved against values, and the theorems
are about those values. `dafny verify dfyconfig.toml` checks everything.

| project | modules |
|---|---|
| page replacement (`CSE4300/Shahariar-project`) | `DemandPaging` (schedules, Belady), `QueuePolicies` (FIFO and LRU as queues, competitive bound, stack property), `MarkedFrames` (frames in which -1 marks an empty one), `PageSimulators`, `QueueSimulators` (the four simulators over frame arrays) |
| demand-paged memory (`CSE4300/alex`) | `VirtualMemory` (state machine, refinement of flat memory), `SecondChance` (reference bits, whom CLOCK takes and spares), `VirtualAddresses` (translation), `FaithfulMemory` (what answers can tell), `NamedBytes` (the same at any page size), `MemoryManager` (the class over flat byte arrays) |
| single-CPU SRTF (`CSE4300/mukunda-eli`) | `SrtfOptimality`, `SrtfSimulator` |
| shortest job first (`CSE5305/xinyi-priya-zion-nick`) | `ShortestJobFirst` |
| multicore tick simulator (`CSE4300/josh-alex-zach-viraj`) | `LinkedQueue` (the intrusive list), `MulticoreState` (where threads are, time accounts), `MulticoreDispatch` (selection and preemption), `RoundRobin` and `MulticoreRoundRobin` (starvation bound), `MulticoreStamps` (start times and labels through a dispatch), `MulticoreRuns` (what policies promise, whole runs), `MulticoreEnds` (how a run ends), `MulticoreHistory` (runs with interrupts), `MulticoreTimes` (whom dispatches prefer, response times and labels over runs), `MulticoreWaits` (I/O and aging over runs), `MulticorePriority` (negative priorities), `MulticoreSimulator` (the class) |
| Windows-like and CFS-like schedulers (`CSE4300/Krish-Zohaib_Lyles`) | `ArrivalOrder`, `Timeline` (chart and books), `MinHeap`, `FairShare` (fairness bound), `FairBooks`, `FairHistory` (admissions, dispatches and idle time over runs), `FairSimulator`, `PriorityBooks`, `PriorityHistory` (levels, order of service and slices over runs), `PrioritySimulator` |
| concurrent worker pool (`CSE4300/bereket`) | `Rotation`, `RoundRobinPolicy`, `WorkerPool` (the steps), `WorkerPoolSafety` (every interleaving), `WorkerPoolClocks` (arrivals, first dispatches and core times), `WorkerPoolTimes` (turnaround against burst), `WorkerPoolRegions` (the locked regions as methods) |
| shared | `Distinctness` (sequences without repetition, sizes of sets), `Arithmetic` |

## What turned out false, and exactly when it holds

- A deleted page's bytes can come back. Deleting a resident page wipes its frame
  but leaves its disk slice. With a power-of-two page size and more pages than
  frames, an operation on a good state leaves all later answers right if and
  only if it is not a delete of a resident page with a non-blank disk slice
  (`StaysFaithfulIff`). At other page sizes two addresses can share a cell, and
  only the bytes that have an address count (`StaysQuietlyFaithfulIff`). These
  are statements about every continuation, not about one, as reallocating and
  overwriting the page makes the state good again. A new memory answers every
  run as flat memory does if and only if it has a frame for every page
  (`AlwaysFaithfulIff`, for every page size). The wrong run: write to page 0,
  allocate and read others until it is swapped out, read and delete it, allocate
  it again, have it swapped out again, and read it.
- Page numbers of -1 are taken for empty frames. FIFO and random replacement are
  right for every prefix of the references if and only if each -1 comes after as
  many distinct other pages as there are frames, that is, once all frames have
  been filled; before that a -1 counts as a hit, and the count is below every
  schedule's (`SimulateFifo`, `SimulateRandom`, `LateMarkersIff`). LRU and MIN
  then follow some schedule, but refill the frame holding -1 first; they are right
  when no reference is -1, and with more frames than distinct pages only then.
- Translation is injective on non-negative addresses if and only if the page
  size is a power of two; a negative address is rejected if and only if it is at
  most minus the page size, and otherwise aliases page 0.
- SRTF loops forever if and only if some burst is at most 0 or at least INT_MAX,
  which no selection ever picks (`NeverEnds`; with other bursts `Srtf` ends).
- The multicore loop ends at the first tick that leaves nothing ready, waiting or
  running, even if a thread is due at that very moment (`EndsAtAnArrival`),
  although the comment at `CSE4300/josh-alex-zach-viraj/sim.c:347` says that all
  threads have been moved to the finished queue. On one core, under every policy
  and without interrupts, everybody finishes if and only if for every tick up to
  the last arrival the bursts of those who arrived before it add up to more than
  the ticks passed; on several cores that is necessary, and it is sufficient that
  they add up to more than all cores can have done (`Run`, `WhoFinishesAtAll`).
  Which tick drains is told exactly by `LastTickIff`.
- `DOCUMENTATION.md` of that project promises preemption of a running thread with a
  worse priority. The code searches from -1, so running threads with negative
  priorities are never victims. The promise fails at a dispatch if and only if a
  core runs a negative priority and more ready threads are better than there are
  cores idle or running priorities from 0 up (`OutrankedIff`); in runs whose
  priorities start non-negative it never does (`NobodyOutranksRunning`).
- The design overview of the Windows-like scheduler says that a task that waited too
  long is nudged upward. The code looks at the wait only when the task is picked, so
  a task's level never changes while it is queued (`QueuedStaysAtLevel`) and the
  lift shows only when its slice expires: it then queues at its old level instead
  of the one below (`PickStarts`, `SliceEndDrops`).
- The worker pool's round robin serves jobs in the order they became ready if and
  only if the rotation is a prefix of the ready queue. From the empty state this
  holds throughout a run if and only if no job is requeued when somebody has
  arrived since the last service (`InOrderThroughoutIff`).
- A preempted job's turnaround in the worker pool can be below its burst. Over all
  interleavings it is at least the burst, to within the 0.001 to which the code
  rounds remaining time, if and only if the policy runs to completion, there is
  at most one worker, or the burst fits one quantum (`NeverShortIff`).

## What stands for what

- Times and counters are unbounded integers; floating-point times and virtual
  runtimes are reals. Random draws, interrupts, and what a thread reads without
  the mutex are arbitrary parameters. A process's `nice` value enters as its
  positive weight.
- A region under the queue mutex is one atomic step. The flag may be cleared at
  any time after the scheduler's break, and a worker may leave at any time after
  that.
- Threads in the multicore queues are indices into the thread table; the linked
  representation of such a queue is proved separately in `LinkedQueue`.
- Preconditions are what the programs need to be defined at all: at least one
  frame, a page size of at least 1, at least one core, at most 64 processes in
  the fixed heap arrays, bursts the input prompts accept or that occur in the
  work list, distinct job ids.

## Model

| member | source | states |
|---|---|---|
| `DemandPaging.FarthestIsOptimal` | CSE4300/Shahariar-project/page_replacement.c:213-244 | Belady's theorem: a schedule that always evicts the page used farthest in the future faults no more often than any schedule with the same number of frames |
| `DemandPaging.FarthestIsMinimum` | CSE4300/Shahariar-project/page_replacement.c:176-251 | the faults of a farthest-first schedule are attained and are a lower bound over all demand-paging schedules |
| `DemandPaging.EveryPageMissesOnce` | CSE4300/Shahariar-project/page_replacement.c:43-54 | no schedule has fewer faults than there are distinct pages referenced |
| `PageSimulators.InitFrames` | CSE4300/Shahariar-project/page_replacement.c:7-12 | a fresh array in which every frame is empty |
| `PageSimulators.FindPage` | CSE4300/Shahariar-project/page_replacement.c:15-23 | the first frame holding the page, and -1 exactly when no frame does |
| `PageSimulators.FindNextUse` | CSE4300/Shahariar-project/page_replacement.c:219-226 | the next reference to a page, -1 exactly when there is none |
| `PageSimulators.FarthestFrame` | CSE4300/Shahariar-project/page_replacement.c:213-242 | a frame whose page is used no earlier than that of any other frame, with never-used-again counting as latest |
| `PageSimulators.MinReplace` | CSE4300/Shahariar-project/page_replacement.c:198-245 | a free frame if there is one, else the farthest page's, now holds the page; other frames are unchanged |
| `MarkedFrames.LateMarkersIff` | CSE4300/Shahariar-project/page_replacement.c:7-23 | every -1 comes after as many distinct pages as there are frames if and only if no prefix of the references has a -1 and fewer real pages than frames |
| `PageSimulators.SimulateMin` | CSE4300/Shahariar-project/page_replacement.c:176-251 | the fault count is the minimum over all schedules when no reference is -1; with more frames than distinct pages it is so if and only if no reference is -1, and otherwise below what any schedule can achieve; it is some schedule's count if every -1 comes after as many distinct pages as there are frames |
| `QueuePolicies.Competitive` | CSE4300/Shahariar-project/page_replacement.c:26-58 | any policy that only drops from the front of its queue faults at most frames times as often as any schedule |
| `QueuePolicies.PolicyCompetitive` | CSE4300/Shahariar-project/page_replacement.c:26-173 | FIFO and LRU fault at least as often as the optimum and at most frames times as often |
| `QueuePolicies.RunIsSchedule` | CSE4300/Shahariar-project/page_replacement.c:109-173 | every run of FIFO or LRU is a demand-paging schedule with the same faults |
| `QueuePolicies.LruHoldsMostRecent` | CSE4300/Shahariar-project/page_replacement.c:131-168 | after every reference LRU holds a page exactly when at most as many distinct pages as there are frames have been used since, itself included |
| `QueuePolicies.LruInclusion` | CSE4300/Shahariar-project/page_replacement.c:131-168 | after every reference the pages held with fewer frames are among those held with more |
| `QueuePolicies.LruMoreFramesNoMoreFaults` | CSE4300/Shahariar-project/page_replacement.c:109-173 | more frames never give LRU more faults |
| `QueueSimulators.FifoReplace` | CSE4300/Shahariar-project/page_replacement.c:51-52 | the oldest frame holds the page and the hand moves on, around the array |
| `QueueSimulators.SimulateFifo` | CSE4300/Shahariar-project/page_replacement.c:26-58 | hits and faults add up to the references; the faults are those of the FIFO queue if every -1 comes after as many distinct pages as there are frames, and fewer than any schedule's for a prefix at which that first fails |
| `QueueSimulators.LeastRecentlyUsed` | CSE4300/Shahariar-project/page_replacement.c:154-162 | a frame with the least time of last use |
| `QueueSimulators.LruFrame` | CSE4300/Shahariar-project/page_replacement.c:133-166 | whether the page is resident, and the frame it occupies or will occupy |
| `QueueSimulators.SimulateLru` | CSE4300/Shahariar-project/page_replacement.c:109-173 | the array with its times of last use counts exactly the faults of the LRU queue when no reference is -1, and with more frames than distinct pages only then; it is some schedule's count if every -1 comes after as many distinct pages as there are frames |
| `QueueSimulators.RandomReplace` | CSE4300/Shahariar-project/page_replacement.c:83-100 | a free frame if there is one, else the one drawn, now holds the page; other frames are unchanged |
| `QueueSimulators.SimulateRandom` | CSE4300/Shahariar-project/page_replacement.c:61-106 | whatever the random draws, the count is that of some schedule, hence never below the optimum, if every -1 comes after as many distinct pages as there are frames, and fewer than any schedule's for a prefix at which that first fails |
| `SrtfOptimality.FewestUnfinished` | CSE4300/mukunda-eli/cpusim.c:223-262 | at every tick the shortest-remaining-time schedule has at most as many unfinished jobs as any schedule that respects arrivals |
| `SrtfOptimality.GreedyIsOptimal` | CSE4300/mukunda-eli/cpusim.c:219-262 | no unit-tick schedule of the same jobs that respects arrivals has a smaller sum of completion times |
| `SrtfOptimality.NeverServed` | CSE4300/mukunda-eli/cpusim.c:226-236 | a burst of at most 0 or at least INT_MAX is never selected and never worked on |
| `SrtfSimulator.SelectShortest` | CSE4300/mukunda-eli/cpusim.c:225-236 | the first among the arrived, unfinished jobs with the least remaining time, -1 exactly when there is none |
| `SrtfSimulator.RunTick` | CSE4300/mukunda-eli/cpusim.c:241-261 | one tick of work on the selected job alone, with its results recorded when that was its last |
| `SrtfSimulator.Progress` | CSE4300/mukunda-eli/cpusim.c:223-262 | every turn of the loop reduces outstanding work plus the time to the last arrival |
| `SrtfSimulator.FinishedIsOptimal` | CSE4300/mukunda-eli/cpusim.c:254-256 | recorded completion and waiting times are least in sum over all feasible schedules |
| `SrtfSimulator.Srtf` | CSE4300/mukunda-eli/cpusim.c:219-262 | ends with every job complete and its times recorded, having run a shortest-remaining job at each tick, with the least possible total completion and waiting time |
| `SrtfSimulator.NeverEnds` | CSE4300/mukunda-eli/cpusim.c:223-262 | with such a burst the loop never ends: after any number of ticks some job is not complete |
| `ShortestJobFirst.ShortestFirstIsOptimal` | CSE5305/xinyi-priya-zion-nick/SJF.c:20-30 | no order of the jobs has a smaller total turnaround than one sorted by burst |
| `ShortestJobFirst.Swap` | CSE5305/xinyi-priya-zion-nick/SJF.c:4-8 | two neighbours exchanged and nothing else |
| `ShortestJobFirst.BubblePass` | CSE5305/xinyi-priya-zion-nick/SJF.c:12-15 | a permutation whose sorted tail has grown by one |
| `ShortestJobFirst.Bubble` | CSE5305/xinyi-priya-zion-nick/SJF.c:10-17 | a permutation sorted by burst |
| `ShortestJobFirst.RecordedTotal` | CSE5305/xinyi-priya-zion-nick/SJF.c:24-29 | the turnarounds recorded add up to the cost of the order |
| `ShortestJobFirst.SjfScheduler` | CSE5305/xinyi-priya-zion-nick/SJF.c:20-30 | turnaround and wait recorded for each job of a sorted permutation, with a total turnaround minimal over all orders |
| `VirtualMemory.HandStops` | CSE4300/alex/MemoryManager.cpp:125-144 | CLOCK finds a victim within two sweeps of the page table whenever some page is present |
| `VirtualMemory.HandLooks` | CSE4300/alex/MemoryManager.cpp:127-143 | the hand passes exactly the absent and the referenced pages and stops at the first present, unreferenced one in clock order |
| `VirtualMemory.StepKeepsTable` | CSE4300/alex/MemoryManager.cpp:45-250 | every operation keeps present pages and occupied frames in bijection, marks exactly the other frames free, blanks them, and has present pages valid |
| `VirtualMemory.AllocateRefines` | CSE4300/alex/MemoryManager.cpp:188-214 | from a good state allocation answers as flat memory does and leaves a good state |
| `VirtualMemory.WriteRefines` | CSE4300/alex/MemoryManager.cpp:216-219 | so does a write, through fault, eviction and reload |
| `VirtualMemory.ReadRefines` | CSE4300/alex/MemoryManager.cpp:221-224 | so does a read |
| `VirtualMemory.DeleteRefines` | CSE4300/alex/MemoryManager.cpp:226-250 | delete answers as flat memory does, and leaves a good state exactly when the page was swapped out or its disk slice is blank |
| `VirtualMemory.StepRefines` | CSE4300/alex/MemoryManager.cpp:188-250 | from a good state (clean resident pages equal their disk slices, unallocated pages have blank ones) every operation answers as flat memory does, and the next state is good if and only if the operation is not a delete of a resident page with a non-blank disk slice |
| `VirtualMemory.RunRefines` | CSE4300/alex/MemoryManager.cpp:61-250 | over every run without such a delete before its last operation all answers are those of flat memory |
| `VirtualMemory.FlatHoldsLastByte` | CSE4300/alex/MemoryManager.cpp:216-224 | what flat memory holds is, from the history alone, the last byte written to that address since its page was allocated, else 0 |
| `VirtualMemory.RunReadsLastByte` | CSE4300/alex/MemoryManager.cpp:61-224 | over every such run from an empty memory each read answers an error or the last byte written to that address since its page was allocated, else 0, through any evictions, clean drops and reloads |
| `VirtualMemory.EvictInSteps` | CSE4300/alex/MemoryManager.cpp:118-153 | eviction is moving the hand, then writing back if dirty, unmapping and wiping |
| `VirtualMemory.InitialIsGood` | CSE4300/alex/MemoryManager.cpp:23-29 | a new memory is in a good state and holds no page |
| `SecondChance.UseMarksOnly` | CSE4300/alex/MemoryManager.cpp:61-89 | after a read or a write without error the page is resident with its reference bit set, and with its modify bit set exactly if it was or the access is a write; no other page's reference bit has been set |
| `SecondChance.BitAfter` | CSE4300/alex/MemoryManager.cpp:61-250 | what any operation does to any page's reference bit: set by a read or write of it and by nothing else, and cleared only by its deletion or by an eviction; without an eviction the hand stands still |
| `SecondChance.EvictInTurn` | CSE4300/alex/MemoryManager.cpp:118-153 | an eviction takes the first unused resident page going round from the hand, having cleared the bits of the used ones before it and of no other page; if all are used, it takes the first resident page, and every bit is cleared; the hand is left just behind |
| `SecondChance.SwapInTurn` | CSE4300/alex/MemoryManager.cpp:92-153 | whatever operation swaps a page out, no frame was free, it is that page's turn in this sense, and no other page goes |
| `SecondChance.UsedIsSpared` | CSE4300/alex/MemoryManager.cpp:86-140 | over any operations that evict nothing since a page was read or written, the next eviction does not take that page as long as some resident page is unused |
| `VirtualAddresses.MaskIsRemainder` | CSE4300/alex/MemoryManager.cpp:63 | for a power-of-two page size the mask is the remainder, for negative addresses too |
| `VirtualAddresses.InjectiveIffPowerOfTwo` | CSE4300/alex/MemoryManager.cpp:63-64 | translation of non-negative addresses to page and offset is injective if and only if the page size is a power of two |
| `VirtualAddresses.CellsOfPage` | CSE4300/alex/MemoryManager.cpp:212-213 | the bytes of an allocated page are those at consecutive addresses from the one returned |
| `VirtualAddresses.NegativeAddressAliases` | CSE4300/alex/MemoryManager.cpp:63-68 | an address between minus the page size and 0 is not rejected but aliases the first page |
| `VirtualAddresses.NegativeIsRejectedIff` | CSE4300/alex/MemoryManager.cpp:63-68 | for every page size, an address is rejected as negative if and only if it is at most minus the page size |
| `VirtualAddresses.EvictionIsInvisibleIff` | CSE4300/alex/MemoryManager.cpp:118-153 | an eviction keeps what every page holds if and only if the victim was dirty or equal to its disk slice |
| `FaithfulMemory.SwapOut` | CSE4300/alex/MemoryManager.cpp:92-153 | with more pages than frames some allocations and reads get any given page swapped out: each fault brings the clock hand closer to it or clears its reference bit |
| `FaithfulMemory.FaithfulIffGood` | CSE4300/alex/MemoryManager.cpp:61-250 | with a power-of-two page size and more pages than frames, all later answers are flat memory's, be it over allocations and reads only, if and only if every clean resident page equals its disk slice and every unallocated page has a blank one |
| `FaithfulMemory.StaysFaithfulIff` | CSE4300/alex/MemoryManager.cpp:188-250 | from a good state, an operation leaves all later answers right if and only if it is not a delete of a resident page with a non-blank disk slice |
| `NamedBytes.FaithfulIffCoherentWhereNamed` | CSE4300/alex/MemoryManager.cpp:61-250 | for every page size, with more pages than frames, all later answers to allocations and reads are flat memory's if and only if every byte that some address names is coherent: equal to its slice's in a clean resident page, 0 on the slice of an unallocated one |
| `NamedBytes.StaysQuietlyFaithfulIff` | CSE4300/alex/MemoryManager.cpp:63-250 | for every page size, an operation on a good state leaves all later answers to allocations and reads right if and only if it is not a delete of a resident page whose disk slice has a byte other than 0 that some address names |
| `NamedBytes.AllNamed` | CSE4300/alex/MemoryManager.cpp:63-64 | with a power-of-two page size every byte of every page is named by an address |
| `FaithfulMemory.SomeRunIsWrong` | CSE4300/alex/MemoryManager.cpp:226-250 | with more pages than frames, some run from a new memory reads back a byte of a deleted page |
| `FaithfulMemory.RoomyIsFaithful` | CSE4300/alex/MemoryManager.cpp:188-250 | with a frame for every page, where nothing has been swapped out, every run of operations answers as flat memory does |
| `FaithfulMemory.AlwaysFaithfulIff` | CSE4300/alex/MemoryManager.cpp:16-29 | for every page size, a new memory answers every run of operations as flat memory does if and only if it has at least as many frames as pages |
| `MemoryManager.MemoryManager.constructor` | CSE4300/alex/MemoryManager.cpp:16-29 | the initial state, over fresh arrays |
| `MemoryManager.MemoryManager.WipeMemoryFrame` | CSE4300/alex/MemoryManager.cpp:155-164 | one frame blank, everything else unchanged |
| `MemoryManager.MemoryManager.WritePageToDisk` | CSE4300/alex/MemoryManager.cpp:166-172 | a page's disk slice equals its frame, everything else unchanged |
| `MemoryManager.MemoryManager.ReadPageFromDisk` | CSE4300/alex/MemoryManager.cpp:174-178 | a frame equals a page's disk slice, everything else unchanged |
| `MemoryManager.MemoryManager.DeletePageFromDisk` | CSE4300/alex/MemoryManager.cpp:180-184 | a page's disk slice blank, everything else unchanged |
| `MemoryManager.MemoryManager.AdvanceClock` | CSE4300/alex/MemoryManager.cpp:125-144 | the loop ends at the victim with only the reference bits it passed cleared |
| `MemoryManager.MemoryManager.ReplacePage` | CSE4300/alex/MemoryManager.cpp:118-153 | the state after evicting the victim, and its frame: the victim is the first unused resident page going round, if any is, only the bits of the pages passed are cleared, and the hand is left just behind it |
| `MemoryManager.MemoryManager.FindFrame` | CSE4300/alex/MemoryManager.cpp:97-109 | the first free frame, or the evicted one |
| `MemoryManager.MemoryManager.HandlePageFault` | CSE4300/alex/MemoryManager.cpp:92-116 | the page is resident in a frame obtained so, with its disk content; the table invariant holds |
| `MemoryManager.MemoryManager.VirtualToPhysical` | CSE4300/alex/MemoryManager.cpp:61-90 | the two errors and nothing changed, or the page resident with its reference bit set, its modify bit too for a write, and no other page's reference bit set; the physical address is always in range |
| `MemoryManager.MemoryManager.WriteVirtualMemory` | CSE4300/alex/MemoryManager.cpp:216-219 | state and answer are those the refinement theorem relates to flat memory, errors included; without error the page is marked as used and modified, and no other is marked |
| `MemoryManager.MemoryManager.ReadVirtualMemory` | CSE4300/alex/MemoryManager.cpp:221-224 | likewise for a read; the byte returned is the flat one in every good state; without error the page is marked as used, and no other is marked |
| `MemoryManager.MemoryManager.AllocateAnyPage` | CSE4300/alex/MemoryManager.cpp:188-214 | likewise for allocation, with an error exactly when every page is allocated |
| `MemoryManager.MemoryManager.DeletePageTableEntry` | CSE4300/alex/MemoryManager.cpp:226-250 | likewise for deletion, resident or swapped out |
| `MemoryManager.MemoryManager.Perform` | CSE4300/alex/MemoryManager.cpp:188-250 | over any sequence of operations the answers are flat memory's unless a resident page with a non-blank disk slice is deleted on the way; from an empty memory each read then finds the last byte written there |
| `LinkedQueue.Queue.Push` | CSE4300/josh-alex-zach-viraj/util.c:15-24 | appends to the sequence the links stand for |
| `LinkedQueue.Queue.Pop` | CSE4300/josh-alex-zach-viraj/util.c:26-34 | takes the first of the sequence, null when empty |
| `LinkedQueue.Queue.RemoveAfter` | CSE4300/josh-alex-zach-viraj/util.c:36-48 | removes one position of the sequence, the links and ends repaired |
| `LinkedQueue.Queue.BeforeSmallest` | CSE4300/josh-alex-zach-viraj/util.c:53-61 | the thread linked before the first one with the smallest key, null when that is at the front |
| `LinkedQueue.Queue.PopSmallest` | CSE4300/josh-alex-zach-viraj/util.c:51-94 | removes the first thread with the smallest burst, remaining time or priority |
| `MulticoreState.AdmitKeeps` | CSE4300/josh-alex-zach-viraj/sim.c:37-57 | admission keeps every thread in one place, once, and all time accounts |
| `MulticoreState.ResolveKeeps` | CSE4300/josh-alex-zach-viraj/util.c:108-122 | so does the return from waiting |
| `MulticoreState.BlockKeeps` | CSE4300/josh-alex-zach-viraj/cpu.c:41-48 | so does blocking a running thread |
| `MulticoreState.DispatchKeeps` | CSE4300/josh-alex-zach-viraj/dispatch.c:13-147 | so does any dispatch that only moves threads between ready queue and cores |
| `MulticoreState.TickWorkKeeps` | CSE4300/josh-alex-zach-viraj/sim.c:317-329 | from dispatch to the next loop head time since arrival stays waiting time plus work done plus time waiting for I/O, for every admitted thread |
| `MulticoreState.CollectedCore` | CSE4300/josh-alex-zach-viraj/sim.c:60-71 | collecting frees a core exactly if its thread has nothing left, and changes no other field of any thread |
| `MulticoreDispatch.FilledStep` | CSE4300/josh-alex-zach-viraj/dispatch.c:14-18 | placing one selected thread keeps busy cores and the order of selection |
| `MulticoreDispatch.SelectedIsLeast` | CSE4300/josh-alex-zach-viraj/util.c:51-94 | the thread selected has the least burst, the least remaining time or the least priority number of the ready queue, by the field that the selection goes by |
| `MulticoreDispatch.FilledWithLeast` | CSE4300/josh-alex-zach-viraj/dispatch.c:23-29 | whoever is put on an idle core has no larger burst, remaining time or priority number than anybody left ready, by the field that the selection goes by |
| `MulticoreDispatch.ReplaceFalls` | CSE4300/josh-alex-zach-viraj/dispatch.c:66-75 | each preemption lowers the sum of keys on the cores |
| `MulticoreDispatch.PutBackStep` | CSE4300/josh-alex-zach-viraj/dispatch.c:77-79 | when the best ready thread is put back no ready thread beats a running one whose key is above -1 |
| `MulticoreDispatch.ReplacedBestFirst` | CSE4300/josh-alex-zach-viraj/dispatch.c:108-147 | preemption never moves a thread whose priority is at most -1, and whoever is bound with one beats everybody left in the queue |
| `MulticoreSimulator.Simulator.constructor` | CSE4300/josh-alex-zach-viraj/sim.c:8-34 | every job in the workload once with its arrival, burst and priority, all cores idle, accounts balanced |
| `MulticoreSimulator.Simulator.BindCore` | CSE4300/josh-alex-zach-viraj/cpu.c:19-25 | the thread on the core, running, its start stamped the first time |
| `MulticoreSimulator.Simulator.PreemptToReady` | CSE4300/josh-alex-zach-viraj/cpu.c:34-39 | the thread off the core, ready, at the queue's end |
| `MulticoreSimulator.Simulator.BlockToWaiting` | CSE4300/josh-alex-zach-viraj/cpu.c:41-48 | the thread off the core, waiting until the given time, its slice reset |
| `MulticoreSimulator.Simulator.PopSelected` | CSE4300/josh-alex-zach-viraj/util.c:26-94 | the first thread, or the first of those with the least burst, the least remaining time or the least priority number in the queue, taken out |
| `MulticoreSimulator.Simulator.Victim` | CSE4300/josh-alex-zach-viraj/dispatch.c:33-44 | a running thread with the largest key, above the threshold and above -1; -1 exactly when there is none |
| `MulticoreSimulator.Simulator.FillIdle` | CSE4300/josh-alex-zach-viraj/dispatch.c:13-29 | permutes threads between queue and cores, leaves busy cores alone and no core idle while a thread is ready; takes from the front, or whoever it puts on an idle core has no larger burst, remaining time or priority number than anybody left ready |
| `MulticoreSimulator.Simulator.DispatchSrtcf` | CSE4300/josh-alex-zach-viraj/dispatch.c:46-81 | terminates, loses and duplicates no thread, leaves no core idle while a thread is ready, and nothing to preempt |
| `MulticoreSimulator.Simulator.DispatchPriority` | CSE4300/josh-alex-zach-viraj/dispatch.c:122-147 | the same for priorities, where running threads with priorities of at most -1 stay on their cores |
| `MulticoreSimulator.Simulator.DispatchRr` | CSE4300/josh-alex-zach-viraj/dispatch.c:84-104 | is round robin's dispatch: expired threads to the tail, idle cores filled from the head with full slices |
| `MulticoreSimulator.Simulator.Dispatch` | CSE4300/josh-alex-zach-viraj/sim.c:308-314 | whatever the policy, what that policy promises; under shortest job first whoever is put on an idle core has no longer a burst than anybody left ready |
| `MulticoreSimulator.Simulator.WorkloadAdmitTick` | CSE4300/josh-alex-zach-viraj/sim.c:37-57 | exactly the threads arriving now join the ready queue, both orders kept |
| `MulticoreSimulator.Simulator.WaitingResolve` | CSE4300/josh-alex-zach-viraj/util.c:108-122 | exactly the threads whose I/O is over join the ready queue, both orders kept |
| `MulticoreSimulator.Simulator.RandomInterrupts` | CSE4300/josh-alex-zach-viraj/sim.c:85-104 | for any draws, exactly the drawn cores' threads start waiting; accounts kept |
| `MulticoreSimulator.Simulator.BumpQueueWait` | CSE4300/josh-alex-zach-viraj/util.c:96-100 | one more tick of waiting for exactly the ready threads |
| `MulticoreSimulator.Simulator.CpuStep` | CSE4300/josh-alex-zach-viraj/cpu.c:67-92 | one tick of work and of slice for exactly the running threads, and of time |
| `MulticoreSimulator.Simulator.DecayPriority` | CSE4300/josh-alex-zach-viraj/util.c:124-139 | ready and waiting threads' positive priorities one lower |
| `MulticoreSimulator.Simulator.CollectCompletions` | CSE4300/josh-alex-zach-viraj/sim.c:60-71 | finished threads leave their cores in core order |
| `MulticoreSimulator.Simulator.AllDone` | CSE4300/josh-alex-zach-viraj/sim.c:74-80 | true exactly when nothing is ready, waiting or running, whatever the workload |
| `MulticoreSimulator.Simulator.Tick` | CSE4300/josh-alex-zach-viraj/sim.c:300-333 | for every policy and any interrupts one turn of the loop keeps each thread in one place and every account balanced |
| `MulticoreSimulator.Simulator.RunInterrupted` | CSE4300/josh-alex-zach-viraj/sim.c:291-333 | from the submitted workload, with any interrupts, the turns of the loop in order, each from where the last one ended, up to the first that drains; every account balanced at every loop head |
| `MulticoreSimulator.Simulator.Run` | CSE4300/josh-alex-zach-viraj/sim.c:291-333 | without interrupts, from the submitted workload, the loop ends under every policy at the first tick that drains; exactly the threads that arrived during the run have finished; on one core everybody has if and only if until the last arrival more work had come in than ticks had passed |
| `MulticoreRuns.WhoHasFinished` | CSE4300/josh-alex-zach-viraj/sim.c:326-332 | at the end a thread has finished exactly if it arrived at one of the ticks run, and then finish - arrival is burst plus waiting time plus time waiting for I/O |
| `MulticoreEnds.LastTickIff` | CSE4300/josh-alex-zach-viraj/sim.c:74-80 | a tick drains the simulator if and only if its dispatch leaves nobody ready or waiting and every running thread has one tick left, whoever is still to come |
| `MulticoreEnds.WhoFinishesAtAll` | CSE4300/josh-alex-zach-viraj/sim.c:300-333 | when a run has drained: everybody has finished if until the last arrival more work had always come in than all cores could have done, and only if it was more than one core could have done |
| `MulticoreEnds.EndsAtAnArrival` | CSE4300/josh-alex-zach-viraj/sim.c:326-332 | with somebody arriving in each of the first two ticks, the first having burst 1, the loop ends on one core just when the second thread is due |
| `MulticoreEnds.AdmitTwice` | CSE4300/josh-alex-zach-viraj/sim.c:296-302 | the admission before the loop and the one in its first turn are one |
| `MulticoreHistory.HistoryFacts` | CSE4300/josh-alex-zach-viraj/sim.c:300-333 | over any run with any interrupts the clock counts the ticks, nobody's arrival or burst changes, and the workload holds exactly those who have not arrived yet |
| `MulticoreRuns.TickKeepsPriorities` | CSE4300/josh-alex-zach-viraj/util.c:124-139 | priorities that start non-negative stay so through every tick |
| `MulticoreHistory.NobodyOutranksRunning` | CSE4300/josh-alex-zach-viraj/dispatch.c:122-147 | in a run that starts with non-negative priorities, with any interrupts, no ready thread outranks a running one after any dispatch |
| `MulticorePriority.OutrankedIff` | CSE4300/josh-alex-zach-viraj/dispatch.c:108-147 | after a priority dispatch some ready thread outranks a running one if and only if before it a core ran a priority below 0 and more ready threads were better than there were cores idle or running priorities from 0 up |
| `MulticorePriority.NegativePriorityIsNotPreempted` | CSE4300/josh-alex-zach-viraj/dispatch.c:108-120 | a run of two ticks in which a thread of priority -2 has to wait for a running one of priority -1 |
| `MulticoreRuns.NobodyIsShorterThanRunning` | CSE4300/josh-alex-zach-viraj/dispatch.c:46-81 | no ready thread has less left than a running one after an SRTCF dispatch |
| `MulticoreRuns.NobodyReadyIsShorter` | CSE4300/josh-alex-zach-viraj/dispatch.c:20-29 | whoever an SJF dispatch puts on an idle core has no longer a burst than anybody it leaves ready |
| `MulticoreRuns.NobodyReadyIsBetter` | CSE4300/josh-alex-zach-viraj/dispatch.c:122-147 | after a priority dispatch whoever runs with a priority number from 0 up has none larger than anybody left ready |
| `MulticoreTimes.ShortestJobsFirst` | CSE4300/josh-alex-zach-viraj/dispatch.c:20-29 | over every run with any interrupts, at every dispatch, the burst of whoever is put on an idle core is at most that of anybody left ready |
| `MulticoreTimes.ShortestRemainingFirst` | CSE4300/josh-alex-zach-viraj/dispatch.c:46-81 | over every run with any interrupts, after every dispatch, nobody running has more left to do than anybody ready |
| `MulticoreTimes.BestPriorityFirst` | CSE4300/josh-alex-zach-viraj/dispatch.c:122-147 | over every run with any interrupts, after every dispatch, nobody running has a larger priority number than anybody ready, unless its own is negative |
| `MulticoreTimes.HistoryIsGood` | CSE4300/josh-alex-zach-viraj/sim.c:300-333 | over every run with any interrupts, at every loop head, each thread is in one place and every account balances |
| `MulticoreTimes.RunsStartFresh` | CSE4300/josh-alex-zach-viraj/sim.c:8-34 | runs of submitted jobs start with every thread carrying its job's arrival, burst and priority, its number, nothing done and no start time |
| `MulticoreTimes.ResponseTime` | CSE4300/josh-alex-zach-viraj/cpu.c:19-25 | over every run, under every policy and with any interrupts, the start time of a finished thread is the first tick at which it was on a core after the dispatch |
| `MulticoreTimes.HistoryLabels` | CSE4300/josh-alex-zach-viraj/cpu.c:19-48 | over every run the recorded state of each thread tells which queue it is in, or that it is on a core, after every dispatch and at every loop head |
| `MulticoreStamps.VictimWasRunning` | CSE4300/josh-alex-zach-viraj/dispatch.c:64-75 | nobody loses a core in the dispatch that gave it one: a preemption takes its core from a thread that was running before |
| `MulticoreWaits.IoLasts` | CSE4300/josh-alex-zach-viraj/util.c:108-122 | over every run a thread that starts I/O of some length waits at every dispatch for that many ticks, at least one, and is in the ready queue at the tick that follows |
| `MulticoreWaits.WaitingAges` | CSE4300/josh-alex-zach-viraj/util.c:124-139 | over every run the priority number of a thread kept off the cores falls by one with every tick, down to 0 |
| `MulticoreWaits.AgedIsOutrankedByNobody` | CSE4300/josh-alex-zach-viraj/dispatch.c:122-147 | under the priority policy, once a thread has been kept off the cores for as many ticks as its priority number and is passed over again, everybody running has a priority number of at most 0 |
| `MulticoreRuns.WorkIsDone` | CSE4300/josh-alex-zach-viraj/sim.c:300-333 | a tick that leaves something active without interrupts has done some work |
| `MulticoreRuns.NobodyStarves` | CSE4300/josh-alex-zach-viraj/dispatch.c:84-104 | in every run that goes on until it has drained, for every quantum, values below 1 counting as 1, a thread with k others ahead of it in the ready queue after a dispatch is on a core within (k / cores + 1) quanta, whatever arrives |
| `MulticoreRoundRobin.BetweenIsARound` | CSE4300/josh-alex-zach-viraj/sim.c:300-333 | from one dispatch to the next the simulator does exactly a round of work, completions and arrivals of the round-robin model |
| `RoundRobin.DispatchServes` | CSE4300/josh-alex-zach-viraj/dispatch.c:84-104 | after a dispatch every running thread has some slice left and nobody is ready while a core is idle |
| `RoundRobin.TickMovesUp` | CSE4300/josh-alex-zach-viraj/dispatch.c:87-103 | between dispatches a waiting thread moves up by the number of cores that were freed, or is bound |
| `RoundRobin.NoStarvation` | CSE4300/josh-alex-zach-viraj/dispatch.c:84-104 | the same bound on runs of the round-robin model, for every quantum, unless the run stops before with the thread still in the queue |
| `MinHeap.RootIsLeast` | CSE4300/Krish-Zohaib_Lyles/cpu_scheduler_sim_windows_vs_linux/cpu_sim.c:268-270 | in a heap the root's key is least |
| `MinHeap.Heap.Push` | CSE4300/Krish-Zohaib_Lyles/cpu_scheduler_sim_windows_vs_linux/cpu_sim.c:259-267 | keeps heap order; the entries are the old ones and the new one |
| `MinHeap.Heap.Pop` | CSE4300/Krish-Zohaib_Lyles/cpu_scheduler_sim_windows_vs_linux/cpu_sim.c:268-282 | keeps heap order; removes an entry with the least key; 0 exactly when empty |
| `MinHeap.Heap.SinkRoot` | CSE4300/Krish-Zohaib_Lyles/cpu_scheduler_sim_windows_vs_linux/cpu_sim.c:273-280 | restores heap order without changing the entries |
| `FairShare.ChargeWithinLead` | CSE4300/Krish-Zohaib_Lyles/cpu_scheduler_sim_windows_vs_linux/cpu_sim.c:335-339 | a slice never charges a process more virtual time than 512 * max(1/w, period/(w + w')), when another of weight w' is runnable |
| `FairShare.ChargePays` | CSE4300/Krish-Zohaib_Lyles/cpu_scheduler_sim_windows_vs_linux/cpu_sim.c:379-380 | the virtual runtime charged times the weight is 512 times the ticks run |
| `FairShare.SliceIsShare` | CSE4300/Krish-Zohaib_Lyles/cpu_scheduler_sim_windows_vs_linux/cpu_sim.c:334-339 | the slice is the whole number of ticks in the period's share of the process's weight among all, or 1 if there is none, stated in integers |
| `FairShare.DispatchPays` | CSE4300/Krish-Zohaib_Lyles/cpu_scheduler_sim_windows_vs_linux/cpu_sim.c:367-380 | in each dispatch everybody's gain in virtual runtime times weight is 512 times the ticks it has run |
| `FairShare.VirtualTimeIsWork` | CSE4300/Krish-Zohaib_Lyles/cpu_scheduler_sim_windows_vs_linux/cpu_sim.c:345-393 | over every run, between its start and any later point, a process's gain in virtual runtime times weight is 512 times the ticks it has run |
| `FairShare.Fairness` | CSE4300/Krish-Zohaib_Lyles/cpu_scheduler_sim_windows_vs_linux/cpu_sim.c:345-393 | while two processes are both admitted and unfinished, one leads the other in virtual runtime by no more than at the start, or than 512 * max(1/w, period/(w + w')) |
| `FairBooks.LeastIsPick` | CSE4300/Krish-Zohaib_Lyles/cpu_scheduler_sim_windows_vs_linux/cpu_sim.c:330-334 | the least key in the heap belongs to an unfinished process with the least current virtual runtime |
| `FairBooks.RanKeeps` | CSE4300/Krish-Zohaib_Lyles/cpu_scheduler_sim_windows_vs_linux/cpu_sim.c:370-392 | a dispatch keeps everybody's books, in which virtual runtime times weight is 512 times the ticks run and the start time is the start of the first slice, and the chart in order |
| `FairBooks.RunKeeps` | CSE4300/Krish-Zohaib_Lyles/cpu_scheduler_sim_windows_vs_linux/cpu_sim.c:367-392 | what the loop does to the picked process is the dispatch that the fairness bound speaks of |
| `FairSimulator.CfsSim.constructor` | CSE4300/Krish-Zohaib_Lyles/cpu_scheduler_sim_windows_vs_linux/cpu_sim.c:316-324 | a simulation with nobody admitted |
| `FairSimulator.CfsSim.Enqueue` | CSE4300/Krish-Zohaib_Lyles/cpu_scheduler_sim_windows_vs_linux/cpu_sim.c:325-329 | the process joins heap and weight sum; keys stay current virtual runtimes |
| `FairSimulator.CfsSim.Pick` | CSE4300/Krish-Zohaib_Lyles/cpu_scheduler_sim_windows_vs_linux/cpu_sim.c:330-341 | an unfinished process with the least virtual runtime leaves the heap, with the whole number of ticks in its share of the period, at least 1 |
| `FairSimulator.CfsSim.DispatchOne` | CSE4300/Krish-Zohaib_Lyles/cpu_scheduler_sim_windows_vs_linux/cpu_sim.c:367-392 | an unfinished process with the least virtual runtime runs, right after any switching cost, for the whole ticks of its share of the period, at least 1, or to its end; its virtual runtime times weight grows by 512 for each tick, the slice is charted, and no other process changes; the dispatch is one in the sense of the fairness bound |
| `FairSimulator.CfsSim.AdmitArrived` | CSE4300/Krish-Zohaib_Lyles/cpu_scheduler_sim_windows_vs_linux/cpu_sim.c:359-362 | exactly the processes that have arrived are admitted |
| `FairHistory.AdmittedPromptly` | CSE4300/Krish-Zohaib_Lyles/cpu_scheduler_sim_windows_vs_linux/cpu_sim.c:357-365 | over every run a process is admitted on arrival, at time 0 if it was there before, or at the end of the dispatch during which it arrived |
| `FairHistory.IdleMeansFinished` | CSE4300/Krish-Zohaib_Lyles/cpu_scheduler_sim_windows_vs_linux/cpu_sim.c:363-366 | over every run the clock skips ahead only while everybody admitted has finished |
| `FairSimulator.CfsSim.Simulate` | CSE4300/Krish-Zohaib_Lyles/cpu_scheduler_sim_windows_vs_linux/cpu_sim.c:345-393 | ends with every process complete; its dispatches, from the first with nothing done to the last with nothing left, form a run to which the fairness bound applies; completion - admission is burst plus waiting, the slices labelled with a process add up to its burst, busy time is the sum of bursts; each process's virtual runtime times weight is 512 times its burst, its start time is the start of its first slice, and nobody was admitted late |
| `ArrivalOrder.SortArrivals` | CSE4300/Krish-Zohaib_Lyles/cpu_scheduler_sim_windows_vs_linux/cpu_sim.c:178-183 | a permutation in order of time, then process id |
| `ArrivalOrder.SortedLists` | CSE4300/Krish-Zohaib_Lyles/cpu_scheduler_sim_windows_vs_linux/cpu_sim.c:177-183 | the sorted list names every process once |
| `ArrivalOrder.MakeArrivals` | CSE4300/Krish-Zohaib_Lyles/cpu_scheduler_sim_windows_vs_linux/cpu_sim.c:348-355 | every process once, in order of time, then process id |
| `Timeline.PushAdds` | CSE4300/Krish-Zohaib_Lyles/cpu_scheduler_sim_windows_vs_linux/cpu_sim.c:75-82 | pushing a slice keeps the chart disjoint and ordered and adds its length to its owner alone |
| `Timeline.LabelsTell` | CSE4300/Krish-Zohaib_Lyles/cpu_scheduler_sim_windows_vs_linux/cpu_sim.c:63-82 | with distinct process ids the time on the chart under an id is that of its process |
| `PriorityBooks.AdmitKeeps` | CSE4300/Krish-Zohaib_Lyles/cpu_scheduler_sim_windows_vs_linux/cpu_sim.c:187-190 | an arrival admitted at its arrival time starts its books right |
| `PriorityBooks.SliceEndKeeps` | CSE4300/Krish-Zohaib_Lyles/cpu_scheduler_sim_windows_vs_linux/cpu_sim.c:191-202 | the end of a slice keeps all books, finished or requeued |
| `PriorityBooks.PickKeeps` | CSE4300/Krish-Zohaib_Lyles/cpu_scheduler_sim_windows_vs_linux/cpu_sim.c:205-217 | starting a slice keeps all books, whatever the switching cost and aging |
| `PriorityBooks.ClockKeeps` | CSE4300/Krish-Zohaib_Lyles/cpu_scheduler_sim_windows_vs_linux/cpu_sim.c:219-221 | so does moving the clock, even back to an arrival inside a context switch |
| `PriorityBooks.NextOnTime` | CSE4300/Krish-Zohaib_Lyles/cpu_scheduler_sim_windows_vs_linux/cpu_sim.c:187-190 | arrivals are always admitted at exactly their arrival time |
| `PriorityBooks.SliceEndProgress` | CSE4300/Krish-Zohaib_Lyles/cpu_scheduler_sim_windows_vs_linux/cpu_sim.c:191-202 | each ended slice leaves less to do |
| `PrioritySimulator.WinSim.Enqueue` | CSE4300/Krish-Zohaib_Lyles/cpu_scheduler_sim_windows_vs_linux/cpu_sim.c:160-165 | at the tail of the queue of its clamped priority |
| `PrioritySimulator.WinSim.EndSlice` | CSE4300/Krish-Zohaib_Lyles/cpu_scheduler_sim_windows_vs_linux/cpu_sim.c:191-202 | the slice's length is taken off what remains; a finished process completes at the slice's end; any other is last in the queue of level max(0, its level - 1), which is its new level, while the other queues and processes do not change; all books kept |
| `PrioritySimulator.WinSim.Pick` | CSE4300/Krish-Zohaib_Lyles/cpu_scheduler_sim_windows_vs_linux/cpu_sim.c:166-172 | the head of the highest non-empty level starts, right after any switching cost, to its end or for 6 ticks and one more per two levels, one level up if it has waited for more than 10 ticks and is not at the top; nothing happens exactly when nobody is ready |
| `PrioritySimulator.WinSim.Advance` | CSE4300/Krish-Zohaib_Lyles/cpu_scheduler_sim_windows_vs_linux/cpu_sim.c:219-221 | to the end of the slice or an earlier arrival, so that no arrival is overdue |
| `PriorityHistory.SliceEndDrops` | CSE4300/Krish-Zohaib_Lyles/cpu_scheduler_sim_windows_vs_linux/cpu_sim.c:191-202 | at the end of a slice an unfinished process goes last into the queue of level max(0, its level - 1); the other queues and everybody else's level are unchanged |
| `PriorityHistory.PickStarts` | CSE4300/Krish-Zohaib_Lyles/cpu_scheduler_sim_windows_vs_linux/cpu_sim.c:204-217 | whom a pick starts, for how long, when, and at which level it then is, in numbers |
| `PriorityHistory.LevelsAlwaysOk` | CSE4300/Krish-Zohaib_Lyles/cpu_scheduler_sim_windows_vs_linux/cpu_sim.c:160-165 | over every run everybody queued is in the queue of its own level, which is between 0 and 15 |
| `PriorityHistory.LevelsTell` | CSE4300/Krish-Zohaib_Lyles/cpu_scheduler_sim_windows_vs_linux/cpu_sim.c:117-210 | over every run the level of a process is its base priority, brought between 0 and 15, less the slices that have expired unfinished plus the starts after a wait of more than 10 ticks, kept between 0 and 15 at each step |
| `PriorityHistory.ServedInOrder` | CSE4300/Krish-Zohaib_Lyles/cpu_scheduler_sim_windows_vs_linux/cpu_sim.c:166-172 | over every run a process is served only after everybody who was queued at a higher level, or before it at its own, at some earlier time |
| `PriorityHistory.ExpiredWaitsItsTurn` | CSE4300/Krish-Zohaib_Lyles/cpu_scheduler_sim_windows_vs_linux/cpu_sim.c:191-202 | over every run a process whose slice has expired is not served again before everybody who was then queued at its old level, at the one below or higher |
| `PriorityHistory.ExpiredQueuesBehind` | CSE4300/Krish-Zohaib_Lyles/cpu_scheduler_sim_windows_vs_linux/cpu_sim.c:191-202 | it queues behind exactly these, and in front of everybody at lower levels |
| `PriorityHistory.QueuedStaysAtLevel` | CSE4300/Krish-Zohaib_Lyles/cpu_scheduler_sim_windows_vs_linux/cpu_sim.c:205-210 | over every run a process stays at its level as long as it stays queued, however long it waits |
| `PriorityHistory.IdleMeansFinished` | CSE4300/Krish-Zohaib_Lyles/cpu_scheduler_sim_windows_vs_linux/cpu_sim.c:203-205 | over every run the clock moves with nobody running only when everybody admitted has finished |
| `PrioritySimulator.WinSim.Simulate` | CSE4300/Krish-Zohaib_Lyles/cpu_scheduler_sim_windows_vs_linux/cpu_sim.c:173-222 | ends with every process complete, slices disjoint and in time order, the slices labelled with each process adding up to its burst, busy time the sum of bursts, and completion - arrival = burst + waiting; each start time is the start of the first slice; the stages recorded on the way form a run to which the statements on levels and order apply |
| `Rotation.FirstInFirstServedIff` | CSE4300/bereket/src/rr_policy.cpp:32-72 | ready ids are served in the order they entered the ready queue if and only if the rotation is a prefix of it |
| `Rotation.EventKeepsAgreement` | CSE4300/bereket/src/rr_policy.cpp:32-88 | arrivals, services and requeues keep the rotation free of duplicates and within the ready ids; after a service it has all of them |
| `Rotation.AlwaysAgrees` | CSE4300/bereket/src/rr_policy.cpp:32-88 | the same after any sequence of events |
| `Rotation.ServedInTurn` | CSE4300/bereket/src/rr_policy.cpp:53-72 | whoever is k-th in rotation is there, moved up by the services since, until its own, whatever arrives or is requeued |
| `Rotation.HeadIsReady` | CSE4300/bereket/src/rr_policy.cpp:59-68 | on a non-empty ready queue somebody ready is served |
| `Rotation.HeadIsNext` | CSE4300/bereket/src/rr_policy.cpp:61-67 | the head of a non-empty rotation that agrees with the ready queue is served next |
| `Rotation.RequeueKeepsOrderIff` | CSE4300/bereket/src/rr_policy.cpp:74-88 | when jobs are served in first-in order, a requeue keeps that if and only if everybody ready is already in rotation |
| `Rotation.InOrderThroughoutIff` | CSE4300/bereket/src/rr_policy.cpp:32-88 | from the empty state, jobs are served in first-in order at every point of a run if and only if no job is requeued when somebody has arrived since the last service |
| `Rotation.RequeuedOvertakes` | CSE4300/bereket/src/rr_policy.cpp:74-88 | a concrete run in which a requeued job is served before an earlier arrival |
| `RoundRobinPolicy.Policy.Make` | CSE4300/bereket/src/rr_policy.cpp:25-30 | refuses exactly the quanta that are not positive |
| `RoundRobinPolicy.Policy.Sync` | CSE4300/bereket/src/rr_policy.cpp:32-47 | ids no longer ready dropped, missing ready ids appended, orders kept |
| `RoundRobinPolicy.Policy.GetNextJob` | CSE4300/bereket/src/rr_policy.cpp:53-72 | succeeds exactly on a non-empty queue, serving the head of the service order and keeping the rest |
| `RoundRobinPolicy.Policy.OnJobCompletion` | CSE4300/bereket/src/rr_policy.cpp:74-88 | every occurrence of the id removed, and one appended if work is left |
| `WorkerPoolSafety.TakeHolds` | CSE4300/bereket/src/worker_pool.cpp:62-121 | a worker taking a job keeps the whole invariant |
| `WorkerPoolSafety.FinishHolds` | CSE4300/bereket/src/worker_pool.cpp:126-158 | a worker finishing a slice keeps the whole invariant |
| `WorkerPoolSafety.AdmitHolds` | CSE4300/bereket/src/scheduler_engine.cpp:137-147 | admission keeps the whole invariant |
| `WorkerPoolSafety.StepHolds` | CSE4300/bereket/src/worker_pool.cpp:57-160 | every step of scheduler or worker does |
| `WorkerPoolSafety.AlwaysHolds` | CSE4300/bereket/src/scheduler_engine.cpp:121-172 | in every interleaving, whenever the mutex is free: each job in exactly one of pending, ready, executing, completed; the counter is the number executing; the rotation agrees with the ready queue |
| `WorkerPoolSafety.BreakMeansCompleted` | CSE4300/bereket/src/scheduler_engine.cpp:149-154 | in every interleaving, once the scheduler has taken its break every submitted job has exactly one completed record, with its arrival and burst and nothing remaining, and that stays so; switches are the dispatches of the completed jobs |
| `WorkerPoolSafety.RecordsAreSubmitted` | CSE4300/bereket/src/worker_pool.cpp:62-158 | in every interleaving each record, wherever it is, has the id, arrival and burst of a submitted job |
| `WorkerPoolSafety.DoneIsStable` | CSE4300/bereket/src/scheduler_engine.cpp:169-171 | after the break only the flag and the workers' leaving change |
| `WorkerPoolSafety.DispatchCount` | CSE4300/bereket/src/worker_pool.cpp:110-156 | in every interleaving a completed job was dispatched exactly as often as quanta fit its submitted burst to within 0.001, so at most the burst over the quantum rounded up, and once if run to completion |
| `WorkerPoolSafety.FreeWorkerGetsJob` | CSE4300/bereket/src/worker_pool.cpp:75-88 | with somebody ready the policy never comes back empty-handed |
| `WorkerPoolTimes.OneCoreKeepsTime` | CSE4300/bereket/src/worker_pool.cpp:97-128 | with one worker its local time is never before the end of anybody's last slice, so turnaround is at least the burst to within 0.001 |
| `WorkerPoolTimes.FallsShort` | CSE4300/bereket/src/worker_pool.cpp:97-128 | for every quantum, number of workers from 2 and burst beyond the quantum, an interleaving in which the turnaround is at most the burst less a quantum, because the second core's local time is behind |
| `WorkerPoolTimes.NeverShortIff` | CSE4300/bereket/src/worker_pool.cpp:97-128 | over all interleavings turnaround is at least the burst to within 0.001 if and only if the policy runs to completion, there is at most one worker, or the burst fits a quantum to within 0.001 |
| `WorkerPoolTimes.TurnaroundBelowBurst` | CSE4300/bereket/src/worker_pool.cpp:97-128 | a reachable run in which a job of burst 3 has a turnaround of at most 1 |
| `WorkerPool.ArrivedTells` | CSE4300/bereket/src/scheduler_engine.cpp:140 | the jobs admitted are the longest stretch at the front of the pending ones in which every arrival is at most the clock plus 0.00001 |
| `WorkerPoolClocks.NobodyBeforeArrival` | CSE4300/bereket/src/scheduler_engine.cpp:137-163 | in every interleaving each ready, executing or completed record has an arrival of at most the clock plus 0.00001, and the clock is never before its start |
| `WorkerPoolClocks.ClockIsAnArrival` | CSE4300/bereket/src/scheduler_engine.cpp:133-163 | in every interleaving the clock is where it started or at the arrival of a submitted job |
| `WorkerPoolClocks.AdvanceReaches` | CSE4300/bereket/src/scheduler_engine.cpp:137-163 | once the clock has been moved, the first pending job is admitted at the next look |
| `WorkerPoolClocks.WaitingIsToFirstDispatch` | CSE4300/bereket/src/worker_pool.cpp:97-102 | in every interleaving the waiting time recorded for a completed job is the time from its arrival to its first dispatch, that is to the later of its arrival and the local time of the core that took it |
| `WorkerPoolClocks.SlicesApart` | CSE4300/bereket/src/worker_pool.cpp:96-128 | in every interleaving no slice of a core starts before the one before it on that core has ended |
| `WorkerPoolRegions.Engine.constructor` | CSE4300/bereket/src/scheduler_engine.cpp:36-59 | an initial state of the machine |
| `WorkerPoolRegions.Engine.AdmitArrived` | CSE4300/bereket/src/scheduler_engine.cpp:137-147 | the locked loop is the admission step: jobs from the front of the pending ones join the ready queue in order, each with an arrival of at most the clock plus 0.00001, and the next pending job, if any, arrives later than that |
| `WorkerPoolRegions.Engine.TestBreak` | CSE4300/bereket/src/scheduler_engine.cpp:149-154 | the locked test is the break step, or changes nothing |
| `WorkerPoolRegions.Engine.AdvanceTime` | CSE4300/bereket/src/scheduler_engine.cpp:156-163 | whatever was read without the mutex, the advance step or nothing: the clock stands still or goes forward to the arrival of the first pending job, and is not before it if the ready queue looked empty |
| `WorkerPoolRegions.Engine.TakeJob` | CSE4300/bereket/src/worker_pool.cpp:74-121 | the locked region before execution is the take step |
| `WorkerPoolRegions.Engine.FinishSlice` | CSE4300/bereket/src/worker_pool.cpp:126-158 | execution and the locked region after it are the finish step |

## Left out

- PageSimulators.SimulateMin: when a -1 comes after all frames have been filled the count is shown to be some schedule's, not when it is the least one; that depends on which pages are used before the next fault.
- QueueSimulators.SimulateLru: likewise, not when it is still that of LRU.
- SrtfSimulator.Srtf: requires bursts from 1 to INT_MAX - 1, because with any other burst the loop does not end (`SrtfSimulator.NeverEnds`); the clock's overflow after 2147483647 ticks is not modelled.
- MemoryManager.MemoryManager.VirtualToPhysical: the range check on the physical address at line 83 is not a branch of the model; the contract shows that it never fires.
- MemoryManager.MemoryManager.constructor: overflow of frames times page size is not modelled; 0 frames or a page size below 1 are excluded because eviction and division are then undefined.
- LinkedQueue.Queue: the linked queue is proved against sequences on its own; the simulator class keeps its queues as sequences of thread indices, so sharing of nodes between queues is not modelled.
- LinkedQueue.Queue.PopSmallest: keys are required to be at most INT_MAX, which their machine type guarantees.
- MulticoreSimulator.Simulator.Run: interrupts are off, as termination then follows from the work left; with interrupts `RunInterrupted` gives the whole course of any number of turns, not termination. On several cores which threads finish depends on the policy, so there the condition on the workload is necessary in one form and sufficient in another.
- FairShare.Fairness: weights are abstract and positive, so the weight table and its interpolation with `pow` are not modelled, nor is the rounding of doubles.
- FairSimulator.CfsSim.Simulate: waiting time is accounted from admission, as the code does; the delay between arrival and admission is in no recorded figure, and is bounded by one dispatch (`FairHistory.AdmittedPromptly`).
- PrioritySimulator.WinSim.Simulate: requires arrivals of at least 0, without which the first arrivals are admitted late; queue nodes are not modelled as heap cells.
- WorkerPoolSafety.BreakMeansCompleted: safety only. The flag is stored and notified without the mutex, so no worker's wake-up and no termination of the threads is claimed.
- WorkerPoolSafety.DispatchCount: reals instead of floats, so the effect of rounding on the last slice is not modelled.
- WorkerPool.Take: the FCFS, SJF and priority policies are an arbitrary choice of a ready job; which one they choose is not modelled.
- Makespan and utilisation figures of the worker pool: the earliest-start test in `scheduler_engine.cpp` can be overwritten by a later start.
- Averages, logging, traces, Gantt printing, CSV files, prompts and menus: output only.
- The other schedulers of `cpusim.c` and the FCFS, SJF and RR simulators of the remaining projects: easier duplicates.
- Kernel copies, OS/161 programs, BPF schedulers, neural-network and serial-line projects: not part of this model.
