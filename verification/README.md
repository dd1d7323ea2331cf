# Verification of the allocation recorder, replayers and size-class optimisers

The repository records the allocator calls of a process, turns the recording into concurrent
replay programs, imitates it with a synthetic workload, and chooses size classes from live
histograms. This project models its four hard cores in Dafny and proves what they guarantee for
every trace, every schedule, every allocator answer and every hash function. `dafny verify
dfyconfig.toml` checks all of it.

**Native replay** (`TraceCompiler`, `TraceMeaning`, `ReplayProtocol`, `ReplayTheorems`,
`SlotUsage`, `NativeImage`, `NativeRuntime`). A totally ordered trace is compiled into
per-thread operation streams that hand objects over through (slot, generation) pairs. The
compiler is a class with the source's dictionaries, proved against a fold. What a trace *means*
is defined without slots or generations: `Holder` scans the records backwards for the event
that last published an address. The runtime is a state machine over the atomic steps of
`execute_operation` with a nondeterministic allocator (section 7.22.3 of ISO/IEC 9899:2011).
Main results: in every run of every accepted trace each `free`/`realloc` gets exactly the
pointer its matched predecessor published, never a stale or freed one; a slot has one user at a
time; reusing a slot never waits for another thread; no reachable state is stuck and every run
ends with every operation executed once; nothing leaks while the allocator agrees with the
trace. The written image is a stable partition that the loader accepts, and the threads that
walk it refine the state machine.

**Trace preprocessing and epoch barrier of `replay_main.c`** (`ObjectMap`, `EpochCompiler`,
`EpochBarrier`, `EpochTheorems`, `EpochProgress`, `LateWorkers`, `EpochPlan`). The
open-addressing map with cluster reinsertion is a finite map; the preprocessed program never
waits for a later epoch; the barrier leaves an epoch only when every worker has executed exactly
what lies before its end. From the records of a trace in time order: the replay completes in
every run if and only if no epoch boundary separates the starts of its workers.

**Hole statistics** (`SizeClasses`, `LiveHistogram`, `LiveTable`, `HookProtocol`, `HookTable`).
The tombstone table of a shard is a partial map and every counter the sum over it, without
underflow; the array of shards refines the protocol of hooked calls, in which for any
interleaving an entry names a held address with its size. The histogram determines the hole of
every rule over its boundaries exactly, although the offline tool takes the minimum on
aggregates.

**Size-class optimisers** (`BoundarySelection`, `PageAwareSchemes`, `HoleOptimizer`). Both
dynamic programs return the true optimum over rules: the lexicographically least (cost, list)
among all legal ones, and the least hole for every class count at once. Solving the two regions of a
scheme separately is optimal for the whole.

**Synthetic workload** (`DescriptorProtocol`, `DescriptorOwnership`, `DescriptorMemory`,
`QuotaArithmetic`, `SyntheticWorker`, `WaveProtocol`, `WaveRace`, `WaveProfile`,
`ProfileAnalysis`, `PhaseLayout`, `WaveScan`, `TraceProfile`). Under every interleaving of the
compare-and-swap steps each descriptor is in exactly one place; a run that does not fail makes
exactly the profiled calls and publishes exactly the profiled routes; once all workers of a wave
have generated, every inbound stack covers its worker's debt.

**Event log** (`EventLog`, `EventWriter`, `RplyConverter`, `ThreadMap`). Cut off anywhere, the
log converts to exactly the committed events of the chosen process, untorn and in slot order.

`NativeFormat` and `Wrappers` hold shared constants and result types.

## Where the code and its claims differ

* `trace_to_native.py:149-152`: "Runtime slot memory is proportional to peak per-worker liveness,
  not total calls." A slot goes to the thread that *freed* it, so a producer whose objects
  another thread frees never gets one back: n rounds need n slots with one object live at a time
  (`ReplayTheorems.RemoteFreesNeverRecycle`). For every trace the number of slots is the sum over
  threads of the largest surplus of starts over retirements (`SlotUsage.SlotsArePeaks`). That
  surplus is the thread's liveness after every prefix if and only if the trace never frees or
  reallocates an object that another thread published (`SlotUsage.SurplusIsLiveness`); then the
  slots are the threads' peak liveness added up (`SlotUsage.SlotsArePeakLiveness`).
* A worker of `replay_main.c` that is launched after the first announced epoch starts with
  `seen_epoch = 0` and can arrive for an epoch it did not see announced. The arrival count is
  right in every run if and only if all workers start inside the same epoch
  (`LateWorkers.CountsExactlyWhenTogether`), and the replay completes in every run under exactly
  the same condition (`LateWorkers.CompletesExactlyWhenTogether`; from the records,
  `EpochPlan.ReplayCompletesExactly`). Otherwise some run leaves the controller waiting for ever.
* `finish_debts` looks at the inbound stack and reads the done count in two steps. A worker can
  see its stack empty, then the last other worker pushes what it waits for and is counted, and
  the test ends the run with "remote-free route exhausted" although the objects are there. Where
  descriptors last this is the only way to fail (`WaveProtocol.FailureIsStale`), and it can
  happen if and only if some worker must wait for objects of the same wave
  (`WaveRace.NeverFailsExactly`).
* A release that the hook does not record, because its statistics are suppressed or not ready,
  leaves the address in the table if it has an entry, and when the address is allocated again its
  insertion meets the old entry (`HookProtocol.StaleEntry`). The table is right throughout a run
  if and only if no such release is missed (`HookProtocol.RightUnlessLost`).
* `omap_put` overwrites an address that is already live; the map is proved to do just that.
* `live_table_remove_locked` matches a tombstone when it is asked for address 1; a free of that
  address then takes a removed object's share out of the counters a second time
  (`LiveTable.Shard.RecordFree` says exactly when). No allocator returns it.
* `thread_map_put` refuses a new thread once no cell of the map is empty, although deleted
  cells are free (`ThreadMap.Map.Put`), so as many short-lived threads as there are cells wear it
  out (`ThreadMap.WornOut`).

## Model

| member | source | states |
|---|---|---|
| TraceCompiler.Compiler.constructor | trace_to_native.py:146-160 | the loop starts with no live object, no slot and no thread |
| TraceCompiler.Compiler.AcquireSlot | trace_to_native.py:162-174 | pops the thread's most recently freed slot with its next generation, or a new slot; fails exactly on the two overflows |
| TraceCompiler.Compiler.ReleaseSlot | trace_to_native.py:176-177 | pushes the slot on the freeing thread's list and changes nothing else |
| TraceCompiler.Compiler.RememberLive | trace_to_native.py:179-187 | records the address unless it is already live, which is an error |
| TraceCompiler.Compiler.ObtainSlot | trace_to_native.py:219-226 | a failed allocation gets no slot; a successful one gets a slot and becomes live on it |
| TraceCompiler.Compiler.TransformFree | trace_to_native.py:238-265 | matched, unmatched and overflowing frees, with the whole new state |
| TraceCompiler.Compiler.TransformReallocNull | trace_to_native.py:268-281 | realloc of NULL is an allocation |
| TraceCompiler.Compiler.TransformRealloc | trace_to_native.py:267-330 | moves, failures that keep the old object live, realloc to nothing, and unmatched reallocs |
| TraceCompiler.Compiler.TransformCall | trace_to_native.py:218-330 | dispatch on the function with the whole new state |
| TraceCompiler.Compiler.TransformRecord | trace_to_native.py:190-334 | one record: lifecycle records are skipped, unsupported ones and timestamp overflow rejected, otherwise one operation is appended and counted |
| TraceCompiler.Compiler.TransformTrace | trace_to_native.py:136-337 | the mutating loop computes the fold over the whole trace, or its first error |
| TraceCompiler.FailureSticks | trace_to_native.py:190-334 | once a prefix is rejected every longer trace is rejected with the same error |
| TraceMeaning.HolderDefines | trace_to_native.py:319-325 | the last publisher of an address did not retire it |
| TraceMeaning.LiveSlotsDiffer | trace_to_native.py:162-187 | two live addresses never share a slot |
| TraceMeaning.LiveSlotNotFree | trace_to_native.py:149-177 | a live slot is on no thread's free list |
| TraceMeaning.FreeListsDisjoint | trace_to_native.py:149-177 | no slot is on two free lists, or twice on one |
| TraceMeaning.KeepObtain | trace_to_native.py:219-226 | starting an object on an acquired slot keeps the dictionaries in step with the trace's meaning |
| TraceMeaning.KeepRetire | trace_to_native.py:239-265 | so does ending an object |
| TraceMeaning.KeepRealloc | trace_to_native.py:307-330 | so does moving or keeping one |
| TraceMeaning.CompileConsistent | trace_to_native.py:189-334 | for every accepted trace the live dictionary is exactly the set of addresses with a holder, each on the slot and generation its holder published, and every operation is linked to its trace-matched predecessor |
| ReplayProtocol.ChainOrder | trace_to_native.py:162-177 | generations grow strictly along a slot |
| ReplayProtocol.KeepWait | native_replay_runtime.c:247-258 | ending a wait keeps the invariant |
| ReplayProtocol.KeepLoad | native_replay_runtime.c:259-260 | the pointer loaded after the wait is the predecessor's outcome |
| ReplayProtocol.KeepCall | native_replay_runtime.c:303-363 | every allocator answer, including failure and realloc to nothing, keeps heap and slots in correspondence and never frees a stale pointer |
| ReplayProtocol.KeepStorePointer | native_replay_runtime.c:237-239 | the first store of publish_slot keeps the invariant |
| ReplayProtocol.KeepStoreGeneration | native_replay_runtime.c:240-242 | the second store hands the slot to its next operation only |
| ReplayProtocol.StepKeeps | native_replay_runtime.c:303-363 | every atomic step of every thread keeps the invariant |
| ReplayProtocol.RunInv | native_replay_runtime.c:404-431 | the invariant holds in every state of every run |
| ReplayTheorems.CompiledProgram | trace_to_native.py:189-334 | the compiler's output is a program the protocol is safe for |
| ReplayTheorems.CompiledSerialNumbers | trace_to_native.py:162-177 | the i-th operation compiled onto a slot waits for generation i - 1 and publishes i |
| ReplayTheorems.MeaningPreserved | native_replay_runtime.c:303-363 | in every run of every accepted trace, the pointer a free or realloc passes to the allocator is the outcome of the event that, by the trace alone, last published its address |
| ReplayTheorems.NeverFaults | native_replay_runtime.c:322-354 | that pointer is always NULL or currently allocated: no double free, no stale pointer |
| ReplayTheorems.ConsumersAreMatched | trace_to_native.py:238-330 | an operation consumes an object exactly when the trace has one live at its address |
| ReplayTheorems.SlotExclusive | native_replay_runtime.c:232-261 | although only `>=` is tested, an operation past its wait sees exactly its generation, and no other operation on the slot is under way |
| ReplayTheorems.ReuseNeverWaits | native_replay_runtime.c:310-313 | when a thread reaches an allocation on a reused slot the wait is already satisfied |
| ReplayTheorems.StepDecreases | native_replay_runtime.c:404-431 | every step uses up part of a finite budget |
| ReplayTheorems.EarliestCanStep | native_replay_runtime.c:404-431 | in every reachable state the earliest unfinished operation in trace order, with all earlier ones done, can itself step |
| ReplayTheorems.RunsComplete | native_replay_runtime.c:404-431 | every run is bounded, and it is stuck if and only if every operation is done |
| ReplayTheorems.NoLeaks | native_replay_runtime.c:310-354 | while the allocator agrees with the trace no object is abandoned |
| ReplayTheorems.ConservesLiveObjects | trace_to_native.py:336-337 | a finished replay that agreed with the trace leaves exactly as many objects as addresses are live at the end of the trace |
| ReplayTheorems.LiveHasObject | trace_to_native.py:320-325 | each of those addresses owns an allocated object |
| ReplayTheorems.ObjectHasAddress | trace_to_native.py:320-325 | and each object that is not abandoned belongs to one |
| ReplayTheorems.RemoteFreesNeverRecycle | trace_to_native.py:149-152 | producer and consumer threads use a new slot per round, with one object live at a time |
| SlotUsage.CallPool | trace_to_native.py:162-177 | a new slot is taken exactly when the thread has started more objects than it has ended and more than ever before |
| SlotUsage.SlotsArePeaks | trace_to_native.py:149-177 | for every accepted trace the number of slots is the sum over threads of their largest surplus of starts over ends |
| SlotUsage.OwnedIsSurplusAndDrift | trace_to_native.py:254-256 | for every accepted trace and thread, the live objects the thread owns are its surplus plus what remote releases have shifted to or from it |
| SlotUsage.SurplusIsLiveness | trace_to_native.py:149-152 | after every prefix each thread's surplus is the number of live objects it owns, if and only if no free or realloc of the trace releases an object that another thread published |
| SlotUsage.RemotesAreCounted | trace_to_native.py:254-256 | remote_free and remote_realloc together count exactly those releases |
| SlotUsage.CountersTellRemotes | trace_to_native.py:247-330 | so both counters are zero if and only if there is none |
| SlotUsage.SlotsArePeakLiveness | trace_to_native.py:149-152 | if the trace has no remote release, the number of slots is the sum of the threads' peak liveness |
| NativeImage.CompiledThreads | trace_to_native.py:204-207 | the compiler's thread table lists every thread once with its number of operations |
| NativeImage.Ranges | trace_to_native.py:356-359 | each thread's range starts where the previous ends |
| NativeImage.Scatter | trace_to_native.py:391-403 | the in-place scatter leaves all streams one after the other, each in trace order |
| NativeImage.WriteImage | trace_to_native.py:340-407 | the image holds exactly the compiled operations, each thread with its recorded cpu, and the time range of the header; it is refused exactly when the operations exceed uint32 |
| NativeImage.RangeIsStream | trace_to_native.py:398-403 | a thread's range is its own operations in trace order |
| NativeImage.RangesTile | trace_to_native.py:356-359 | the ranges tile the operation area |
| NativeImage.ImageIsPermutation | trace_to_native.py:391-403 | every spooled operation is written to exactly one cell and nothing else is |
| NativeImage.RangeMeaning | native_replay_runtime.c:443-448 | the overflow-safe range test holds if and only if the elements fit |
| NativeImage.WrittenImageLoads | native_replay_runtime.c:485-511 | the loader's checks accept every written image |
| NativeRuntime.IndexOfRank | native_replay_runtime.c:416-417 | the c-th operation of a thread's range is its c-th in the trace |
| NativeRuntime.AtTurn | native_replay_runtime.c:416-417 | the operation a worker is at is one whose turn it is |
| NativeRuntime.MoveRefines | native_replay_runtime.c:416-431 | a protocol step on that operation moves only this worker |
| NativeRuntime.AllReturned | native_replay_runtime.c:416-441 | all workers have returned if and only if every operation is done |
| NativeRuntime.MemoryMeansTrace | native_replay_runtime.c:303-363 | end to end: a worker walking its range of the written image passes the allocator the outcome of the event that, by the trace alone, last published the address |
| NativeRuntime.MemoryIsSafe | native_replay_runtime.c:322-345 | the pointer a worker is about to free or reallocate is NULL or allocated |
| NativeRuntime.Runtime.constructor | native_replay_runtime.c:498-512 | the loaded image starts in the protocol's initial state |
| NativeRuntime.Runtime.TestGeneration | native_replay_runtime.c:247-250 | one test of the waiting loop is a protocol step, or changes nothing |
| NativeRuntime.Runtime.LoadPointer | native_replay_runtime.c:259-260 | the pointer load is a protocol step |
| NativeRuntime.Runtime.CallAllocator | native_replay_runtime.c:303-363 | the allocator call is a protocol step for every answer |
| NativeRuntime.Runtime.StorePointer | native_replay_runtime.c:237-239 | the pointer store is a protocol step |
| NativeRuntime.Runtime.StoreGeneration | native_replay_runtime.c:240-242 | the generation store is a protocol step and moves the worker on |
| NativeRuntime.Runtime.Publish | native_replay_runtime.c:240-242 | writes the slot's generation in place and no other word |
| ObjectMap.Recut | replay_main.c:431-458 | probe paths do not depend on where the circle is cut open |
| ObjectMap.ReinsertKeeps | replay_main.c:443-452 | one turn of cluster reinsertion moves the gap one cell on |
| ObjectMap.GapCloses | replay_main.c:444-452 | when reinsertion meets an empty cell every remaining key is reachable again |
| ObjectMap.LandsOnKey | replay_main.c:389-402 | probing cannot miss a key whose path has no gap |
| ObjectMap.EmptyCell | replay_main.c:427-434 | a map with room has an empty cell for every probe to stop at |
| ObjectMap.Absent | replay_main.c:434-457 | a probe that meets an empty cell has shown the key absent |
| ObjectMap.Table.Alloc | replay_main.c:357-371 | an empty map of at least 1024 cells |
| ObjectMap.Table.PutRaw | replay_main.c:389-410 | binds the address, overwriting a live one, and writes one cell |
| ObjectMap.Table.Resize | replay_main.c:412-423 | same map in a larger table |
| ObjectMap.Table.Put | replay_main.c:425-429 | binds the address for every map and hash function, growing at seven tenths |
| ObjectMap.Table.Reinsert | replay_main.c:444-452 | taking a key out and putting it back keeps the map |
| ObjectMap.Table.Take | replay_main.c:431-458 | removes exactly the address and returns its entry, or reports it absent |
| EpochCompiler.Preprocessor.constructor | replay_main.c:1803-1806 | empty live map, no slot, no operation |
| EpochCompiler.Preprocessor.Free | replay_main.c:1876-1911 | frees of NULL, unmatched and matched addresses, with the whole new state |
| EpochCompiler.Preprocessor.Realloc | replay_main.c:1913-1992 | every realloc case, including the failed one that puts the entry back |
| EpochCompiler.Preprocessor.StartObject | replay_main.c:1853-1872 | a new slot, an operation and a live entry, or slot overflow |
| EpochCompiler.Preprocessor.Record | replay_main.c:1808-1993 | one record with the whole new state |
| EpochCompiler.Preprocessor.Preprocess | replay_main.c:1808-1993 | the loop over the open-addressing map computes the fold over a mathematical map |
| EpochCompiler.CompiledProgram | replay_main.c:1843-1992 | every wait is for a generation an earlier operation publishes no later in time, and operations on a slot wait for increasing generations |
| EpochCompiler.CompiledInTimeOrder | replay_main.c:1900-1977 | on time-ordered records the operations are in time order |
| EpochTheorems.LeavesWhenAllArrived | replay_main.c:1423-1425 | an arrival count that has reached the target means every launched worker has arrived and executed exactly what lies before the end |
| EpochTheorems.PublishesNext | replay_main.c:933-936 | a publishing operation raises its slot by exactly one |
| EpochTheorems.StepKeeps | replay_main.c:1401-1470 | every step of controller and workers, short of a late launch, keeps the invariant |
| EpochTheorems.RunInv | replay_main.c:1401-1470 | it holds in every state of every run |
| EpochTheorems.KeepInside | replay_main.c:1085-1124 | inside an epoch every worker step keeps the invariant, also when the arrival count is off by any fixed number |
| EpochTheorems.FirstBatch | replay_main.c:1401-1415 | the workers launched before the first announcement start inside one epoch, which ends before the next worker starts |
| EpochTheorems.AllLaunched | replay_main.c:1404-1413 | workers that start inside the same epoch are all launched before the first announcement |
| EpochTheorems.EpochsAreExact | replay_main.c:1423-1425 | whenever the controller leaves an epoch every worker has executed exactly its operations before the epoch's end |
| EpochProgress.SomeoneMoves | replay_main.c:897-931 | while an operation of the epoch is unexecuted some worker can step |
| EpochProgress.AbsentMoves | replay_main.c:1094-1121 | while some worker has not arrived, it or the worker it waits for can step |
| EpochProgress.NeverStuck | replay_main.c:1401-1470 | a reachable state that has not ended has a next step |
| EpochProgress.StepDecreases | replay_main.c:1401-1470 | every step decreases a measure |
| EpochProgress.DoneMeansExecuted | replay_main.c:1450-1470 | when the controller is done every operation has been executed |
| EpochProgress.ReplayCompletes | replay_main.c:1366-1475 | every run is bounded, and it is stuck if and only if the controller is done and every operation has been executed |
| LateWorkers.CountsExactlyWhenTogether | replay_main.c:1088-1121 | the arrival count equals the number of workers that have arrived for the announced epoch, in every run, if and only if all workers start inside the same epoch |
| LateWorkers.ReachLate | replay_main.c:1401-1436 | unless all workers start inside the same epoch, every run can be continued to a launch after an announcement |
| LateWorkers.Miscount | replay_main.c:1088-1121 | from any such launch the count can go wrong: the stale arrival is counted for the next epoch, or wiped by an announcement that still waits for the worker |
| LateWorkers.Relaunch | replay_main.c:1401-1425 | a worker left behind between epochs puts the next count one ahead, or one behind if it is finishing |
| LateWorkers.Hang | replay_main.c:1423-1425 | one arrival short the controller can only wait for ever |
| LateWorkers.LagsOn | replay_main.c:1417-1436 | one arrival ahead the controller leaves early, epoch after epoch, until the late worker finishes and the replay hangs |
| LateWorkers.SomeRunHangs | replay_main.c:1401-1470 | unless all workers start inside the same epoch some run waits for ever |
| LateWorkers.CompletesExactlyWhenTogether | replay_main.c:1366-1475 | every run that cannot go on has ended with all operations executed, if and only if all workers start inside the same epoch |
| LateWorkers.LateWorkerHangs | replay_main.c:1091-1102 | a worker launched in the second epoch can leave the controller waiting for ever |
| EpochPlan.ScanRecords | replay_main.c:1808-1858 | the loop keeps the first and last time and each thread's lifetime as the fold over the records does |
| EpochPlan.EpochsCover | replay_main.c:1374-1378 | the epochs reach beyond the last record, by at most one epoch |
| EpochPlan.OpsAreSeen | replay_main.c:1857-1916 | every operation belongs to a registered thread whose first call is no later |
| EpochPlan.PlanExists | replay_main.c:1366-1378 | every trace that compiles has a plan: workers sorted by start, then by first appearance, and the epochs of its span |
| EpochPlan.PlanIsWellFormed | replay_main.c:1343-1378 | the plan of a trace in time order that fits 64 bits meets every assumption of the barrier |
| EpochPlan.PlanHasLifetimes | replay_main.c:1343-1357 | if no call of a thread precedes its start record, every operation lies after its worker's start |
| EpochPlan.ReplayedEpochsAreExact | replay_main.c:1401-1425 | from the records: whenever the controller leaves an epoch every worker has executed exactly its operations before the epoch's end |
| EpochPlan.CompiledWaitsStayInEpoch | replay_main.c:1843-1992 | from the records: what an operation waits for is published in the same epoch or an earlier one |
| EpochPlan.ReplayEnds | replay_main.c:1366-1475 | from the records: every run is bounded, and it is stuck if and only if the controller is done with every operation executed |
| EpochPlan.ReplayCompletesExactly | replay_main.c:1366-1475 | from the records: the replay completes in every run if and only if no epoch boundary separates the starts of its workers |
| SizeClasses.BoundariesIncrease | malloc_hole_hook.c:307-333 | the 176 boundaries increase strictly |
| SizeClasses.SmallClassesIncrease | malloc_hole_hook.c:272-295 | so do the 160 small classes |
| SizeClasses.RoundsToLeastClass | malloc_hole_hook.c:1327-1369 | a small request rounds to the least class not below it, and its bucket is that class's index |
| SizeClasses.RoundsToLeastPage | malloc_hole_hook.c:1371-1379 | a larger one to the least multiple of 4096 not below it, and is refused exactly when that overflows |
| SizeClasses.SmallIndexIsLowerBound | malloc_hole_hook.c:1465-1494 | the branches agree with a lower-bound search of the whole table |
| SizeClasses.LowerBoundUnique | malloc_hole_hook.c:1496-1506 | there is one lower bound |
| SizeClasses.LiveHistogramBucketIndex | malloc_hole_hook.c:1461-1507 | the index is the lower bound of the request in the 176-entry table, for every request |
| LiveHistogram.LabelIsClassRound | visualize_hole_csv.py:372-382 | the class labelled for a bucket is the class every request in it rounds to |
| LiveHistogram.SamePage | malloc_hole_hook.c:297-306 | up to 16384 no bucket crosses a page boundary |
| LiveHistogram.WholePages | malloc_hole_hook.c:331-332 | above 16384 every boundary is a whole number of pages |
| LiveHistogram.BucketIsExact | visualize_hole_csv.py:385-406 | the minimum on a bucket's aggregates is the sum of the minima over its requests |
| LiveHistogram.EnrichLiveRow | visualize_hole_csv.py:409-460 | for every multiset of live requests and every rule over the boundaries, the rebuilt hole is the sum over requests of min(class, page) minus request, in total and per class |
| LiveHistogram.MiniHole | malloc_hole_hook.c:1327-1380 | under the hook's own rule the page-aware hole of a request is the hook's hole |
| LiveHistogram.MiniTotal | visualize_hole_csv.py:459-465 | so the rebuilt hole is the hook's running counter |
| LiveTable.InsertRepresents | malloc_hole_hook.c:668-679 | writing an unoccupied probed slot adds exactly the pointer |
| LiveTable.RemoveRepresents | malloc_hole_hook.c:698-711 | a tombstone removes exactly its pointer and keeps all others reachable |
| LiveTable.Absent | malloc_hole_hook.c:698-712 | a search that meets an empty slot, or runs out of probes, has missed nothing |
| LiveTable.NoUnderflow | malloc_hole_hook.c:1528-1545 | no sum is below the share of a live request |
| LiveTable.CountsUpdate | malloc_hole_hook.c:1509-1545 | moving one request's share keeps every counter the sum over the live cells |
| LiveTable.SharesPresent | malloc_hole_hook.c:1528-1545 | a live request's share is present in every counter it is taken from |
| LiveTable.Shard.constructor | malloc_hole_hook.c:644-646 | an empty table with zero counters |
| LiveTable.Shard.Insert | malloc_hole_hook.c:649-681 | adds the pointer or changes nothing, and fails exactly when all its probes are occupied or the table is not ready |
| LiveTable.Shard.Remove | malloc_hole_hook.c:683-713 | removes exactly the pointer and returns its size, or reports it absent; for address 1 it answers from the first tombstone on the path and changes nothing |
| LiveTable.Shard.AddCounters | malloc_hole_hook.c:1509-1526 | all counters and one bucket take the request's share |
| LiveTable.Shard.SubtractCounters | malloc_hole_hook.c:1528-1545 | and give it back, with the wrap-around of unsigned counters |
| LiveTable.NothingWraps | malloc_hole_hook.c:1528-1545 | where the share is present nothing wraps |
| LiveTable.AfterRelease | malloc_hole_hook.c:1528-1545 | so taking out an entry leaves every counter the sum over the remaining cells |
| LiveTable.Shard.Track | malloc_hole_hook.c:1547-1567 | table and counters together: the entry with its share, or one more tracking failure |
| LiveTable.Shard.RecordFree | malloc_hole_hook.c:1643-1679 | removes the entry with its share and counts the free, untracked exactly when there was none; table and counters stay in step unless the address is 1 and its path meets a tombstone |
| LiveTable.Shard.Detach | malloc_hole_hook.c:1569-1607 | takes the entry and its share out and says what it was, with the same exception |
| LiveTable.Shard.RecordRelease | malloc_hole_hook.c:1626-1641 | counts the release, untracked exactly when nothing was detached |
| LiveTable.Shard.Restore | malloc_hole_hook.c:1609-1624 | puts a detached entry back with its share, or fails to |
| LiveTable.Shard.Read | malloc_hole_hook.c:1180-1200 | what is read under the lock are the sums over the shard's cells |
| LiveTable.AddHistogram | malloc_hole_hook.c:1188-1199 | adding a shard's histogram adds the sums of its cells |
| LiveTable.LoadLiveStatistics | malloc_hole_hook.c:1175-1229 | event counters are the sums over the shards, live counters and histogram the sums over all live cells; each is then scaled by the sample rate, and at rate 1 the columns are what the offline tool expects |
| LiveTable.ScaleLiveCounter | malloc_hole_hook.c:1164-1173 | value times rate, capped at the largest 64-bit number |
| HookProtocol.StepKeeps | malloc_hole_hook.c:2151-2270 | every part of every hooked call keeps the invariant |
| HookProtocol.RunInv | malloc_hole_hook.c:2151-2270 | it holds in every state of every run |
| HookProtocol.InsertsAreNew | malloc_hole_hook.c:2244-2253 | whenever an insertion runs its pointer is in no table |
| HookProtocol.ReleaseFindsEntry | malloc_hole_hook.c:2172-2191 | a release finds its entry if and only if the latest insertion of the pointer succeeded, and with the size asked for |
| HookProtocol.TableIsLive | malloc_hole_hook.c:2226-2254 | the table names only allocated addresses the client holds |
| HookProtocol.SkipIsHarmless | malloc_hole_hook.c:1408-1455 | a release that the hook does not record keeps the invariant if and only if its address has no entry |
| HookProtocol.RightUnlessLost | malloc_hole_hook.c:1990-2028 | with windows in which calls go unrecorded: every entry names a held address with its size throughout a run, if and only if no release of an object with an entry is missed |
| HookProtocol.StaleEntry | malloc_hole_hook.c:1643-1647 | a run in which a missed release leaves an entry that a second insertion of the same address then meets |
| HookTable.UnionSize | malloc_hole_hook.c:597-601 | the shards together hold as many entries as their union |
| HookTable.Hook.constructor | malloc_hole_hook.c:1090-1113 | empty shards in the protocol's initial state |
| HookTable.Hook.RecordSuccessfulAllocation | malloc_hole_hook.c:1696-1755 | one locked section on the pointer's own shard is the protocol's insertion, skipped when not recording, not sampled or not roundable |
| HookTable.Hook.RecordFreeAllocation | malloc_hole_hook.c:1643-1679 | likewise the removal of free; unrecorded, shards and protocol stay in step if and only if the address has no entry |
| HookTable.Hook.DetachLiveAllocation | malloc_hole_hook.c:1569-1607 | likewise the removal of realloc |
| HookTable.Hook.RestoreDetachedAllocation | malloc_hole_hook.c:1609-1624 | likewise putting it back after a failure |
| HookTable.Hook.Snapshot | malloc_hole_hook.c:1175-1229 | before scaling, the snapshot of all shards counts exactly the entries of the protocol's table |
| BoundarySelection.LessTotal | optimize_dfmalloc2_buckets.py:228-235 | the tie-break is a total order |
| BoundarySelection.ExtensionIsBest | optimize_dfmalloc2_buckets.py:223-236 | extending a best choice is best among routes with that last step |
| BoundarySelection.MinJoins | optimize_dfmalloc2_buckets.py:227-236 | keeping the better of two candidates is best for both sets of sources |
| BoundarySelection.FirstStates | optimize_dfmalloc2_buckets.py:201-209 | the first level holds the best one-step choices |
| BoundarySelection.NextStates | optimize_dfmalloc2_buckets.py:211-237 | each level holds the best choice for every allowed endpoint |
| BoundarySelection.SelectBoundaries | optimize_dfmalloc2_buckets.py:184-245 | the least (cost, list) among all index-increasing legal routes of exactly that length to the end, for any candidates; each of the three errors exactly when it applies |
| BoundarySelection.SelectedIsLeast | optimize_dfmalloc2_buckets.py:184-245 | over increasing candidates: the lexicographically least (cost, list) among all legal rules with that many classes ending at the end |
| BoundarySelection.FailsOnlyWithoutRule | optimize_dfmalloc2_buckets.py:239-244 | over increasing candidates it fails if and only if there is no such rule |
| PageAwareSchemes.PageAwareGroupCost | optimize_dfmalloc2_buckets.py:248-265 | the loop's sum, refused exactly when the endpoint is no boundary |
| PageAwareSchemes.EvaluatePageAwareRule | optimize_dfmalloc2_buckets.py:268-295 | every bucket rounded to the least class that holds it or to pages, refused exactly when the rule does not end at 14336 |
| PageAwareSchemes.EvaluateSplits | optimize_dfmalloc2_buckets.py:248-295 | the hole of a rule is the cost of its groups plus the fallback of the tail |
| PageAwareSchemes.PathCostJoins | optimize_dfmalloc2_buckets.py:526-553 | the cost of two regions is the sum of their costs |
| PageAwareSchemes.SchemeRuleSplits | optimize_dfmalloc2_buckets.py:523-559 | a rule of a scheme is a legal small rule followed by a legal large one |
| PageAwareSchemes.SplitIsSchemeRule | optimize_dfmalloc2_buckets.py:556-559 | and conversely |
| PageAwareSchemes.SchemeOptimal | optimize_dfmalloc2_buckets.py:477-574 | solving both regions independently gives the least (hole, list) over all rules with those counts, that alignment and a class at 1280 |
| PageAwareSchemes.ValidateBaseline | optimize_dfmalloc2_buckets.py:152-168 | accepts exactly the rules with a class at 1280, the last at 14336 and all steps multiples of 8 |
| PageAwareSchemes.SolveSmall | optimize_dfmalloc2_buckets.py:524-532 | the cache holds the selected small rule, or none exists |
| PageAwareSchemes.SolveLarge | optimize_dfmalloc2_buckets.py:534-554 | the cache holds the selected large rule, or none exists |
| PageAwareSchemes.OptimizeSchemes | optimize_dfmalloc2_buckets.py:477-574 | every scheme gets its optimal candidate with its own hole; or the error is that of the first scheme without a rule, its small region tried first, and all earlier schemes are solvable |
| PageAwareSchemes.AllocatorDetailRows | optimize_dfmalloc2_buckets.py:298-334 | the rows describe the groups and their holes add up to the rule's hole |
| HoleOptimizer.OptIsLower | optimize_hole_buckets.py:351-374 | no way of cutting is cheaper than the table entry |
| HoleOptimizer.TraceAttains | optimize_hole_buckets.py:377-387 | the back pointers spell out a cut that costs exactly the entry |
| HoleOptimizer.OptExists | optimize_hole_buckets.py:353-371 | an entry is finite exactly when that many groups fit |
| HoleOptimizer.OptIsMinimum | optimize_hole_buckets.py:318-388 | the entry is the true minimum and is attained |
| HoleOptimizer.MoreClassesHelp | optimize_hole_buckets.py:318-388 | with nonnegative counts one more class never costs more |
| HoleOptimizer.PrefixIsRounded | optimize_hole_buckets.py:304-315 | the prefix sums give the hole of a group |
| HoleOptimizer.FillLevel | optimize_hole_buckets.py:351-374 | one turn of the outer loop fills a column of costs and a row of back pointers |
| HoleOptimizer.Reconstruct | optimize_hole_buckets.py:378-386 | the walk along the back pointers yields the optimal rule and never meets a missing pointer |
| HoleOptimizer.OptimizeClasses | optimize_hole_buckets.py:318-388 | exactly the requested counts that fit, each with its exact optimum; each error exactly when it applies |
| HoleOptimizer.EvaluateRule | optimize_hole_buckets.py:391-415 | the cursor rounds every explicit bucket to the least class that holds it and adds the tail |
| HoleOptimizer.CutIsRule | optimize_hole_buckets.py:395-415 | the rule of a cut costs what the cut costs |
| HoleOptimizer.ValueIsEvaluation | optimize_hole_buckets.py:521-534 | the optimiser's value is the evaluation of its rule without the tail |
| HoleOptimizer.RuleIsCut | optimize_hole_buckets.py:318-388 | every increasing rule over the boundaries that ends at the last explicit one is the rule of a cut |
| HoleOptimizer.RuleIsOptimal | optimize_hole_buckets.py:324-415 | so the optimiser's rule has the least hole among all rules with that many classes |
| HoleOptimizer.RuleFits | optimize_hole_buckets.py:353-371 | and a number of classes for which any rule exists has an optimum |
| DescriptorOwnership.KeepTakePrivate | synthetic_mstress_runtime.c:432-436 | taking from the private list moves one descriptor into the hand |
| DescriptorOwnership.KeepPopSwap | synthetic_mstress_runtime.c:228-245 | a successful swap pops exactly the top, even when the tags have wrapped |
| DescriptorOwnership.KeepPushSwap | synthetic_mstress_runtime.c:247-259 | a successful swap pushes exactly the descriptor in hand |
| DescriptorOwnership.KeepIssue | synthetic_mstress_runtime.c:441-443 | a fresh descriptor of the worker's own range is issued |
| DescriptorOwnership.KeepAllocate | synthetic_mstress_runtime.c:481-504 | the descriptor carries the new object into the local array or to another thread |
| DescriptorOwnership.KeepReallocate | synthetic_mstress_runtime.c:456-470 | a local descriptor's object is replaced, or kept when refused |
| DescriptorOwnership.KeepRemoveLocal | synthetic_mstress_runtime.c:366-372 | local_remove takes out exactly one descriptor |
| DescriptorOwnership.KeepFree | synthetic_mstress_runtime.c:349-364 | the object leaves the heap with its descriptor going out of use |
| DescriptorOwnership.KeepRecycle | synthetic_mstress_runtime.c:335-347 | the descriptor returns to its owner's private list or goes to its stack |
| DescriptorOwnership.StepKeeps | synthetic_mstress_runtime.c:228-564 | every step of every worker keeps the invariant |
| DescriptorOwnership.RunInv | synthetic_mstress_runtime.c:598-681 | it holds in every state of every run |
| DescriptorOwnership.ExactlyOnePlace | synthetic_mstress_runtime.c:335-372 | in every reachable state the memory holds every descriptor in exactly one place |
| DescriptorOwnership.StaysWithOwner | synthetic_mstress_runtime.c:335-347 | a descriptor stays in its owner's range, whoever holds it |
| DescriptorOwnership.LocalFits | synthetic_mstress_runtime.c:500-504 | the local array never exceeds the capacity |
| DescriptorOwnership.FreesLive | synthetic_mstress_runtime.c:349-358 | the pointer passed to free is NULL or allocated |
| DescriptorOwnership.HeapIsInUse | synthetic_mstress_runtime.c:481-504 | every allocated object is the pointer of exactly one descriptor in use |
| DescriptorMemory.Memory.constructor | synthetic_mstress_runtime.c:788-813 | consecutive descriptor ranges, empty stacks and lists |
| DescriptorMemory.Memory.TakePrivateFirst | synthetic_mstress_runtime.c:432-436 | takes the head of the private list in place |
| DescriptorMemory.Memory.LoadHead | synthetic_mstress_runtime.c:230-230 | the head load of stack_pop |
| DescriptorMemory.Memory.FindEmpty | synthetic_mstress_runtime.c:232-235 | an empty stack: the worker issues a fresh descriptor, fails, or goes on |
| DescriptorMemory.Memory.ReadLink | synthetic_mstress_runtime.c:236-237 | the link read of stack_pop |
| DescriptorMemory.Memory.TryPop | synthetic_mstress_runtime.c:238-243 | the weak swap pops exactly the top or reloads the head |
| DescriptorMemory.Memory.StoreAllocation | synthetic_mstress_runtime.c:492-504 | the new object is stored and kept or sent off |
| DescriptorMemory.Memory.StoreReallocation | synthetic_mstress_runtime.c:459-470 | the object is replaced in place, or kept when refused |
| DescriptorMemory.Memory.TakeLocal | synthetic_mstress_runtime.c:366-372 | removal from the local array by moving its last entry |
| DescriptorMemory.Memory.FreeObject | synthetic_mstress_runtime.c:352-358 | the release |
| DescriptorMemory.Memory.RecycleObject | synthetic_mstress_runtime.c:335-347 | links the descriptor into the private list, or sends it to its owner |
| DescriptorMemory.Memory.LoadForPush | synthetic_mstress_runtime.c:249-249 | the head load of stack_push |
| DescriptorMemory.Memory.WriteLink | synthetic_mstress_runtime.c:251-251 | the link write of stack_push |
| DescriptorMemory.Memory.TryPush | synthetic_mstress_runtime.c:252-257 | the weak swap pushes exactly the descriptor in hand or reloads the head |
| QuotaArithmetic.ChooseFunction | synthetic_mstress_runtime.c:411-423 | for every random number a function with quota left is drawn and its quota alone decreases |
| QuotaArithmetic.FiresExactly | synthetic_mstress_runtime.c:632-662 | an accumulator fires exactly the wanted number of times |
| QuotaArithmetic.FiresEvenly | synthetic_mstress_runtime.c:632-662 | and is never ahead of an even spread nor a whole event behind |
| QuotaArithmetic.RouteTarget | synthetic_mstress_runtime.c:383-393 | the target of an ordinal, none exactly past the last |
| QuotaArithmetic.RoutesExact | synthetic_mstress_runtime.c:383-393 | the ordinals serve every target exactly its count of times |
| SyntheticWorker.Worker.constructor | synthetic_mstress_runtime.c:606-607 | no debt, no call, not failed |
| SyntheticWorker.Worker.AllocCall | synthetic_mstress_runtime.c:448-505 | one allocation call is made and counted, or the worker fails |
| SyntheticWorker.Worker.LocalFree | synthetic_mstress_runtime.c:507-516 | a local free is made or owed |
| SyntheticWorker.Worker.DrainLocal | synthetic_mstress_runtime.c:518-526 | paying local debts keeps made plus owed |
| SyntheticWorker.Worker.RemoteFree | synthetic_mstress_runtime.c:547-557 | a remote free is made or owed |
| SyntheticWorker.Worker.DrainOneRemote | synthetic_mstress_runtime.c:528-545 | paying one remote debt, or nothing to pay with |
| SyntheticWorker.Worker.RunPhase | synthetic_mstress_runtime.c:609-672 | fails only if descriptors run out or another worker fails; otherwise it issues exactly its quotas and remote frees and publishes along its routes |
| SyntheticWorker.Worker.FinishDebts | synthetic_mstress_runtime.c:559-587 | local debts become frees of NULL; remote debts are paid as objects arrive, and the worker gives up exactly at a look that finds none, with debts left, followed by a done count of all workers |
| SyntheticWorker.Worker.Run | synthetic_mstress_runtime.c:598-681 | fails only if descriptors run out, another worker fails or the settling gives up; otherwise function counts grow by exactly the summed quotas, remote frees are exactly the profiled ones once debts are paid, and each phase publishes exactly its profiled number along its routes |
| SyntheticWorker.PhaseEnds | synthetic_mstress_runtime.c:626-671 | with nothing left to draw every quota was met |
| SyntheticWorker.NoDebts | synthetic_mstress_runtime.c:559-587 | without debts every issued call has been made |
| SyntheticWorker.SettleMeans | synthetic_mstress_runtime.c:573-586 | settling gives up if and only if some look is empty with debts left and everybody done; it pays only when enough objects have arrived |
| SyntheticWorker.PublishedShare | synthetic_mstress_runtime.c:632-642 | over its phases a worker sends each target exactly its profiled share |
| WaveProtocol.KeepConserved | synthetic_mstress_runtime.c:425-428 | pushes to a stack equal objects taken, stacked and in hand after every step of every worker |
| WaveProtocol.StepKeeps | synthetic_mstress_runtime.c:598-681 | every step of every worker of a wave keeps the invariant |
| WaveProtocol.RunInv | synthetic_mstress_runtime.c:598-681 | it holds in every state of every run |
| WaveProtocol.StackCoversDebt | synthetic_mstress_runtime.c:573-578 | once all workers have finished generating without a failure, the stack of each holds its share less its frees plus its debt, so in a covered wave at least its debt |
| WaveProtocol.EndStacks | synthetic_mstress_runtime.c:674-677 | a wave that ends without a failure leaves on every stack what was sent and not freed |
| WaveProtocol.SeenTooEarly | synthetic_mstress_runtime.c:573-582 | whoever is testing the done count saw its stack empty before the last worker was done |
| WaveProtocol.FailureIsStale | synthetic_mstress_runtime.c:573-582 | in a covered wave with descriptors to spare, the first failure is always a worker giving up although its stack holds all it needs |
| WaveRace.DebtFree | synthetic_mstress_runtime.c:547-557 | workers that find their objects from the start never owe and never fail |
| WaveRace.SomeRunFails | synthetic_mstress_runtime.c:573-582 | a worker that must wait for objects of this wave can be made to give up on them |
| WaveRace.NeverFailsExactly | synthetic_mstress_runtime.c:559-587 | a covered wave never fails, in any run, if and only if no worker frees more objects of others than earlier waves left on its stack |
| WaveRace.TwoWorkersRace | synthetic_mstress_runtime.c:573-582 | for example one worker sends one object and the other gives up on it |
| WaveProfile.WaveFlow | rply_to_mstress.py:286-299 | the plans of a wave and what earlier ones left are the profile's routes and frees through its phases |
| WaveProfile.WaveIsCovered | synthetic_mstress_runtime.c:559-587 | every wave of an analysed trace is covered |
| WaveProfile.WaveHandsOver | synthetic_mstress_runtime.c:674-677 | a wave that does not fail leaves what the next one starts from |
| WaveProfile.RoutesLeadAway | rply_to_mstress.py:291-298 | no thread's routes lead back to it |
| WaveProfile.ProfiledWaveFails | synthetic_mstress_runtime.c:559-587 | a wave of an analysed trace never fails if and only if no worker must wait for objects of that wave |
| ProfileAnalysis.Analyzer.constructor | rply_to_mstress.py:218-229 | empty profile |
| ProfileAnalysis.Analyzer.Record | rply_to_mstress.py:263-321 | one record with the whole new state |
| ProfileAnalysis.Analyzer.FreeRecord | rply_to_mstress.py:286-299 | a remote free is counted for the freer and routed back to its origin's phase |
| ProfileAnalysis.Analyzer.ReallocRecord | rply_to_mstress.py:301-318 | every realloc case; a failed one keeps the object and its origin |
| ProfileAnalysis.RecordKeys | rply_to_mstress.py:263-321 | every record keeps each thread and phase's numbers within its call counts |
| ProfileAnalysis.AnalyzedKeys | rply_to_mstress.py:258-321 | published objects never exceed allocation calls, remote frees never exceed frees, routes add up to the published objects |
| ProfileAnalysis.RoutesCoverFrees | rply_to_mstress.py:286-299 | up to any phase a thread is sent at least as many objects as it frees remotely, and in the end exactly as many |
| ProfileAnalysis.ProfileIsWellFormed | rply_to_mstress.py:286-321 | the analysed profile satisfies every assumption of the runtime: quotas can be met, and routes name real threads and exactly the published objects |
| PhaseLayout.DistributePhases | rply_to_mstress.py:182-200 | every wave gets a phase, the total is exact, shares are quotas rounded down or up, and whoever gets one more has at least the remainder of whoever does not |
| PhaseLayout.LeftIsSmall | rply_to_mstress.py:190-194 | the floors leave over fewer phases than there are waves |
| PhaseLayout.InsertRanks | rply_to_mstress.py:195-197 | the ranking is largest remainder first |
| PhaseLayout.PhasesNondecreasing | rply_to_mstress.py:267-276 | later events are in the same phase or a later one |
| WaveScan.ScanLayout | rply_to_mstress.py:127-179 | counts and waves of the whole trace, the first unsupported record, or no allocator event; the accounting mismatch never occurs |
| WaveScan.CutsAreQuiet | rply_to_mstress.py:149-156 | where a wave begins every thread created earlier has been joined or detached |
| WaveScan.PendingIsRunning | rply_to_mstress.py:155-166 | a pending thread was created and not joined or detached since |
| WaveScan.WavesAddUp | rply_to_mstress.py:146-148 | the waves add up to the allocator calls |
| WaveScan.ScanSuitsPhases | rply_to_mstress.py:169-182 | the waves are nonempty and positive, as the phase distribution needs |
| TraceProfile.PhaseAt | rply_to_mstress.py:267-274 | the phase computed from wave and offset is the phase of the call's position |
| TraceProfile.NextPhase | rply_to_mstress.py:267-276 | the cursor over the waves yields each call's phase and moves one on |
| TraceProfile.AnalyzeTrace | rply_to_mstress.py:203-324 | the loop over a trace computes the profile of its allocator calls, each in the phase of its position, and tells whether the count of the first pass was right |
| TraceProfile.PhasedGrow | rply_to_mstress.py:267-274 | those phases never go back |
| TraceProfile.TraceRoutesCoverFrees | rply_to_mstress.py:182-321 | for the waves of the first pass and any phases dealt out to them, a thread is sent through any phase at least what it frees remotely, and in the end exactly that |
| EventLog.StepKeeps | malloc_free_hook.c:599-634 | every step of every writer keeps the invariant |
| EventLog.RunInv | malloc_free_hook.c:599-634 | it holds at every possible cut-off point |
| EventLog.CommittedIsWhole | malloc_free_hook.c:618-634 | a slot's sequence matches exactly when its event is committed, and the event is then whole |
| EventWriter.Mapping.constructor | malloc_free_hook.c:590-597 | a fresh zeroed mapping is an initial log |
| EventWriter.Mapping.ReserveSlot | malloc_free_hook.c:599-609 | the fetch-and-add claims the next index, if it lies within the capacity |
| EventWriter.Mapping.StoreField | malloc_free_hook.c:622-630 | one field store is one step of the log |
| EventWriter.Mapping.StoreSequence | malloc_free_hook.c:631-633 | the sequence store commits the event |
| EventWriter.Mapping.FlagOverflow | malloc_free_hook.c:611-615 | a full log is flagged before the process exits |
| RplyConverter.Convert | bin_to_rply.c:76-240 | exactly the committed events of the chosen process with known types, in slot order; the header is six times their number, every other slot is counted under one reason, and each error occurs exactly when it applies |
| RplyConverter.SkipSlot | bin_to_rply.c:157-193 | a skipped slot is counted once |
| RplyConverter.KeepSlot | bin_to_rply.c:184-199 | a converted slot is not counted as skipped |
| RplyConverter.CutOffShows | malloc_free_hook.c:599-634 | a log cut off at any point shows exactly its committed events |
| RplyConverter.CommittedIsCounted | malloc_free_hook.c:605-609 | every committed event lies below next_index |
| ThreadMap.WriteShows | malloc_free_hook.c:325-341 | writing the key's cell, or a free one on its path, binds exactly the thread |
| ThreadMap.DeleteShows | malloc_free_hook.c:379-384 | a deletion mark removes exactly its thread and keeps all others reachable |
| ThreadMap.Missed | malloc_free_hook.c:356-358 | a search that meets an empty cell, or runs round the table, has missed nothing |
| ThreadMap.Map.constructor | malloc_free_hook.c:83-96 | an empty map |
| ThreadMap.Map.Put | malloc_free_hook.c:315-346 | binds the thread on the first cell of its path not in use; refuses it if and only if it is new and no cell is empty |
| ThreadMap.Map.Get | malloc_free_hook.c:348-367 | the thread's instance, or 0 |
| ThreadMap.Map.Remove | malloc_free_hook.c:369-387 | removes exactly the thread, leaving a mark |
| ThreadMap.WornOut | malloc_free_hook.c:315-346 | after as many short-lived threads as there are cells, on the identity hash, the map is empty and has no empty cell, so that every thread is refused |

## Left out

What is modelled differently from the code:

- Weak memory, spinning and yielding: atomics are sequentially consistent steps, and a wait is a guard on a step.
- Time: timed waits, lateness, latency and access simulation are not modelled; every step may happen at any time.
- Integer width: counters and sums are unbounded, but what is taken from a live counter wraps at 64 bits. In the native replay slots, generations, timestamps and operation counts have the source's width and overflow errors; sequence numbers and stack tags wrap at 32 bits; size rounding overflows at `SIZE_MAX`. Generations of `replay_main.c` are unbounded.
- Floating point: averages, shares and hole sums are exact; `distribute_phases` ranks by exact remainders where the source subtracts floats.
- Hash functions are arbitrary, and so are random numbers, the allocator's answers and what other threads do.
- ReplayTheorems.NoLeaks: says nothing when the allocator disagrees with the trace; an object that the replay keeps where the trace had none is then abandoned when its slot is reused, as in the source.
- ReplayTheorems.ConservesLiveObjects: likewise for a replay whose allocator agreed with the trace.
- EpochPlan.PlanIsWellFormed: for records in time order, on others the source may wait for a later epoch; and for times and epoch ends that fit 64 bits.
- EpochPlan.Planned: the order of the workers is any result of sorting, as of the library's qsort; lifetimes, span and epoch size are computed on values.
- LateWorkers.CompletesExactlyWhenTogether: for traces in which no thread operates before its recorded start, like the count.
- LiveTable.Shard.Restore: for a pointer that is not in the table, as the protocol guarantees; the hook does not check.
- HookProtocol.ReleaseFindsEntry: for clients that release only what they hold and allocators that never return a live address.
- SyntheticWorker.Worker.Run: one worker; what it sees of the others is a list of looks, and a worker still waiting at its end is not finished. What the others can do is WaveProtocol.
- WaveProtocol.Step: calls of a worker come in any order, so that no schedule the random draws allow is left out; local frees and recycling do not touch the inbound stacks.
- WaveProfile.WaveOf: the targets are any that SyntheticWorker.Worker.Run may publish.
- ObjectMap.Table: the five parallel arrays of values are one array of entries.
- EpochBarrier: the controller loop is a state machine over its critical sections, not a method. HookTable has one method per critical section of a hooked call; the real allocator's part is a step of the protocol.
- HookProtocol: allocations that go unrecorded are insertions that fail; initialisation after a fork, which clears the table, is not modelled.
- DescriptorMemory, EventWriter and NativeRuntime have one method per atomic access; the loops around a failed swap or wait are the protocol's repeated steps.

What is not modelled:

- Loading and system calls: `dlsym`, `mmap`, affinity, process start, fork handling, thread-local keys, embedding and locating the image in the executable.
- File headers and struct packing, except the image layout and its range checks.
- `scan_timestamp_range`, reservoirs of size samples, live, peak and capacity computation in `analyze`.
- Statistics: per-function counts of the replayers, latency, progress, period counters of the hook.
- The unknown-free and synthetic-size modes of `replay_main.c`, its free-running mode and its watchdog.
- Knee choice, summary tables, validation data sets, reports, CSV, HTML and command lines.
- `mstress.c`, `replay_dump.c`, `rply_to_txt.c`, benchmarks, passthrough hooks and tests.
