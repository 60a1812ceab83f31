# A verified model of an early TVM

This project models the hard parts of an early TVM snapshot in Dafny and proves what they are for: the tensor IR with its
analysis and rewriting passes, a small multi-threaded runtime, and the RecordIO format. `dafny verify dfyconfig.toml` checks
everything.

## What is modelled

**Storage.** `StorageIR` has a statement IR in which a buffer has no contents when its allocation is entered and reading an
unwritten cell has no value. The visitor that linearises a program is a class with the scope stack of the original.
`StoragePlanner` is the linear scan with its two free lists, `StorageRewrite` proves by simulation that rewriting under any
good plan keeps the effect of the program, `StorageFit` that the rewritten program accesses only storage that is allocated
around the access and large enough, and `StorageMerge` sizes the merged allocations and puts the pass together.
`StorageSync` is the placement of barriers: the planner simulates a loop body twice and hands a head/barrier/tail summary to
the parent; the theorem is about all executions of all scopes, with any number of iterations. `StorageSyncPlans` says when
there is a plan and when loops may be skipped, `StorageSyncRaces` what it means for the addresses that threads touch, and
`StorageSyncEvents` that for whole programs at work, with loops inside loops, in terms of what a thread reads, writes and
waits for.

**Reduction across threads.** `Allreduce` emits the program of the tree reduction, and runs it on shared memory: within a
phase the threads' loads and stores interleave in any order, and in the warp phase the threads of a warp go in lockstep. It
also says which threads the device puts into one warp.

**RecordIO.** `RecordIO` is the escaping writer and the streaming reader; `RecordIOChunk` splits a chunk into parts that
synchronise on the heads of records. The constants are those of `recordio.h`: magic `0xced7230a`, flag in the top three bits,
length in the others, little-endian words.

**Integer reasoning.** `IntSet` evaluates expressions over intervals with symbolic ends, `BoundDeducer` inverts a comparison
into a bound on one variable, `Modular` is the congruence analysis, `Canonical` the sums with caches, and `Buffer` the index
simplifier and the two views of a buffer. Integers are unbounded and division truncates toward zero, as in C. The general
simplifier and its proofs of positivity are parameters that keep values; a failing check of the original is "no result".

**Transforms.** `LoopIR` has statements with scoped variables whose meaning is what a run shows: stores, allocations with
their sizes, evaluations, and parallel and vectorised loops. It also says when two programs are the same up to the names of
their variables. `Unroll` and `SSA` are the unroller and the renaming, `Vectorize` the vectoriser of expressions and the rewriting that gives each lane
private cells. `Reflection` saves a graph of heap objects by index and loads it into new objects.

**Runtime.** `ThreadBarrier` is a state machine over the atomic steps of the spinning barrier, `ParallelLaunch` the count of
pending tasks, `Rings` the byte ring and the task ring, `WorkspacePool` the best-fit pool, `ModuleImport` the import graph
with its look-up cache.

Code that works by changing fields is a class whose methods do the same; each is proved against a function or a predicate, and
the properties are lemmas about those.

## Where the code does not do what one would expect

The model follows the code, and a lemma says when exactly it does the expected thing.

- `canonical.cc` 271-287: the entry of `a < b` keeps the sum of `b - a` that was built to compare the sides. When the comparison
  is itself an operand, it counts as `b - a` (`Canonical.LessAsOperand`, `Canonical.LessPlusFalse`); it is right exactly where
  that is 0 or 1. A comparison of comparisons may so be taken for true (`Canonical.LessOfLess`, with an input in
  `Canonical.TwoTestsTaken`). `Canonical.CanonRight` holds for all expressions without such operands, which include all well-typed
  numbers (`Canonical.TypedNoTests`).
- `canonical.cc` 427: with loop levels, the check that equal values have equal levels can fail (`Canonical.LevelCheckFails`). It
  does so exactly if operands clash (`Canonical.CanonFailsIff`), and not where nothing can cancel below other operators than
  sums (`Canonical.OnlyAddsInsideGives`), without levels (`Canonical.CanonNoLevels`) or on linear expressions (`Canonical.CanonLinear`).
- `int_set.cc` 242-298: a negative factor or divisor exchanges the ends but not the infinities (`IntSet.NegativeScaleSoundIff`,
  `IntSet.NegativeDivSoundIff`); `IntSet.CombineSoundIff` shows that nothing else goes wrong.
- `int_set.cc` 296-310: remainders of negative numbers are negative in C, but not in their set (`IntSet.ModSoundIff`).
- `bound_deducer.cc` 111-133: a multiplier known to be 0 is inverted like a positive one (`BoundDeducer.MulInversionIff`). The
  interval then divides by it (`BoundDeducer.ZeroMultiplierDeduced`); it has a value exactly if there is no such multiplier
  (`BoundDeducer.BoundHasValue`).
- `modular.cc` 124: a multiple times a negative constant ends in a failed check (`Modular.NegativeFactorFails`), and so does a sum
  with an exact quotient by a negative constant (`Modular.NegativeDivisorFails`). `Modular.EvalModularGives` and
  `Modular.EvalModularIff` say for whole expressions when there is a result.
- `buffer.cc` 161-206: the search for product and remainder pairs is not exhaustive (`Buffer.PairStays`, `Buffer.NoPairLeft`).
- `buffer.cc` 234-240: a compact buffer scales its element offset, its stride view does not (`Buffer.StrideViewAgrees`).
- `storage_sync.cc` 84-123: the plan relies on barriers inside loops that may be skipped, and inside branches that may not be
  taken. Loops without barriers may be skipped in every program (`StorageSync.PlanSyncs`), all others may not
  (`StorageSyncPlans.SkippedLoopMissed`, with an input in `StorageSyncPlans.SkippedShiftMissed`); for branches see
  `StorageSyncPlans.UntakenBranchMissed`.
- `storage_access.cc` 126-143: else branches are not visited (`StorageSyncPlans.ElseMissed`).
- `storage_sync.cc` 125-141: equal index expressions count as one address, also in two iterations
  (`StorageSyncRaces.ReadWriteFreeIff`, with an input in `StorageSyncRaces.SlideMissed`), and two writes never get a barrier
  (`StorageSyncRaces.WritesUnsynced`, with an input in `StorageSyncRaces.WritesMeet`).
- `lower_thread_allreduce.cc` 253-266: no barrier follows the steps in lockstep, so the load of another warp may come too early.
  All loads are right exactly if there are no such steps or every group is in one warp (`Allreduce.LoadsRightIff`, with an
  input in `Allreduce.SixtyFourThreads`). And the threads in lockstep only share a warp if their rows fit into warps
  (`Allreduce.TogetherIff`, with an input in `Allreduce.ThirtyThreads`).
- `ring_buffer.h` 76-89: `ReadWithCallback` does not move the head (`Rings.CallbackLeavesRest`, `Rings.CallbackMayLeaveFront`).
- `thread_pool.cc` 181-206: with the signal to exit, an empty queue yields a stale task and its count wraps around
  (`Rings.TaskQueue.Pop`).

## Model

| member | source | states |
|---|---|---|
| `StorageIR.LinearAccessPatternFinder.TouchBuffer` | src/pass/storage_rewrite.cc:95-105 | an access is recorded in the scope in which its buffer was allocated; it fails exactly when that scope is not open |
| `StorageIR.LinearAccessPatternFinder.VisitAllocate` | src/pass/storage_rewrite.cc:55-66 | the visitor's list grows by the pattern of the allocation and its body; it fails exactly if a buffer inside is allocated twice or was allocated before |
| `StorageIR.LinearAccessPatternFinder.VisitFor` | src/pass/storage_rewrite.cc:122-134 | a loop is bracketed by two points, the second of which carries every access from inside to buffers of the enclosing depth |
| `StorageIR.LinearAccessPatternFinder.VisitAttr` | src/pass/storage_rewrite.cc:135-152 | only the outermost thread extent opens a scope; a parallel launch point always does |
| `StorageIR.GetLinearSeq` | src/pass/storage_rewrite.cc:51-54 | the stack-based visitor computes the recursively defined linear pattern of every well-scoped program, and none of its checks fails |
| `StorageRewrite.LinearTouched` | src/pass/storage_rewrite.cc:95-134 | everything touched in the pattern of a statement is used by it and allocated at its depth or deeper |
| `StorageRewrite.LiveThroughBody` | src/pass/storage_rewrite.cc:122-134 | what is live when a loop body starts is still live when it ends, so the next iteration finds it |
| `StorageRewrite.UsedLive` | src/pass/storage_rewrite.cc:67-105 | every buffer that a statement uses is live at its point: it was allocated before and is touched there or later |
| `StorageRewrite.LiveApart` | src/pass/storage_rewrite.cc:208-237 | two buffers that are live at one point never have the same storage in a good plan |
| `StorageRewrite.EvalSim` | src/pass/storage_rewrite.cc:218-227 | every load of the rewritten program sees the value that the original load sees |
| `StorageRewrite.StoreSim` | src/pass/storage_rewrite.cc:208-217 | a store to the shared storage of a buffer keeps the contents of every other live buffer |
| `StorageRewrite.ExecAttach` | src/pass/storage_rewrite.cc:338-350 | storage attached to a scope is allocated around its body exactly once per entry, and holds nothing when the body starts |
| `StorageRewrite.ExecSim` | src/pass/storage_rewrite.cc:208-317 | simulation over every statement: from memories that agree on the live buffers, the rewritten statement runs whenever the original does and ends in memories that agree on what is live then |
| `StorageRewrite.RewriteSound` | src/pass/storage_rewrite.cc:185-207 | under any good plan the rewritten program does to every buffer outside of it what the original did, from every memory in which the original runs |
| `StoragePlanner.FindFreeLocation` | src/pass/storage_rewrite.cc:463-474 | the reverse scan frees each buffer at its last touch, once and nowhere else |
| `StoragePlanner.AddAlloc` | src/pass/storage_rewrite.cc:544-598 | giving a buffer to an entry whose buffers are all dead keeps buffers of one entry from being live together |
| `StoragePlanner.LastTouchDead` | src/pass/storage_rewrite.cc:500-529 | after the last touch of a buffer its whole entry is dead, because at most one buffer of an entry still has touches to come |
| `StoragePlanner.FreedApart` | src/pass/storage_rewrite.cc:520-528 | the entries freed at one point are different, and none of them is free already |
| `StoragePlanner.StoragePlanRewriter.PlanNewScope` | src/pass/storage_rewrite.cc:475-499 | opens or closes a thread scope; closing it takes exactly the entries attached to it out of both free lists; fails exactly inside another scope |
| `StoragePlanner.StoragePlanRewriter.SearchUp` | src/pass/storage_rewrite.cc:566-574 | the first free constant entry, from the wanted size up, that fits the scope, element type and place |
| `StoragePlanner.StoragePlanRewriter.SearchDown` | src/pass/storage_rewrite.cc:575-583 | otherwise the largest free constant entry below the wanted size that fits |
| `StoragePlanner.StoragePlanRewriter.FindAlloc` | src/pass/storage_rewrite.cc:544-598 | returns a free entry within the match range such that no usable one is better (smallest that is large enough, otherwise largest), and a new entry only if none is usable |
| `StoragePlanner.StoragePlanRewriter.FreeBuffer` | src/pass/storage_rewrite.cc:599-613 | makes the entry of a buffer reusable, except for registers, handles and small constant arrays |
| `StoragePlanner.StoragePlanRewriter.PlanPoint` | src/pass/storage_rewrite.cc:500-529 | one step of the linear scan keeps: every allocated buffer has an entry, entries are shared only one after the other, and free entries are dead |
| `StoragePlanner.StoragePlanRewriter.PlanMemory` | src/pass/storage_rewrite.cc:500-529 | over every pattern the scan succeeds exactly if thread scopes do not overlap, and then yields a good plan; in the patterns of programs every buffer gets the best storage that is available to it, and storage of its own exactly if there is none |
| `StoragePlanner.PlannedGood` | src/pass/storage_rewrite.cc:500-529 | what the scan keeps implies that two buffers of one entry are never live at the same point |
| `StoragePlanner.AvailableFree` | src/pass/storage_rewrite.cc:475-613 | the free entries that may be reused are exactly those of the thread scope whose buffers are not touched any more, for numbers in global or shared memory of more than 32 bits or of no constant size, with sizes within a factor of 16 of each other or both not constant |
| `StoragePlanner.SharesNext` | src/pass/storage_rewrite.cc:544-598 | the choice at one allocation: an entry of its own exactly if none is available, otherwise one such that no available one is better |
| `StoragePlanner.SharedInTurn` | src/pass/storage_rewrite.cc:544-613 | of two buffers of one kind one after the other in one thread scope, the second gets no storage of its own if the kind may be shared |
| `StorageFit.PatternRegular` | src/pass/storage_rewrite.cc:55-179 | in the pattern of every well-formed program each allocation touches its buffer, and each thread scope is opened once |
| `StorageFit.ScopeBack` | src/pass/storage_rewrite.cc:475-515 | after every statement the thread scope is the one before it |
| `StorageMerge.PatternAllocatedOnce` | src/pass/storage_rewrite.cc:55-179 | the pattern of every well-formed program allocates each buffer once and touches it only from there on |
| `StorageMerge.SizeInLeast` | src/pass/storage_rewrite.cc:391-421 | the size of a member in units of the widest type is the least number of vectors that hold all its elements |
| `StorageMerge.NewAllocation` | src/pass/storage_rewrite.cc:391-421 | a merged allocation is at least as large as every member and less than one vector larger than one of them, for all values of the extents; fails exactly if a merged member has no extents |
| `StorageMerge.PrepareNewAlloc` | src/pass/storage_rewrite.cc:357-421 | one right-sized allocation per entry, with the element type of its members |
| `StorageFit.RewrittenHoused` | src/pass/storage_rewrite.cc:185-350 | for every good plan with new allocations that hold their buffers: every access of the rewritten program is to storage that is allocated around it, inside the parallel loop or thread scope exactly if the buffer was, and that holds the buffer |
| `StorageFit.RewrittenOnce` | src/pass/storage_rewrite.cc:338-390 | the rewritten program allocates no storage twice |
| `StorageMerge.Rewrite` | src/pass/storage_rewrite.cc:185-207 | the whole pass: where it succeeds, the plan is good and misses no sharing, all sizes are right, and the program has the same effect; the result is the program with other allocations, each access being to storage that is allocated around it, in the same thread scope as its buffer was, with the rank and element type of the buffer and at least as many elements for all values of the extents, and no storage is allocated twice; with extents everywhere it succeeds exactly on plannable programs |
| `StorageSync.FindConflict` | src/pass/storage_sync.cc:125-141 | finds a conflict exactly when some recorded access overlaps the new one |
| `StorageSync.NeedsSync` | src/pass/storage_sync.cc:38-66 | a barrier is asked for exactly when an access of the statement meets a read-write hazard with the unsynchronised ones |
| `StorageSync.ThreadSyncPlanner.Step` | src/pass/storage_sync.cc:38-83 | one simulated statement: it gets a barrier exactly if it has one or meets a hazard with an access since the last barrier |
| `StorageSync.ThreadSyncPlanner.InsertSyncs` | src/pass/storage_sync.cc:32-83 | after the simulation the sequence, doubled for a loop, is safe; nothing is inserted if it was safe before, and nothing at all under a condition |
| `StorageSync.ThreadSyncPlanner.Collect` | src/pass/storage_sync.cc:84-123 | head and tail together expose the same accesses before the first and after the last barrier as the whole sequence |
| `StorageSync.ThreadSyncPlanner.Summarize` | src/pass/storage_sync.cc:32-124 | both of the above; fails only if a barrier is needed under a condition |
| `StorageSync.TwoRotations` | src/pass/storage_sync.cc:38-47 | a sequence that is safe twice in a row is safe any number of times |
| `StorageSync.SafeIffAllHazardsSynced` | src/pass/storage_sync.cc:32-141 | safety of the scan is exactly: between any two accesses of different statement instances that need one, there is a barrier |
| `StorageSync.ExposedSame` | src/pass/storage_sync.cc:84-123 | the head/barrier/tail summary exposes at both ends what the whole sequence exposes |
| `StorageSync.LoopSafe` | src/pass/storage_sync.cc:38-83 | barriers that make two rotations safe make every number of iterations safe, with any further barriers added outside |
| `StorageSync.SimSafe` | src/pass/storage_sync.cc:32-83 | the simulation adds barriers only before statements of the sequence, makes it safe, and adds none exactly if it is safe already |
| `StorageSync.PlanSyncs` | src/pass/storage_sync.cc:32-141 | the plan is the one that the scopes determine from the inside out; with it no execution of any scope meets a hazard without a barrier in between, whatever branches are taken and whatever loops without barriers are skipped, for every program without explicit barriers under conditions and with inert else branches; that the accesses are what threads do is StorageSync.AccessRight |
| `StorageSyncPlans.NoConditionalsGives` | src/pass/storage_sync.cc:32-141 | without conditionals a plan is always made |
| `StorageSyncPlans.PlanProgramFailsIff` | src/pass/storage_sync.cc:32-124 | no plan is made exactly if a condition reads synchronised storage, or the simulation of a scope under a condition would add or meet a barrier |
| `StorageSyncPlans.SkippedLoopMissed` | src/pass/storage_sync.cc:84-123 | the converse for loops that are skipped: every loop that holds a barrier, its own or a planned one, has a program around it in which the plan relies on that barrier, so that skipping the loop leaves a hazard |
| `StorageSyncPlans.SkippedShiftMissed` | src/pass/storage_sync.cc:84-123 | a program: A[0] is written, a loop of n iterations gets a barrier inside, A[n] is read; for n = 0 the plan leaves the hazard |
| `StorageSyncPlans.UntakenBranchMissed` | src/pass/storage_sync.cc:84-123 | the same for conditionals with a barrier in their branch, when it is not taken |
| `StorageSyncRaces.ReadWriteFreeIff` | src/pass/storage_sync.cc:125-141 | in terms of addresses: in a safe run no thread reads what another one writes in a different statement instance without a barrier in between, exactly if every index expression that such a read and write share has different values for different threads |
| `StorageSyncRaces.RaceFreeIff` | src/pass/storage_sync.cc:125-141 | it is free of all races exactly if, besides, different threads write different addresses wherever two writes have no barrier in between |
| `StorageSyncRaces.WritesUnsynced` | src/pass/storage_sync.cc:38-66 | between writes alone there is never a barrier: a program that only writes is planned without any, whatever the indices are |
| `StorageSyncRaces.WritesMeet` | src/pass/storage_sync.cc:38-66 | so when all threads write B[0] twice, two threads write one address without a barrier in between |
| `StorageSyncRaces.ApartAnyTime` | src/pass/storage_sync.cc:125-141 | for an index without loop variables that only asks it of the threads at one time |
| `StorageSyncRaces.SlideMissed` | src/pass/storage_sync.cc:125-141 | with a loop variable it is more: a loop that reads and writes B[v + t] gets no barrier, although thread 1 writes in one iteration what thread 0 reads in the next |
| `StorageSyncEvents.ProgramRaceFree` | src/pass/storage_sync.cc:32-141 | whole programs with loops inside loops, by what a thread reads, writes and waits for in its loads, access pointers, stores and barriers: with the planned barriers, in every scope and for all values of the variables, a thread reads an address that another one writes in a different statement instance only if the threads wait for each other in between, unless the two have equal indices, as seen from the scope, that do not keep the threads apart |
| `StorageSyncEvents.ThreadSync` | src/pass/storage_sync.cc:288-293 | the pass fails exactly if a condition reads synchronised storage or a scope under a condition needs a barrier; otherwise the threads are free of such races, for every program as above and every thread index |
| `StorageSync.ThreadSyncPlanner.VisitFor` | src/pass/storage_access.cc:102-124 | computes the relaxed summary of a loop, which covers every execution of it, of zero iterations too if it has no barrier; succeeds exactly where the loop can be planned |
| `StorageSync.ThreadSyncPlanner.VisitIf` | src/pass/storage_access.cc:126-143 | computes the summary of a branch, which covers the branch and its absence; the else branch adds an empty sequence; succeeds exactly where the conditional can be planned |
| `StorageSync.ThreadSyncPlanner.VisitStore` | src/pass/storage_access.cc:33-57 | the entry of a store describes its write and the reads inside it |
| `StorageSync.AccessRight` | src/pass/storage_access.cc:14-190 | a load, a store and an access pointer are recorded as exactly the addresses that the thread then reads or writes, by the flags of the pointer, of the buffers to be synchronised, where indices have no selections, and as no less otherwise; a barrier is recorded exactly if it is not one of a warp |
| `StorageSync.OpsWait` | src/pass/storage_access.cc:144-190 | operations are recorded as no access exactly if they neither wait nor read or write such a buffer, and as a barrier exactly if one of them waits |
| `StorageSync.LoopEntryCovers` | src/pass/storage_access.cc:102-124 | widening accesses over the loop variable keeps the entry a cover of all iterations |
| `StorageSyncEvents.RelaxCovers` | src/pass/storage_access.cc:102-124 | whatever address a thread touches in an iteration is in the access as it is seen from outside of the loop |
| `StorageSyncEvents.RelaxTight` | src/pass/storage_access.cc:102-124 | and its ends are no further than those of some iteration, if the loop runs and its variable comes in once under operators that keep their ends |
| `StorageSync.IfEntryCovers` | src/pass/storage_access.cc:126-143 | the entry that a conditional leaves covers both its execution and its absence |
| `StorageSyncPlans.ElseMissed` | src/pass/storage_access.cc:126-143 | else branches are not visited: a read there gets no barrier after a write that it meets |
| `Allreduce.FoldHalved` | src/pass/lower_thread_allreduce.cc:236-262 | combining the first elements with those an offset further keeps the fold, for every associative and commutative combiner |
| `Allreduce.FlattenThread` | src/pass/lower_thread_allreduce.cc:269-289 | numbers the thread index vectors from 0 to the product of the extents, each number once |
| `Allreduce.SlotOfThread` | src/pass/lower_thread_allreduce.cc:297-301 | different threads have different slots, all of them below groups times reduce extent |
| `Allreduce.ThreadOfSlot` | src/pass/lower_thread_allreduce.cc:297-301 | every slot is that of a thread |
| `Allreduce.MakeBufAllreduce` | src/pass/lower_thread_allreduce.cc:203-266 | emits the program of the reduction: its steps narrow every extent above one to a single slot, with a barrier between any two shared steps; the last one is in lockstep exactly if rows and warps have several threads, and then of threads of one row, at most a warp of them |
| `Allreduce.EmittedReduces` | src/pass/lower_thread_allreduce.cc:203-266 | what every emitted program keeps from step to step, for all extents and warp sizes |
| `Allreduce.LockstepAsSoon` | src/pass/lower_thread_allreduce.cc:237-262 | steps between all threads are emitted only as long as more slots are live than a row or a warp has threads; the others are in lockstep |
| `Allreduce.HappenRight` | src/pass/lower_thread_allreduce.cc:219-245 | any load or store of any thread within a phase keeps: each thread sees the values from before the phase and changes its own slot only |
| `Allreduce.ReduceRunRight` | src/pass/lower_thread_allreduce.cc:219-252 | whatever the interleaving of the threads, a phase ends with each active slot combined with the one an offset further and all others unchanged |
| `Allreduce.PhaseProgress` | src/pass/lower_thread_allreduce.cc:219-252 | a phase in which a thread is not done can go on |
| `Allreduce.WarpRunCarries` | src/pass/lower_thread_allreduce.cc:253-262 | the lockstep steps of the warps, in any order of the groups, narrow every group to its first slot |
| `Allreduce.ReductionRight` | src/pass/lower_thread_allreduce.cc:203-266 | for every extent, warp size and interleaving, slot 0 of every group ends up as the fold of the values of its threads |
| `Allreduce.LoadOrdered` | src/pass/lower_thread_allreduce.cc:186-194 | a thread loads the fold of its group if a barrier stands after the last step, or if it is in the warp that takes the steps in lockstep |
| `Allreduce.LoadUnordered` | src/pass/lower_thread_allreduce.cc:253-266 | else no barrier orders its load: when ones are added up, there is a moment in every run at which it gets too little |
| `Allreduce.SomeRun` | src/pass/lower_thread_allreduce.cc:203-266 | every reducing program has a run from any values |
| `Allreduce.LoadsRightIff` | src/pass/lower_thread_allreduce.cc:203-266 | every thread of the emitted program loads the fold of its group, in every run and for every combiner, exactly if rows or warps have one thread or every group is in one warp |
| `Allreduce.SixtyFourThreads` | src/pass/lower_thread_allreduce.cc:203-266 | an input: one row of 64 threads in warps of 32, with the program that is emitted for it |
| `Allreduce.RowOfSlot` | src/pass/lower_thread_allreduce.cc:269-301 | the slot of a thread tells its place in its row and the row, which is how the device numbers threads |
| `Allreduce.RowInWarp` | src/pass/lower_thread_allreduce.cc:253-262 | a group that is one row is in one warp if rows divide warps |
| `Allreduce.TogetherIff` | src/pass/lower_thread_allreduce.cc:253-262 | the threads that take the steps in lockstep share a warp exactly if no group's first row goes over the end of a warp within them |
| `Allreduce.ThirtyThreads` | src/pass/lower_thread_allreduce.cc:253-262 | an input where they do not: rows of 30 threads in warps of 32 |
| `Allreduce.OwnSlot` | src/pass/lower_thread_allreduce.cc:176-185 | every thread stores into its own slot, from which all its indices can be told |
| `Allreduce.AllreduceRight` | src/pass/lower_thread_allreduce.cc:110-202 | the whole lowering: threads whose condition does not hold store the identity; at the end of any interleaving, the slot that a thread loads holds the fold of the values of its group whose conditions hold |
| `Allreduce.StoreValuesRight` | src/pass/lower_thread_allreduce.cc:176-185 | once every thread has stored its value, in any order, the buffer holds the values |
| `Allreduce.WarpThreads` | src/pass/lower_thread_allreduce.cc:253-262 | the threads that take part in lockstep differ in their first thread index only and are numbered by it |
| `Allreduce.MakeAllreduce` | src/pass/lower_thread_allreduce.cc:100-202 | direct store exactly for a single thread, failure exactly for a zero extent, and otherwise indices that number the threads and the groups, and the program that is emitted for the reduce extent, the extent of threadIdx.x and the warp size, which reduces over all threads of a group |
| `RecordIO.LRecRoundTrip` | dmlc-core/include/dmlc/recordio.h:45-70 | flag and length come back from the length word |
| `RecordIO.PiecesRight` | dmlc-core/src/recordio.cc:22-50 | cutting at the aligned magic words loses nothing, leaves no aligned magic word in any piece, and cuts as often as there are such words |
| `RecordIO.OneByteStored` | dmlc-core/src/recordio.cc:22-50 | the stored bytes of a record of one byte: the magic word 0xced7230a with its lowest byte first, the length word 1, the byte and three zeros |
| `RecordIO.MagicStored` | dmlc-core/src/recordio.cc:22-50 | the stored bytes of a record that is a magic word: two empty frames with the flags 1 and 3 in the top bits |
| `RecordIO.RecordIOWriter.WriteRecord` | dmlc-core/src/recordio.cc:11-51 | refuses exactly the records of 2^29 bytes or more; otherwise appends the encoded record and raises the exception counter by the number of escaped words |
| `RecordIO.WriteAll` | dmlc-core/src/recordio.cc:11-51 | records written one after the other: the stream is their concatenated encoding, the counter the number of all escaped words |
| `RecordIO.ReadEncoded` | dmlc-core/src/recordio.cc:53-82 | reading at the place of an encoded record gives that record and the place after it, whatever surrounds it |
| `RecordIO.RecordIOReader.NextRecord` | dmlc-core/src/recordio.cc:53-82 | on a stream of records: the first of them, with the others left; end of stream exactly if none is left |
| `RecordIO.ReadAll` | dmlc-core/src/recordio.cc:53-82 | repeated reading of any written stream returns all its records in order and then end of stream |
| `RecordIO.RoundTrip` | dmlc-core/src/recordio.cc:11-82 | the streaming round trip for any list of records below the length limit, with the value of the exception counter |
| `RecordIOChunk.FrameMagic` | dmlc-core/src/recordio.cc:22-50 | an aligned word of a frame equals the magic word only at its start: not in the length word, the data or the padding |
| `RecordIOChunk.StoredHeads` | dmlc-core/src/recordio.cc:85-99 | the aligned places that look like the head of a record are exactly the starts of the records |
| `RecordIOChunk.FindNextRecordIOHead` | dmlc-core/src/recordio.cc:85-99 | the first head at or after the start, or the end; fails exactly if one of the bounds is not aligned |
| `RecordIOChunk.FoundRecord` | dmlc-core/src/recordio.cc:85-99 | on stored records the search finds the first record that starts at or after the place where it begins |
| `RecordIOChunk.BoundsEven` | dmlc-core/src/recordio.cc:101-112 | the bounds of no part are further apart than its share of the chunk, rounded up to a whole word |
| `RecordIOChunk.ChunkRecord` | dmlc-core/src/recordio.cc:114-155 | reading at the start of a record gives that record and the start of the next one |
| `RecordIOChunk.RecordIOChunkReader.constructor` | dmlc-core/src/recordio.cc:101-112 | part i runs from the first record at or after its bound to the first record at or after the next bound; fails exactly on chunks that are not whole words |
| `RecordIOChunk.ReadPart` | dmlc-core/src/recordio.cc:101-155 | a part is exactly the records that start between its bounds |
| `RecordIOChunk.ReadParts` | dmlc-core/src/recordio.cc:101-155 | the parts of any number of readers, one after the other, are the original list: none lost, read twice or cut |
| `IntSet.CombineSound` | src/arithmetic/int_set.cc:191-345 | for bounded sets the combination contains every result of the operator, with C division and symbolic factors of unknown sign, and is bounded or everything |
| `IntSet.CombineSoundIff` | src/arithmetic/int_set.cc:191-345 | for all sets, finite or not, it contains every result exactly if it does not multiply a set with one finite end by a negative constant, or divide it by one |
| `IntSet.CombineExact` | src/arithmetic/int_set.cc:211-329 | for all sets with values, the set of a sum, difference, minimum or maximum has exactly the results of the operator; only a minimum or maximum with everything is everything |
| `IntSet.CombineLeast` | src/arithmetic/int_set.cc:211-329 | for bounded sets so has no interval less: every interval that contains all results contains the set, products and quotients by a single point included |
| `IntSet.ComparisonExact` | src/arithmetic/int_set.cc:406-426 | the set of a comparison of anything has exactly the results of the comparison |
| `IntSet.EvalSetSound` | src/arithmetic/int_set.cc:427-559 | the evaluated set contains the value of the expression for all values of the variables in their sets |
| `IntSet.EvalSetSoundAll` | src/arithmetic/int_set.cc:427-559 | for all domains, finite or not, it does so where no operator of the expression negates a set with one finite end |
| `BoundDeducer.RangeAttained` | src/arithmetic/int_set.cc:427-559 | each end of the set of an expression is its value for some values of the variables that range over sets, if each of them comes in once under operators that keep their ends |
| `IntSet.ModSoundIff` | src/arithmetic/int_set.cc:296-310 | the set of remainders of a range of several numbers by d contains them exactly if none of the numbers is negative, or d is 1 |
| `IntSet.NegativeScaleSoundIff` | src/arithmetic/int_set.cc:242-267 | scaling by a negative constant is sound exactly if the set has two finite ends or the result is empty: with one finite end the infinities are not exchanged |
| `IntSet.NegativeDivSoundIff` | src/arithmetic/int_set.cc:270-298 | the same for division by a negative constant |
| `BoundDeducer.SubStep` | src/arithmetic/bound_deducer.cc:99-110 | moving the other side of a subtraction keeps the comparison, turned around if the target is subtracted |
| `BoundDeducer.MulStep` | src/arithmetic/bound_deducer.cc:111-133 | dividing by a multiplier of known sign and rounding away from the bound is enough for the product |
| `BoundDeducer.Deducer.Transform` | src/arithmetic/bound_deducer.cc:178-203 | splits the comparison into target side, bound and direction; fails exactly unless it is an ordered comparison |
| `BoundDeducer.Deducer.Relax` | src/arithmetic/bound_deducer.cc:221-230 | replaces both sides by the ends that make the comparison hardest over the relaxed variables; fails exactly if one of them is unbounded on both sides |
| `BoundDeducer.Deducer.VisitMul` | src/arithmetic/bound_deducer.cc:111-133 | the inverted comparison forces the old one; on the path to the target it succeeds exactly where all signs below are known |
| `BoundDeducer.Deducer.Deduce` | src/arithmetic/bound_deducer.cc:204-220 | success is exactly deducibility, and the bound then forces the condition for all hinted and relaxed values; it mentions neither the target nor relaxed variables |
| `BoundDeducer.DeduceBound` | src/arithmetic/bound_deducer.cc:232-260 | a non-empty result is returned exactly if the condition is deducible; every target value in it makes the condition true for all values of the relaxed variables; it has exactly these values if no product is on the way to the target, and misses at most two for each product otherwise, where every relaxed variable comes in once under operators that keep their ends |
| `BoundDeducer.EvalSetSpine` | src/arithmetic/bound_deducer.cc:221-230 | relaxing keeps a single occurrence of the target on one side of every operator |
| `BoundDeducer.AlwaysTrueIff` | src/arithmetic/bound_deducer.cc:221-230 | so the condition is true for all values of the relaxed variables exactly if it is true of the hardest ends |
| `BoundDeducer.DeducedExact` | src/arithmetic/bound_deducer.cc:93-110 | without products on the way to the target, the interval has exactly the values of the target for which the condition is true for all values of the relaxed variables |
| `BoundDeducer.DeducedClose` | src/arithmetic/bound_deducer.cc:93-133 | with products, every such value is at most two values for each product away from the interval |
| `BoundDeducer.UnrelaxedExact` | src/arithmetic/bound_deducer.cc:232-246 | without products, selections and relaxed variables, the target is in the interval exactly if the condition is true |
| `BoundDeducer.MulInversionIff` | src/arithmetic/bound_deducer.cc:117-133 | inverting a multiplication is sound exactly if the multiplier is not 0 or 0 itself meets the bound: the zero multiplier is the failing family |
| `BoundDeducer.BoundHasValue` | src/arithmetic/bound_deducer.cc:111-133 | the deduced interval has a value exactly if its operands have one and no multiplier on the path is known to be 0; elsewhere it promises nothing |
| `BoundDeducer.ZeroMultiplierDeduced` | src/arithmetic/bound_deducer.cc:111-133 | x * y <= -5 with y known to be 0 is never true, yet an interval -5 / y - 1 is deduced for x; it has no value |
| `Canonical.MergeRight` | src/arithmetic/canonical.cc:416-453 | the merge of two sums has the value of the one plus n times the other |
| `Canonical.MergeSorted` | src/arithmetic/canonical.cc:416-453 | merging sorted sums gives a strictly sorted sum without zero factors |
| `Canonical.SumToExprRight` | src/arithmetic/canonical.cc:470-513 | the expression built from a sum has its value |
| `Canonical.CanonRight` | src/arithmetic/canonical.cc:219-303 | canonicalisation keeps the value of every expression in which no comparison a < b is an operand, for all loop variables in their ranges |
| `Canonical.LessRight` | src/arithmetic/canonical.cc:271-287 | a comparison is replaced by true only where it is true |
| `Canonical.LessAsOperand` | src/arithmetic/canonical.cc:271-287 | a comparison that is an operand counts as b - a, because the entry keeps the sum that was tried; this is right exactly where b - a is 0 or 1 |
| `Canonical.LessPlusFalse` | src/arithmetic/canonical.cc:219-230 | so (a < b) + 0 becomes b - a, which is right exactly where that is 0 or 1 |
| `Canonical.LessOfLess` | src/arithmetic/canonical.cc:271-287 | (a < b) < (c < d) is taken for true exactly where (d - c) - (b - a) is seen to be positive, and keeps its value exactly where it is not taken so, or a < b is false and c < d is true |
| `Canonical.TwoTestsTaken` | src/arithmetic/canonical.cc:271-287 | such an input: (0 < x) < (0 < y) with x in 1 .. 2 and y in 5 .. 6 becomes true, although both tests are true |
| `Canonical.TypedNoTests` | src/arithmetic/canonical.cc:219-303 | a well-typed number without selections has no comparison as an operand of an operator on numbers, so CanonRight keeps its value |
| `Canonical.CanonSorted` | src/arithmetic/canonical.cc:416-468 | the sum of every canonical entry is sorted and free of zeros |
| `Canonical.CanonNoLevels` | src/arithmetic/canonical.cc:416-430 | without loop levels the check on levels never fails |
| `Canonical.LevelCheckFails` | src/arithmetic/canonical.cc:424-428 | with loop levels it fails for (x - x + y) / z + y / z when x is a loop variable |
| `Canonical.MergeFailsIff` | src/arithmetic/canonical.cc:416-453 | merging two sorted sums fails exactly if two entries of one value and two levels come to stand opposite each other |
| `Canonical.CanonFailsIff` | src/arithmetic/canonical.cc:424-428 | canonicalisation fails exactly if the sums of the operands of some addition, subtraction or comparison clash so |
| `Canonical.LevelsKeptGives` | src/arithmetic/canonical.cc:424-428 | it does not fail where every part that is not a sum keeps the level of its canonical value |
| `Canonical.OnlyAddsInsideGives` | src/arithmetic/canonical.cc:424-428 | which is so, whatever the levels, if nothing can cancel below such parts: below them are only additions of different terms |
| `Canonical.CanonLinear` | src/arithmetic/canonical.cc:219-261 | linear expressions pass the check, and their entry holds exactly their constant and coefficients |
| `Canonical.LinearSame` | src/arithmetic/canonical.cc:219-261 | two linear expressions with equal constants and coefficients become the same expression |
| `Canonical.SumsEqual` | src/arithmetic/canonical.cc:416-453 | sorted sums of variables are determined by their factors |
| `Canonical.CanonicalEngine.SumAdd` | src/arithmetic/canonical.cc:416-453 | the two-index loop computes the merge, and fails exactly if one value has two levels |
| `Canonical.CanonicalEngine.FindSum` | src/arithmetic/canonical.cc:455-468 | a cached sum is returned with the expression that it denotes |
| `Canonical.CanonicalEngine.Produce` | src/arithmetic/canonical.cc:200-206 | with all caches and the level stack the engine computes the cache-free canonical form, and fails exactly when that does |
| `Canonical.Simplify` | src/arithmetic/canonical.cc:521-524 | after any earlier calls on the same engine, the result is that of the canonical form, and has the value of the expression if no comparison is an operand; it fails exactly where the level check does, never without loop levels |
| `Buffer.ExprSplitAddition` | src/lang/buffer.cc:38-54 | the stack loop lists the summands from left to right |
| `Buffer.MergedRight` | src/lang/buffer.cc:65-124 | merging a product with a matching remainder keeps their sum and makes it smaller |
| `Buffer.MergeMulModInner` | src/lang/buffer.cc:65-128 | finds the pattern exactly where it matches, through nested multiplications and additions |
| `Buffer.MulModMerger.InsertElements` | src/lang/buffer.cc:130-159 | every summand goes to exactly one of the products, the remainders and the rest |
| `Buffer.MulModMerger.Replace` | src/lang/buffer.cc:184-212 | replacing a pair by what it merges to keeps the sum of all lists and shrinks it |
| `Buffer.MergeMulMod` | src/lang/buffer.cc:161-225 | terminates; the result has the value of the expression wherever that is defined, is smaller than the simplified one exactly if some product and remainder match, and is it otherwise; no matching pair is left if remainders are taken of few remainders only |
| `Buffer.NoPairLeft` | src/lang/buffer.cc:161-225 | no product and remainder among the summands of the result match, if every remainder is taken of something that has, among its own summands, a product or at most one remainder, and so on inside |
| `Buffer.PairStays` | src/lang/buffer.cc:184-206 | without that a pair may be left: of two remainders that come in for the last one only the second is looked at, so x / 3 * 3 + (x % 3 + y % 5) / 7 * 7 + (x % 3 + y % 5) % 7 ends as x / 3 * 3 + x % 3 + y % 5 |
| `Buffer.ElemOffset` | src/lang/buffer.cc:227-252 | the repeatedly merged offset has the value of the plain one; fails exactly on a wrong number of indices |
| `Buffer.MakeStrideView` | src/lang/buffer.cc:288-301 | writes out the row-major strides of a compact buffer for all values of its shape |
| `Buffer.StridedOffset` | src/lang/buffer.cc:227-252 | with strides the offset is the element offset plus a dot product |
| `Buffer.CompactOffset` | src/lang/buffer.cc:227-252 | without strides and element offset it is the dot product with the row-major strides |
| `Buffer.StrideViewAgrees` | src/lang/buffer.cc:227-301 | a compact buffer and its stride view agree exactly if the element offset is 0 or the inner dimensions hold one element |
| `Buffer.OffsetOfIndex` | src/lang/buffer.cc:227-252 | indices in bounds have offsets below the product of the shape, and come back from them |
| `Buffer.IndexOfOffset` | src/lang/buffer.cc:227-252 | every offset below the product of the shape is that of indices in bounds |
| `Modular.GcdDivides` | src/arithmetic/modular.cc:124-136 | the computed divisor divides both numbers |
| `Modular.GcdGreatest` | src/arithmetic/modular.cc:124-136 | every common divisor divides it |
| `Modular.ZeroAwareGCD` | src/arithmetic/modular.cc:124-136 | terminates at the greatest common divisor, zero being divided by everything; fails exactly on negative numbers |
| `Modular.BaseSimplifyRight` | src/arithmetic/modular.cc:118-123 | the base moves by a multiple of the coefficient into its range |
| `Modular.AddSubSound` | src/arithmetic/modular.cc:63-78 | sums and differences of members are members |
| `Modular.MulSound` | src/arithmetic/modular.cc:79-93 | products of members are members of the product set |
| `Modular.DivSound` | src/arithmetic/modular.cc:94-116 | exact quotients of members are members |
| `Modular.EvalModularSound` | src/arithmetic/modular.cc:26-116 | if every mapped variable is in its congruence class, so is every expression in the class computed for it |
| `Modular.AddSubExact` | src/arithmetic/modular.cc:63-78 | the class of a sum or difference has exactly the sums or differences of members |
| `Modular.MulLeast` | src/arithmetic/modular.cc:79-93 | the class of a product is in every class that holds all products of members |
| `Modular.EvalModularLeast` | src/arithmetic/modular.cc:26-116 | of sums, differences, products and exact quotients in which no variable comes in twice, the class computed is in every class that holds all values of the expression |
| `Modular.AddSubGives` | src/arithmetic/modular.cc:63-78 | a sum is evaluated exactly if both coefficients are non-negative |
| `Modular.MulGives` | src/arithmetic/modular.cc:79-93 | a product is evaluated exactly if the three products that multiply a variable part are non-negative |
| `Modular.DivGives` | src/arithmetic/modular.cc:94-116 | a quotient by a positive constant or by something variable is always evaluated, to non-negative numbers |
| `Modular.EvalModularGives` | src/arithmetic/modular.cc:26-116 | with non-negative coefficients for the variables and no constant divisor that is not positive, an expression is evaluated exactly if nothing variable is multiplied by a negative constant |
| `Modular.EvalModularIff` | src/arithmetic/modular.cc:26-116 | for all entries and divisors, it is evaluated exactly if at every sum both coefficients are non-negative, at every product the three variable parts are, and nothing without a base is divided by the constant 0 |
| `Modular.NegativeFactorFails` | src/arithmetic/modular.cc:79-93 | whatever has a positive coefficient is not evaluated times a negative constant, such as (x + x) * -3 |
| `Modular.NegativeDivisorFails` | src/arithmetic/modular.cc:94-116 | an exact quotient by a negative constant has a negative coefficient, with which no sum and no product with a positive constant is evaluated |
| `Modular.VectorExtentExact` | src/pass/storage_rewrite.cc:653-675 | an extent is only divided by a factor that divides it for all values, so the allocation keeps its number of scalar elements |
| `Modular.VectorAlloc` | src/pass/storage_rewrite.cc:653-676 | an allocation is widened exactly if all its accesses have one wider type of the same element, whose lanes are a multiple, and the last extent is seen to be divisible; it keeps its number of scalar elements for all values |
| `Modular.CollectedTypes` | src/pass/storage_rewrite.cc:680-685 | the types collected for a buffer are those of its accesses, each once |
| `Modular.WidensIff` | src/pass/storage_rewrite.cc:653-676 | a buffer that was not seen before is a candidate exactly if all accesses to it in the body have one type, which is wider |
| `Modular.VectorAllocRewriter.Mutate` | src/pass/storage_rewrite.cc:633-685 | rewrites a whole program: every allocation keeps its number of scalar elements, and one with another element type is only accessed in that type; fails exactly where the last extent of a candidate is not evaluated |
| `Vectorize.BinRight` | src/pass/vectorize_loop.cc:389-400 | broadcasting both operands to the wider one keeps every lane |
| `Vectorize.ScalarRampRight` | src/pass/vectorize_loop.cc:402-414 | a scalar plus or minus a ramp is a ramp, lane by lane |
| `Vectorize.RampScalarRight` | src/pass/vectorize_loop.cc:402-420 | a ramp plus or minus a scalar only moves its base |
| `Vectorize.MulRampRight` | src/pass/vectorize_loop.cc:86-109 | a ramp times a scalar is a ramp, lane by lane |
| `Vectorize.RampRight` | src/pass/vectorize_loop.cc:71-76 | such a ramp starts with the value of the expression in the first iteration, and its stride is the difference to the second |
| `Vectorize.SelectRight` | src/pass/vectorize_loop.cc:164-178 | a selection keeps every lane, with a scalar or a vector condition |
| `Vectorize.LoadRight` | src/pass/vectorize_loop.cc:210-224 | a load at a vector index loads each lane's element |
| `Vectorize.LetVectorRight` | src/pass/vectorize_loop.cc:225-242 | a vector value is bound to a new variable whose lanes are the values of the old one |
| `Vectorize.LetScalarRight` | src/pass/vectorize_loop.cc:225-242 | a scalar value keeps its variable |
| `Vectorize.CombineRight` | src/pass/vectorize_loop.cc:80-142 | every shortcut for every operator keeps the lanes, when operands have one or all lanes |
| `Vectorize.Vectorizer.Mutate` | src/pass/vectorize_loop.cc:71-242 | every scalar expression becomes a scalar equal for all iterations or a vector whose lane i is the original in iteration i; what has no vector variable stays as it is, the loop variable with uniform summands and positive uniform factors becomes a ramp over all lanes, and a load from there a load of a ramp; it fails only on rebound variables or the operator that is not overridden |
| `Vectorize.Vectorizer.MutateLet` | src/pass/vectorize_loop.cc:225-242 | the same for bindings, with the table of vector variables growing by the bound names only |
| `Vectorize.PrivateCells` | src/pass/vectorize_loop.cc:37-60 | the cells index * lanes + lane of different lanes are different, and stay inside the widened allocation exactly as the index stays inside the old one |
| `Vectorize.AccessExprRight` | src/pass/vectorize_loop.cc:37-48 | an expression reads in its lane what it read in its own buffer |
| `Vectorize.AccessRight` | src/pass/vectorize_loop.cc:37-60 | iteration i of the rewritten body does in lane i what it did in its own buffer and leaves the other lanes alone, for all scalar bodies with loops and branches |
| `Vectorize.AccessTyped` | src/pass/vectorize_loop.cc:37-48 | a rewritten expression is scalar and has the lanes that its nodes ask for |
| `Vectorize.WholeLoopRight` | src/pass/vectorize_loop.cc:37-60 | after any number of iterations the rewritten loop, with one allocation for all lanes, has the same other buffers as the loop that allocates in each iteration, and in each lane what its iteration left |
| `Reflection.NodeIndexer.MakeIndex` | src/lang/reflection.cc:64-91 | terminates on every graph, cycles included; indexes what can be reached, each node once, with null first |
| `Reflection.GetNode` | src/lang/reflection.cc:163-189 | an array is saved as its indices, a map as pairs, other nodes by their fields |
| `Reflection.CreateGraph` | src/lang/reflection.cc:293-309 | one saved node for each node that is reached, at its index, and the index of the root |
| `Reflection.ReachedLeast` | src/lang/reflection.cc:64-91 | the listed nodes belong to every set that holds the root and, with a node, its children: nothing is listed that cannot be reached |
| `Reflection.SetNode` | src/lang/reflection.cc:244-262 | patches a node with the saved contents; fails exactly where an index, a field or its kind does not fit |
| `Reflection.LoadGraph` | src/lang/reflection.cc:319-347 | loads exactly the graphs that fit, into new and different nodes |
| `Reflection.SavedLoaded` | src/lang/reflection.cc:163-262 | what is saved from one node and loaded into another gives it the same shape |
| `Reflection.SavedFits` | src/lang/reflection.cc:163-262 | a saved node can be loaded exactly if its type is registered |
| `Reflection.SaveLoad` | src/lang/reflection.cc:311-347 | saving and loading any finite graph with sharing, null, maps and cycles gives an isomorphic graph with the right root, exactly if the types of the reached nodes are registered |
| `LoopIR.SubstituteRight` | src/pass/unroll_loop.cc:60-66 | running after substitution is running with the value of the variable, if no binder catches a variable of the value: the same stores, allocations with their sizes, evaluations and parallel or vectorised loops |
| `Unroll.NextStep` | src/pass/unroll_loop.cc:60-66 | one more copy of the body is one more iteration |
| `Unroll.LoopUnroller.Copies` | src/pass/unroll_loop.cc:55-67 | the chain of copies runs like the loop, keeps scopes, and is no deeper than its body |
| `Unroll.LoopUnroller.MutateFor` | src/pass/unroll_loop.cc:27-75 | the result is the recursively defined unrolling; it runs the same, with the same stores, allocations with their sizes, evaluations and parallel or vectorised loops; it keeps its scopes, and holds no loop of the kinds that are unrolled |
| `Unroll.LoopUnroller.Mutate` | src/pass/unroll_loop.cc:17-82 | the same for every statement, with failure exactly where the unrolling has no result; terminates although unrolled bodies are visited again |
| `Unroll.LiteralGives` | src/pass/unroll_loop.cc:38-41 | there is a result whenever every marked loop has a literal extent that is not negative, whatever the other loops are |
| `Unroll.FixedGivesIff` | src/pass/unroll_loop.cc:29-41 | if no extent depends on a loop variable, there is a result exactly if every marked loop has a constant extent, besides those inside a loop that vanishes |
| `Unroll.UntouchedIff` | src/pass/unroll_loop.cc:29-75 | a program comes back as it was exactly if no loop is to be unrolled or marked |
| `SSA.VerifySSA` | src/pass/ssa.cc:19-53 | says yes exactly if no variable is bound twice |
| `SSA.IRVerifySSA.Visit` | src/pass/ssa.cc:23-50 | the check also takes in the variables defined before |
| `SSA.ConvUnique` | src/pass/ssa.cc:55-174 | after renaming no variable is bound twice, whatever the input |
| `SSA.ConvAlpha` | src/pass/ssa.cc:55-174 | the renamed program is the same up to a one-to-one renaming of binders in their scopes: the same kinds of loops, sizes of allocations, evaluated expressions, bounds and stores |
| `LoopIR.AlphaRuns` | src/pass/ssa.cc:55-174 | programs that are the same up to such a renaming run the same |
| `SSA.ConvSelf` | src/pass/ssa.cc:55-174 | a program in SSA form comes back as it was |
| `SSA.ConvIdle` | src/pass/ssa.cc:55-174 | after every visit the name stacks are as before it |
| `SSA.IRConvertSSA.Mutate` | src/pass/ssa.cc:55-174 | the renaming with stacks pushed and popped in place computes the recursively defined one |
| `SSA.ConvertSSA` | src/pass/ssa.cc:184-186 | for every well-scoped program: the result is in SSA form, and the same up to a one-to-one renaming of binders, sizes of allocations and kinds of loops included; it runs the same, and a program in SSA form is left alone |
| `SSA.UnrollLoop` | src/pass/unroll_loop.cc:96-106 | unrolling followed by renaming runs the same as the original, with the same stores, allocations with their sizes, evaluations and parallel or vectorised loops, and passes the SSA check; it returns the program as it was if nothing is to be unrolled or marked; it succeeds without marked loops, with literal extents of marked loops, and exactly with constant ones if no extent depends on a loop variable |
| `WorkspacePool.Pool.Alloc` | src/runtime/workspace_pool.cc:26-61 | returns a page-rounded block: the smallest free one that fits, or else a new one in place of the largest free one; the free list stays sorted and every device block is in one list |
| `WorkspacePool.Pool.Free` | src/runtime/workspace_pool.cc:63-89 | moves the block with this address from use to its sorted place; fails exactly if there is none in use |
| `WorkspacePool.Pool.Release` | src/runtime/workspace_pool.cc:91-97 | returns every block to the device; fails exactly if one is in use |
| `WorkspacePool.Serve` | src/runtime/workspace_pool.cc:26-89 | over every run of calls, of which each allocation puts one block more in use and each release of a block one less, the device has as many blocks as were ever in use at once, or as before if these were more, and blocks in use never share an address |
| `ThreadBarrier.StepFits` | src/runtime/thread_pool.cc:330-347 | every step of every task keeps the barrier's invariant |
| `ThreadBarrier.BarrierSafe` | src/runtime/thread_pool.cc:330-347 | in every run no task has left its k-th barrier before every task entered its k-th, and entries never differ by more than one |
| `ThreadBarrier.BarrierProgress` | src/runtime/thread_pool.cc:330-347 | when all tasks wait, one of them leaves by steps of its own |
| `ThreadBarrier.CountersGrow` | src/runtime/thread_pool.cc:330-347 | counters that a waiting task has passed stay passed |
| `ParallelLaunch.ParallelLauncher.Launch` | src/runtime/thread_pool.cc:254-277 | whatever the order in which tasks report, a launch returns exactly when all have reported: 0 if none failed, else the messages of those that failed, in task order; no message is left for the next launch; refused exactly inside a worker or with more tasks than workers |
| `ParallelLaunch.ParallelLauncher.WaitForJobs` | src/runtime/thread_pool.cc:65-82 | blocks exactly while tasks are pending; collects and clears the messages |
| `ParallelLaunch.AllReported` | src/runtime/thread_pool.cc:84-102 | the pending count is zero exactly when every task has reported |
| `ParallelLaunch.ReportRight` | src/runtime/thread_pool.cc:65-82 | the report holds each non-empty message of a failed task and nothing else |
| `Rings.TaskQueue.Push` | src/runtime/thread_pool.cc:153-176 | appends a task to the queue, also when the ring doubles while wrapped |
| `Rings.TaskQueue.Pop` | src/runtime/thread_pool.cc:181-206 | takes the oldest task; waits exactly on an empty queue without the signal to exit, and with that signal takes the stale task at the head while the count wraps around |
| `Rings.ServeTasks` | src/runtime/thread_pool.cc:153-206 | any interleaving of pushes and pops before the signal to exit serves the tasks in the order in which they came; a pop waits exactly when all tasks so far are served |
| `Rings.Grown` | src/common/ring_buffer.h:38-51 | doubling a wrapped ring and copying the overflow behind the old end keeps the contents |
| `Rings.RingBuffer.Reserve` | src/common/ring_buffer.h:38-51 | grows the ring without changing the queue |
| `Rings.RingBuffer.Read` | src/common/ring_buffer.h:58-68 | takes bytes from the front; fails exactly if there are fewer |
| `Rings.RingBuffer.Write` | src/common/ring_buffer.h:95-108 | appends all of the data |
| `Rings.RingBuffer.WriteWithCallback` | src/common/ring_buffer.h:116-136 | appends exactly what the callback delivered, short deliveries included; a second call is made only if the room at the end was filled |
| `Rings.RingBuffer.ReadWithCallback` | src/common/ring_buffer.h:76-89 | sends a prefix of the queue, but keeps the front and drops the end, as the head does not move |
| `Rings.CallbackLeavesRest` | src/common/ring_buffer.h:76-89 | for all callbacks that leaves the rest of the queue exactly if nothing may be sent or all bytes in the buffer are equal |
| `Rings.CallbackMayLeaveFront` | src/common/ring_buffer.h:76-89 | a run: of the bytes 1, 2 the callback takes the 1, and the buffer holds 1 again |
| `Rings.RingBuffer.Serve` | src/common/ring_buffer.h:38-136 | any interleaving of operations, writes through callbacks included, is a queue: what was held and delivered is what was read, in that order, and what is still held; it fails exactly if more is read than is there |
| `ModuleImport.Reachable` | src/runtime/module.cc:28-41 | the worklist computes exactly the modules that can be reached from one: closed under imports, and each derived from the start |
| `ModuleImport.ModuleNode.Import` | src/runtime/module.cc:28-45 | the module graph stays acyclic, an import fails only if it would make a cycle, and the cache stays right |
| `ModuleImport.ModuleNode.GetFuncFromEnv` | src/runtime/module.cc:78-97 | with its cache it finds the first match among the imports, as an uncached look-up would, and otherwise what is registered globally |
| `ModuleImport.MatchAppend` | src/runtime/module.cc:28-45 | appending an import never changes a match that was found |
| `ModuleImport.Raise` | src/runtime/module.cc:28-45 | modules that cannot be reached from an import can be ranked above all that can |

## Left out

Contracts that say less than the whole source:

- StorageMerge.Rewrite: parallel and thread loops run their iterations in order, extents of allocations and values of attributes read no buffer, one element type per storage entry stands for the type code, and the attribute that names a buffer's storage scope is part of its allocation.
- StorageRewrite.RewriteSound: a buffer is only accessed by loads and stores, so passing its address or its handle on is not covered.
- StoragePlanner.SharesNext: with several available entries of one size, which one is taken.
- StorageSyncEvents.ThreadSync: inserting the barriers into the program, and the global barrier over all blocks.
- StorageSync.PlanSyncs: without explicit barriers under conditions, and with nothing to synchronise in else branches, for which `StorageSyncPlans.UntakenBranchMissed` and `StorageSyncPlans.ElseMissed` show that the plan is not enough. Hazards are the symbolic ones of the source; what they mean for addresses is in `StorageSyncRaces` and `StorageSyncEvents`.
- StorageSyncEvents.ProgramRaceFree: every thread executes the same statements, with loop bounds that do not depend on the thread, and one thread index stands for all; accesses of one statement instance among each other are not covered, and nor are two writes.
- IntSet.EvalSetSound: for variables with two finite ends; for all others see `IntSet.EvalSetSoundAll`. Stride sets, unions and `match_range` are not modelled, and remainders are no operator of the expressions, see `IntSet.ModSoundIff`.
- IntSet.CombineSound: the re-association of maxima and the overflow test of constant folding are not modelled; division by the constant 0, which ends the source, gives no value. For sets that are not bounded see `IntSet.CombineSoundIff`.
- BoundDeducer.DeduceBound: signed comparisons; equality is not deduced from, as in the source.
- IntSet.CombineLeast: products of two sets that are not points, and quotients by such sets, are everything, as in the source.
- BoundDeducer.RangeAttained: a variable that comes in twice may make a set larger than its values, as in the source.
- Modular.EvalModularLeast: so may it make a class larger, such as that of x - x.
- Canonical.LessPlusFalse: constants of type Bool other than 0, with which `Sum2Expr` of the source ends in a failed check, are not modelled.
- Canonical.CanonRight: pure scalar integer expressions, without calls and side effects; vectors and other types take the uncached path of the source.
- Canonical.LinearSame: the order of addresses is any injective order, fixed for a run.
- Buffer.MergeMulMod: identity of nodes is structural equality.
- Buffer.NoPairLeft: one direction; a pair may also be gone by chance where several remainders come in.
- Buffer.ElemOffset: offsets of vector types and slices are not modelled.
- Modular.EvalModularSound: coefficients do not overflow.
- Allreduce.ReductionRight: combiners of one value that are associative and commutative; that the first threads of a group run in lockstep is taken as given, and `Allreduce.TogetherIff` says when they share a warp; sorting of the thread axes is not modelled.
- Allreduce.LoadUnordered: for adding up ones; with other combiners and values a load that comes too early may get the same value.
- Allreduce.TogetherIff: what is computed when the threads in lockstep do not share a warp is not modelled.
- RecordIO.RecordIOReader.NextRecord: a stream that ends inside a frame and a wrong magic word both give an invalid result; the source stops with a failed check.
- RecordIOChunk.ReadParts: chunks that were not written by the writer may make the source read past the end; the model gives an invalid result there. Sizes do not overflow.
- Vectorize.Vectorizer.Mutate: casts, calls, logical operators, load predicates and vector expressions in the input are not modelled; the operator that is not overridden fails on operands of different width.
- Vectorize.AccessRight: the order in which a vectorised store writes its lanes, and statements that depend on each other across iterations.
- Reflection.SaveLoad: text, numbers and types are opaque strings; the JSON text itself is not modelled, and maps are visited in an arbitrary order.
- LoopIR.SubstituteRight: bindings inside expressions and attributes on statements are not in this IR; bindings by statements are.
- Unroll.LoopUnroller.MutateFor: an evaluation to 0 shows nothing, as that is what a loop of no iterations becomes; serial and unrolled loops show only what their iterations do.
- SSA.ConvertSSA: programs that bind a variable again inside its own scope, on which the source reads an empty stack.
- Unroll.LiteralGives: one direction; other extents may become constant when an outer loop is unrolled.
- Unroll.LoopUnroller.Mutate: loops whose start reads memory, which each copy of the body would read again.
- WorkspacePool.Pool.Free: freeing a null address, alignment of blocks, and the array of pools per device.
- ThreadBarrier.BarrierSafe: steps are sequentially consistent; the counter array is as large as the number of tasks.
- ParallelLaunch.ParallelLauncher.Launch: how workers take tasks from their queues; the text of the messages' line format.
- Modular.VectorAllocRewriter.Mutate: accesses are given with their types, and other statements are left out.
- Rings.TaskQueue.Pop: spinning and sleeping while it waits; the ring's counters do not overflow otherwise.
- ModuleImport.ModuleNode.GetFuncFromEnv: the global registry is a parameter; modules that are built or loaded from files are not modelled.

Parts of the repository without a model:

- 32-bit and 64-bit wrap-around of the compiler's own integers.
- Tagged memory in the storage pass, `tvm_address_of`, and types of accesses.
- Loop partitioning, unsafe-select rewriting, host/device splitting, virtual threads and the schedule code.
- Code generation, device back ends, remote calls, Python bindings and the registration of functions: input, output or glue.
