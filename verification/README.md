# Verification of the Motoko runtime system

A Dafny model of the Rust runtime system in `rts/motoko-rts`, with proofs about its most intricate
parts. `dafny verify dfyconfig.toml` checks the whole project.

## What is modelled

**The incremental evacuating garbage collector** (`gc_model`, `gc_machine`, `gc_marking`,
`gc_relocation`, `gc_phases`, `gc_cycle`, `gc_precision`, `gc_collector`). The class `Collector` holds the state of the
collector and the heap it works on: objects with a Brooks forwarding pointer, placed in partitions, roots,
and the locals of the program. Its methods are the phases with their time-bounded, resumable loops, and the
barriers through which the program uses the heap. `GcMachine` is the same program without a collector:
objects have identities, nothing moves and nothing is reclaimed. `Collector.Run` proves that every
interleaving of program steps and collector increments is a run of that machine, in which a collection does
nothing but set weak references to unreachable objects to null. The proof combines snapshot-at-the-beginning
marking (stated over all closed sets of objects, so that no paths are needed), forwarding chains of length
one, and an update pass that leaves no pointer into an evacuated partition before that is freed. The time
that a step takes beyond one unit is arbitrary, and with it the points of interruption. The other half is that
garbage goes: an increment starts a collection or brings the running one closer to its end, and what is live at the
end was reachable at the start, or from what has been allocated or loaded from a weak reference since
(`EmptyCallStackIncrement`); without the program in between it is exactly what was reachable (`CollectGarbage`).

**The partitioned heap below it** (`gc_partitions`, `gc_large`, `gc_collection`, `gc_heap`, `gc_bitmap`,
`gc_sort`, `gc_refinement`, `gc_joint`). The class `PartitionedHeap` allocates blocks, bitmaps and large objects, plans evacuations and
completes collections. Its invariant says that counters equal their sums over the partitions, that blocks
and bitmaps do not overlap, and that the total allocated size is static space plus all bytes ever requested.
The bitmap iterator works on words and bits, and the quicksort in place on an array. `gc_refinement` shows that
each of these operations is what the collector relies on, and `gc_joint` follows runs of both.

**Graph-copy stabilization** (`copy_*`). Cheney's algorithm from the heap to a stream of words and back, each
as a class with resumable increments, and the composition of both: from the actor and the tables of the runtime
system in the old heap to their images in the new one. The execution monitor decides when an increment stops; a number
of increments that the heap gives is always enough.

**Stable regions** (`region_*`). The region manager over one byte memory with its block table, recovery of the
page vectors, and the migration of a plain stable memory. `RegionHistory.Run` states what every history amounts to: one
on flat byte arrays, with exactly the failures that identifiers, blocks, pages and the environment cause.

**The memoised subtype check** (`idl_*`, `bitrel`). The recursive check over decoded type tables with its bit
cache, proved equal to a functional search, which is proved to decide the greatest relation closed under the
rules of the code; then these are shown to be a declarative rule for every pair of types, with the laws that follow
for the relation.

**Ropes** (`text_*`) and **integer codecs** (`radix`, `stable_bigint`, `leb128`, `leb128_word`). Flattening with a
continuation stack inside of the output buffer, comparison, the repacking of 60-bit digits to 64-bit words and
back, and LEB128 for integers of any size and for machine words (section 5.2.2 of the WebAssembly Core
Specification).

## What does not hold as one might expect

* The record scan of the subtype check is the declarative width and depth rule if and only if the tags of the two
  records are aligned (`RecordScanExact`). Otherwise the scan compares a field with one of another tag
  (`MissingFieldAccepted`) or forgets a field that it read too early (`OptionalFieldDenied`).
* Subtyping is not reflexive: a future type, whose content the decoder cannot know, is no subtype of itself, nor is a
  type in which one is met other than behind an option (`ReflexiveExact`).
* After a failed query the subtype cache may affirm what is false (`StaleAnswer`), but need not (`HarmlessFailure`). After
  any sequence of queries, its answers are right if and only if no pair that it takes for related has a component that
  it has disproved (`UsedExact`, `AfterExact`). A fresh cache, and one after successes only, is such. A denial is always
  right.
* The comment on the buffer of `idl_sub` asks for two bits for every pair of types; a pair needs two bits in each of
  two directions, which is what `BitRel::words` provides and the model follows.
* The migration of a stable memory preserves all memories of a given size if and only if that is less than 512 blocks,
  because the destination of the head block is a 32-bit product (`MigrationExact`). From there on it preserves
  a memory if and only if the head block and the block that it is written over hold nothing but zeros (`PreservedExact`), and
  otherwise `RegionByte` says what becomes of each byte.
* The signed machine-word decoder does not refuse every encoding of more than ten bytes
  (`Sleb128DecodeChecked`, `LongEncodingAccepted`).
* The marked sizes of a large object add up to its size if and only if that is no multiple of the partition size
  (`MarkedTotalExact`, `LastPieceUnmarked`): the last partition gets the size modulo the partition size. What the
  collector relies on, a size above zero in the first partition, holds always.
* The comment in `mark_bitmap.rs` puts bit `next_bit_index - 1` at the bottom of the current word; the code has
  shifted it out, so that bit `next_bit_index` is there (`Ahead`).

## Model

| member | source | states |
|---|---|---|
| GcCollector.Collector.Run | rts/motoko-rts/src/gc/incremental.rs:244-269 | For every sequence of barriered program steps and collector increments, cut anywhere by the time limit, the collected heap behaves as a machine that never reclaims or moves anything; a collection may only turn weak references to unreachable targets into null |
| GcCollector.Collector.EmptyCallStackIncrement | rts/motoko-rts/src/gc/incremental.rs:229-269 | Each increment keeps the whole invariant, and the program observes nothing but the clearing of weak references to unreachable objects. In a pause it starts a collection from what the program has then, otherwise it gets strictly closer to the end of the running one, and it stops before the end only when the time is over, when at most one more object or slice is begun. At the end every live object was reachable from the roots when the collection started, or from what has been allocated or loaded from a weak reference since, the same holds for the target of every live weak reference, no unneeded large object is left, and nothing lies in the partitions chosen for evacuation |
| GcCollector.Collector.CollectGarbage | rts/motoko-rts/src/gc/incremental.rs:244-269 | Increments one after the other come to the end of the collection; started in a pause, they leave exactly the objects that were reachable from the roots, each weak reference to anything else is null, and every large object that is left was reachable |
| GcCollector.OnlyReachableKept | rts/motoko-rts/src/gc/incremental.rs:244-334 | A collection in which the program did not run keeps exactly what was reachable when it started |
| GcCollector.Collector.MarkAndEvacuate | rts/motoko-rts/src/gc/incremental.rs:246-257 | From pause over marking into the evacuation phase: the phase invariants are established in turn, whichever transitions this increment makes, and a collection that is in its mark phase gets closer to its end |
| GcCollector.Collector.RelocateAndUpdate | rts/motoko-rts/src/gc/incremental.rs:258-268 | Evacuation, update and completion leave the graph that the program observes exactly as it was |
| GcMachine.ReachableUnchanged | rts/motoko-rts/src/gc/incremental/phases/mark_increment.rs:175-201 | An object reachable without weak edges is neither lost nor altered by a collection, and all it points to stays reachable |
| GcMachine.ReachableAfterClearing | rts/motoko-rts/src/gc/incremental/phases/mark_increment.rs:175-201 | Clearing weak references does not change what is reachable through other edges |
| GcCollector.Collector.StartMarking | rts/motoko-rts/src/gc/incremental.rs:276-283 | On an empty call stack the roots suffice to start the snapshot: the marking invariant holds |
| GcCycle.StartMarking | rts/motoko-rts/src/gc/incremental/phases/mark_increment.rs:35-45 | The snapshot invariant and the placement of all objects hold after the bitmaps are reserved and the roots taken over |
| GcMarking.SnapshotStart | rts/motoko-rts/src/gc/incremental/phases/mark_increment.rs:82-87 | With nothing marked, the targets of the roots are all that is to be marked |
| GcCollector.Collector.MarkObject | rts/motoko-rts/src/gc/incremental/phases/mark_increment.rs:114-142 | Exactly this object becomes marked; pushing it and registering it as a weak reference keep the snapshot-at-the-beginning invariant, and no more is marked than was reachable in the beginning or has entered since |
| GcMarking.MarkKeeps | rts/motoko-rts/src/gc/incremental/phases/mark_increment.rs:114-142 | Every unmarked object reachable from roots, locals or marked objects is still reachable from the mark stack after one more object is marked and pushed |
| GcMarking.SkipKeeps | rts/motoko-rts/src/gc/incremental/phases/mark_increment.rs:114-142 | An object that is marked already needs no further work |
| GcCollector.Collector.SliceArray | rts/motoko-rts/src/gc/incremental/array_slicing.rs:8-20 | The slice end is 128 elements further or the array length, and the array header is set to it or restored |
| GcCollector.Collector.MarkFields | rts/motoko-rts/src/gc/incremental/phases/mark_increment.rs:144-173 | Scanning an object, an array slice by slice with the rest pushed back, keeps the snapshot invariant, marks nothing that was not reachable without weak edges, and makes progress |
| GcMarking.PopKeeps | rts/motoko-rts/src/gc/incremental/phases/mark_increment.rs:144-173 | What a popped object leads to, including the slices of an array not visited yet, stays within reach of the stack and the work at hand |
| GcMarking.PopWeakKeeps | rts/motoko-rts/src/gc/incremental/phases/mark_increment.rs:144-153 | A weak reference can be dropped from the stack without following it |
| GcCollector.Collector.MarkRun | rts/motoko-rts/src/gc/incremental/phases/mark_increment.rs:89-112 | Interrupted at any point, marking keeps the snapshot invariant; it stops unfinished only when the time is over, with no more than one object or slice begun after that, and when it completes, all weak references are settled |
| GcMarking.MarkingComplete | rts/motoko-rts/src/gc/incremental/phases/mark_increment.rs:89-112 | With an empty mark stack every object reachable from roots and locals through non-weak edges is marked, and no array header holds a slice |
| GcCycle.MarkedClosed | rts/motoko-rts/src/gc/incremental/phases/mark_increment.rs:89-112 | The marked objects denote a set closed under all non-weak edges from the roots |
| GcCycle.UnmarkedUnreachable | rts/motoko-rts/src/gc/incremental/phases/mark_increment.rs:175-201 | An object that is not marked at the end of marking is not reachable through non-weak edges |
| GcCollector.Collector.CompleteMarking | rts/motoko-rts/src/gc/incremental/phases/mark_increment.rs:175-201 | Afterwards every marked weak reference is null or points to a marked object, also those allocated during marking, and only references to unreachable objects were cleared |
| GcCycle.WeakDropped | rts/motoko-rts/src/gc/incremental/phases/mark_increment.rs:181-195 | Clearing a registered weak reference with an unmarked target clears one whose target was unreachable |
| GcMarking.ReadKeeps | rts/motoko-rts/src/gc/incremental.rs:374-386 | Loading a field into a local keeps the snapshot invariant without a barrier |
| GcMarking.WriteKeeps | rts/motoko-rts/src/gc/incremental.rs:353-365 | Overwriting a field whose old target has been marked keeps the snapshot invariant |
| GcMarking.AllocateKeeps | rts/motoko-rts/src/gc/incremental.rs:389-422 | A new object that is marked at once, unscanned, keeps the snapshot invariant |
| GcPrecision.PreciseFields | rts/motoko-rts/src/gc/incremental/phases/mark_increment.rs:144-173 | The targets of a kept object that is no weak reference are as needful as the object itself |
| GcPrecision.PreciseStep | rts/motoko-rts/src/gc/incremental/barriers.rs:26-66 | No step of the program brings anything into reach that is not needful, if what it loads from a weak reference or allocates counts as having entered |
| GcPrecision.PreciseCreate | rts/motoko-rts/src/gc/incremental.rs:389-436 | A new object that is marked at once, with its fields, is no more than what is needful |
| GcPrecision.NeedfulReachable | rts/motoko-rts/src/gc/incremental/phases/mark_increment.rs:82-112 | What is needful to a collection into which nothing has entered is what was reachable when it started |
| GcPrecision.LiveClosed | rts/motoko-rts/src/gc/incremental/phases/mark_increment.rs:89-112 | The live objects include all that the program can reach without weak edges |
| GcPrecision.SettledAtEnd | rts/motoko-rts/src/gc/incremental/phases/mark_increment.rs:175-201 | When nothing is live that is not needful, every reachable weak reference is null or refers to something needful |
| GcCollector.Collector.SnapshotBarrier | rts/motoko-rts/src/gc/incremental.rs:353-386 | In the mark phase the target of the value is marked, in the other phases nothing changes |
| GcCollector.Collector.WriteWithBarrier | rts/motoko-rts/src/gc/incremental/barriers.rs:26-34 | The overwritten target is marked first in the mark phase, and the value is stored resolved through forwarding |
| GcCollector.Collector.AllocationBarrier | rts/motoko-rts/src/gc/incremental.rs:389-460 | A new object is marked in the mark and evacuation phases, its fields are resolved in the update phase if updates are needed, and the allocation is counted outside of the pause |
| GcCollector.Collector.UpdateNewAllocation | rts/motoko-rts/src/gc/incremental.rs:438-454 | All pointers in a new object are resolved through forwarding |
| GcCollector.Collector.WriteField | rts/motoko-rts/src/gc/incremental/barriers.rs:26-34 | A field write by the program, in any phase, is the write of the machine without collector |
| GcCollector.Collector.WriteRoot | rts/motoko-rts/src/gc/incremental/barriers.rs:26-34 | A root write by the program, in any phase, is the write of the machine without collector |
| GcCollector.Collector.ReadField | rts/motoko-rts/src/types.rs:303-312 | A field read through the forwarding address, in any phase, gives what the machine without collector reads |
| GcCollector.Collector.ReadWeak | rts/motoko-rts/src/gc/incremental/barriers.rs:42-52 | A read of a weak reference through the read barrier gives what the machine reads, and keeps the snapshot |
| GcCollector.Collector.Allocate | rts/motoko-rts/src/gc/incremental/barriers.rs:59-66 | Allocation, initialisation and barrier as one step create a fresh object of the machine |
| GcCollector.Collector.AllocateWeak | rts/motoko-rts/src/gc/incremental/barriers.rs:59-66 | The same for a weak reference |
| GcCollector.Collector.Perform | rts/motoko-rts/src/gc/incremental/barriers.rs:26-66 | Every program step implements the step of the machine with the same name and keeps the invariant of the running phase |
| GcCollector.Collector.StartEvacuation | rts/motoko-rts/src/gc/incremental.rs:302-308 | From completed marking into the evacuation phase: what is live are the marked objects, nothing is copied yet, and exactly those candidates that the partitioned heap selects are to be evacuated |
| GcCycle.StartEvacuating | rts/motoko-rts/src/gc/incremental/phases/evacuation_increment.rs:21-26 | The evacuation invariant holds for any choice of partitions without large objects and outside of the allocation partition |
| GcCollector.Collector.EvacuateObject | rts/motoko-rts/src/gc/incremental/phases/evacuation_increment.rs:78-100 | One marked object gets a new copy in a partition that is not evacuated; original and copy forward to the copy, which is marked |
| GcRelocation.CopyKeeps | rts/motoko-rts/src/gc/incremental/phases/evacuation_increment.rs:78-100 | Copying the next object keeps forwarding within one step, injective, and from evacuated partitions to marked objects elsewhere |
| GcModel.CoupledCopy | rts/motoko-rts/src/gc/incremental/phases/evacuation_increment.rs:83-92 | The copy takes over the identity: reads and writes through either address agree |
| GcCollector.Collector.EvacuationRun | rts/motoko-rts/src/gc/incremental/phases/evacuation_increment.rs:52-76 | Interrupted at any object, the evacuation keeps its invariant; it stops before the last partition only when the time is over, and then begins no other object |
| GcRelocation.EvacuationComplete | rts/motoko-rts/src/gc/incremental/phases/evacuation_increment.rs:33-35 | At the end every marked object of an evacuated partition has exactly one copy: marked, elsewhere, shared with no other object and not forwarded further |
| GcCollector.Collector.CollectLargeObjects | rts/motoko-rts/src/gc/incremental/partitioned_heap.rs:1003-1019 | Exactly the unmarked large objects leave the heap, without loss of a live object |
| GcCollector.Collector.StartUpdating | rts/motoko-rts/src/gc/incremental.rs:315-322 | From completed evacuation into the update phase: roots are resolved and all other pointers are scheduled |
| GcCollector.Collector.UpdateRoots | rts/motoko-rts/src/gc/incremental/phases/update_increment.rs:52-63 | Every root is resolved through forwarding and none points into an evacuated partition |
| GcCollector.Collector.UpdateSlice | rts/motoko-rts/src/gc/incremental/phases/update_increment.rs:106-129 | The next slice of an array, or all fields of another object, are resolved; the header tells how far; a finished object has no pointer into an evacuated partition |
| GcCollector.Collector.UpdateFields | rts/motoko-rts/src/gc/incremental/phases/update_increment.rs:106-129 | Updating stops only when the object is done or the time is over |
| GcRelocation.SliceKeeps | rts/motoko-rts/src/gc/incremental/phases/update_increment.rs:106-129 | An array whose header says that its first elements are updated keeps the update invariant, though the program writes in between |
| GcRelocation.UpdatingWrite | rts/motoko-rts/src/gc/incremental/barriers.rs:26-34 | A write of a resolved value during the update phase does not bring a stale pointer back |
| GcRelocation.UpdatingAllocate | rts/motoko-rts/src/gc/incremental.rs:438-454 | An allocation during the update phase does not bring a stale pointer in |
| GcCollector.Collector.UpdateRun | rts/motoko-rts/src/gc/incremental/phases/update_increment.rs:65-77 | Interrupted at any object or slice, the update keeps its invariant; it stops before the last partition only when the time is over, and then begins no other object or slice |
| GcCycle.UpdatesComplete | rts/motoko-rts/src/gc/incremental/phases/update_increment.rs:36-38 | When the update is complete, no root and no field of a live object points to a forwarded object or into an evacuated partition |
| GcCollector.Collector.CompleteRun | rts/motoko-rts/src/gc/incremental.rs:329-334 | Partitions are freed and every object that is still live survives at its address and unaltered; nothing else is left but what was needful, and nothing in the partitions that were evacuated |
| GcCycle.CompleteRun | rts/motoko-rts/src/gc/incremental/phases/update_increment.rs:30-34 | After the evacuated partitions are freed, the invariant of the pause holds again: no forwarded pointer anywhere |
| GcHeap.PartitionedHeap.constructor | rts/motoko-rts/src/gc/incremental/partitioned_heap.rs:512-533 | The initial heap satisfies the invariant, with the static space as its total |
| GcHeap.PartitionedHeap.OccupiedSize | rts/motoko-rts/src/gc/incremental/partitioned_heap.rs:850-861 | The occupied size is the sum of static and dynamic sizes over all partitions |
| GcHeap.PartitionedHeap.TotalAllocatedSize | rts/motoko-rts/src/gc/incremental/partitioned_heap.rs:871-875 | The total is the static space and all bytes ever requested except for evacuation copies, whatever was reclaimed or moved |
| GcHeap.PartitionedHeap.AddPartitionTable | rts/motoko-rts/src/gc/incremental/partitioned_heap.rs:595-612 | A table of free partitions is appended, its own space accounted for as static, nothing else changes |
| GcHeap.PartitionedHeap.Scan | rts/motoko-rts/src/gc/incremental/partitioned_heap.rs:630-637 | The first suitable partition is found, and none only if there is none |
| GcHeap.PartitionedHeap.ScanForLargeSpace | rts/motoko-rts/src/gc/incremental/partitioned_heap.rs:969-982 | The first range of completely free partitions of that length is found, and none only if there is none |
| GcHeap.PartitionedHeap.AllocatePartition | rts/motoko-rts/src/gc/incremental/partitioned_heap.rs:614-628 | A table of partitions is added only if none suits; Only a request for at least 128 contiguous partitions can fail after a table has been added |
| GcHeap.PartitionedHeap.AllocateTemporaryPartition | rts/motoko-rts/src/gc/incremental/partitioned_heap.rs:639-648 | A completely free partition becomes temporary; partitions in use are untouched |
| GcHeap.PartitionedHeap.AllocateBitmap | rts/motoko-rts/src/gc/incremental/partitioned_heap.rs:651-664 | The bitmap memory lies in a temporary partition and belongs to no other bitmap |
| GcHeap.PartitionedHeap.AllocateFreePartition | rts/motoko-rts/src/gc/incremental/partitioned_heap.rs:826-848 | An empty partition with enough space is taken, with a bitmap exactly when the collector is running |
| GcHeap.PartitionedHeap.AllocateNormalObject | rts/motoko-rts/src/gc/incremental/partitioned_heap.rs:886-902 | A new block where none was: in the allocation partition if and only if there is room, and in a new one otherwise; all other blocks and marks stay; free count and sizes stay exact |
| GcHeap.PartitionedHeap.AllocateInNewPartition | rts/motoko-rts/src/gc/incremental/partitioned_heap.rs:907-925 | The same when a new partition becomes the allocation partition |
| GcHeap.PartitionedHeap.AllocateLargeObject | rts/motoko-rts/src/gc/incremental/partitioned_heap.rs:929-967 | Contiguous partitions are filled with the sizes adding up to the object; it traps above the size limit, and otherwise only when it needs 128 or more contiguous partitions and there are none |
| GcHeap.PartitionedHeap.Allocate | rts/motoko-rts/src/gc/incremental/partitioned_heap.rs:877-884 | Allocation of any size: one new block, all others kept, accounting exact |
| GcHeap.PartitionedHeap.MarkLargeObject | rts/motoko-rts/src/gc/incremental/partitioned_heap.rs:1038-1050 | A large object is marked by a marked size above zero of its first partition; no other object is affected; the recorded sizes add up to its size exactly if it does not fill its last partition |
| GcHeap.PartitionedHeap.MarkObject | rts/motoko-rts/src/gc/incremental/partitioned_heap.rs:667-682 | Exactly this block becomes marked, and the result tells whether it was unmarked; the marked size stays the sum over marked blocks |
| GcHeap.PartitionedHeap.EvacuateObject | rts/motoko-rts/src/gc/incremental/phases/evacuation_increment.rs:78-100 | The copy is a marked block elsewhere; it counts as evacuated, not as requested; all other blocks and marks are kept |
| GcHeap.PartitionedHeap.StartCollection | rts/motoko-rts/src/gc/incremental/partitioned_heap.rs:696-711 | Every partition in use without large content gets a bitmap of its own, empty, and nothing else in use changes |
| GcHeap.PartitionedHeap.RankPartitionsByGarbage | rts/motoko-rts/src/gc/incremental/partitioned_heap.rs:751-767 | Each partition index once, by descending garbage |
| GcHeap.PartitionedHeap.PlanEvacuations | rts/motoko-rts/src/gc/incremental/partitioned_heap.rs:713-742 | A partition is selected only if it is not the allocation partition, is in use, holds small objects, and leaves at least 15 percent of its dynamic space unmarked; every such partition is selected unless one of at least as many unmarked bytes does not fit; the marked bytes of those selected fit into half of the free partitions, rounded up |
| GcHeap.DeadPartitionSelected | rts/motoko-rts/src/gc/incremental/partitioned_heap.rs:174-179 | A partition with small objects, none of them marked, is selected unless one with at least as much garbage does not fit |
| GcHeap.PartitionedHeap.PlanUpdates | rts/motoko-rts/src/gc/incremental/partitioned_heap.rs:769-774 | Exactly the used partitions that are not evacuated are to be updated |
| GcHeap.PartitionedHeap.FreeLargeObject | rts/motoko-rts/src/gc/incremental/partitioned_heap.rs:1021-1033 | All partitions of the object become free and its bytes reclaimed |
| GcHeap.PartitionedHeap.CollectLargeObjects | rts/motoko-rts/src/gc/incremental/partitioned_heap.rs:1003-1019 | Exactly the partitions of unmarked large objects are freed, and the total allocated size is unchanged |
| GcHeap.PartitionedHeap.CompleteCollection | rts/motoko-rts/src/gc/incremental/partitioned_heap.rs:776-799 | Exactly evacuated and temporary partitions are freed, all bitmaps released, and the total allocated size is unchanged when all marked blocks were copied |
| GcPartitions.BlocksApart | rts/motoko-rts/src/gc/incremental/partitioned_heap.rs:886-967 | No two blocks overlap, small or large, in whatever partitions |
| GcPartitions.BitmapApart | rts/motoko-rts/src/gc/incremental/partitioned_heap.rs:651-664 | No mark bitmap overlaps a block |
| GcPartitions.BitmapsApart | rts/motoko-rts/src/gc/incremental/partitioned_heap.rs:651-664 | No two mark bitmaps overlap |
| GcLarge.FilledLargeOk | rts/motoko-rts/src/gc/incremental/partitioned_heap.rs:929-967 | A new large object keeps all large objects in order: each with its partitions for itself |
| GcLarge.MarkedOk | rts/motoko-rts/src/gc/incremental/partitioned_heap.rs:1038-1050 | The recorded marked sizes fit the partitions, though the last one is the size modulo the partition size |
| GcLarge.MarkedTotalExact | rts/motoko-rts/src/gc/incremental/partitioned_heap.rs:1038-1050 | The marked sizes of a marked large object add up to its size if and only if that is no multiple of the partition size; otherwise one partition is missing |
| GcLarge.LastPieceUnmarked | rts/motoko-rts/src/gc/incremental/partitioned_heap.rs:1046-1048 | An object of exactly two partitions records the size of one |
| GcLarge.EmptiedOk | rts/motoko-rts/src/gc/incremental/partitioned_heap.rs:1021-1033 | Freeing one large object keeps the others in order |
| GcHeap.WithMarkOk | rts/motoko-rts/src/gc/incremental/partitioned_heap.rs:667-682 | The marked size never exceeds the dynamic size |
| GcCollection.CompletedShape | rts/motoko-rts/src/gc/incremental/partitioned_heap.rs:776-799 | After the collection no bitmap, mark, temporary or evacuated partition is left, and every large object is unmarked |
| GcRefinement.BlocksPlaced | rts/motoko-rts/src/gc/incremental/partitioned_heap.rs:886-967 | The blocks of the partitions are placed as the collector model requires of its heap |
| GcRefinement.AllocationGranted | rts/motoko-rts/src/gc/incremental/partitioned_heap.rs:877-884 | A block from the partitioned heap is a grant that the collector model allows: new, not in an evacuated partition, all partitions in use untouched |
| GcRefinement.MarkRepresented | rts/motoko-rts/src/gc/incremental/partitioned_heap.rs:667-682 | Marking a block adds exactly its address to the marked set of the collector model |
| GcRefinement.CopyRepresented | rts/motoko-rts/src/gc/incremental/phases/evacuation_increment.rs:78-100 | An evacuated block is the forwarded original of the collector model, and the new block its copy |
| GcRefinement.StartRefines | rts/motoko-rts/src/gc/incremental/partitioned_heap.rs:696-711 | Starting a collection changes the partitions only as the collector model allows: free ones may become temporary |
| GcRefinement.PlanRefines | rts/motoko-rts/src/gc/incremental/partitioned_heap.rs:713-742 | The planned evacuations are a choice of candidates that the collector model allows |
| GcRefinement.UpdatesRefine | rts/motoko-rts/src/gc/incremental/partitioned_heap.rs:769-774 | The planned updates are those of the collector model |
| GcRefinement.FreeLargeRefines | rts/motoko-rts/src/gc/incremental/partitioned_heap.rs:1021-1033 | Freeing a large object removes it, and only it, from the heap of the collector model |
| GcRefinement.CompletionRefines | rts/motoko-rts/src/gc/incremental/partitioned_heap.rs:776-799 | Completing a collection releases the partitions and keeps the objects that the collector model expects |
| GcJoint.StepRefines | rts/motoko-rts/src/gc/incremental/partitioned_heap.rs:667-967 | One operation on the partitioned heap and on the heap of the collector: both still agree on partitions, objects, forwarding and marks, and the operation is what the collector relies on |
| GcJoint.RunRefines | rts/motoko-rts/src/gc/incremental/partitioned_heap.rs:667-1050 | Throughout every run of both, they agree, and every operation is what the collector relies on |
| GcJoint.EvacuatedAllCopied | rts/motoko-rts/src/gc/incremental/phases/evacuation_increment.rs:33-35 | When the collector has finished the evacuation, all marked blocks of evacuated partitions are copied, as the accounting at the end of the collection needs |
| GcJoint.UpdatedAllCopied | rts/motoko-rts/src/gc/incremental/phases/update_increment.rs:30-38 | And it stays so until the update is complete |
| GcBitmap.MarkBitmap.Assign | rts/motoko-rts/src/gc/incremental/mark_bitmap.rs:52-58 | A bitmap starts without marks |
| GcBitmap.MarkBitmap.IsMarked | rts/motoko-rts/src/gc/incremental/mark_bitmap.rs:71-78 | The bit of the byte is the mark of the offset |
| GcBitmap.MarkBitmap.Mark | rts/motoko-rts/src/gc/incremental/mark_bitmap.rs:81-88 | Exactly this offset becomes marked |
| GcBitmap.BitmapIterator.constructor | rts/motoko-rts/src/gc/incremental/mark_bitmap.rs:125-139 | The iterator starts at the first marked bit, or at the end |
| GcBitmap.BitmapIterator.CurrentMarkedOffset | rts/motoko-rts/src/gc/incremental/mark_bitmap.rs:142-149 | The sentinel is given exactly at the end, and before that the marked offset that the iterator is at |
| GcBitmap.BitmapIterator.Next | rts/motoko-rts/src/gc/incremental/mark_bitmap.rs:152-180 | The iterator moves to the next marked bit, skipping none, including the very last bit; at the end it stays at the sentinel |
| GcBitmap.VisitAll | rts/motoko-rts/src/gc/incremental/mark_bitmap.rs:124-181 | An iteration enumerates exactly the marked offsets, in ascending order, each once |
| GcBitmap.WordBits | rts/motoko-rts/src/gc/incremental/mark_bitmap.rs:173-176 | The bits of a loaded word are those of its bytes in order |
| GcSort.Sort | rts/motoko-rts/src/gc/incremental/sort.rs:5-13 | A sorted permutation for any total preorder |
| GcSort.Quicksort | rts/motoko-rts/src/gc/incremental/sort.rs:17-57 | The range is sorted and permuted, the rest of the array stays; both recursive ranges are strictly smaller |
| GcSort.Divide | rts/motoko-rts/src/gc/incremental/sort.rs:23-47 | After the partitioning loop everything before `forward` is at most the pivot and everything after `backward` at least; the unsigned `backward` never drops below `start` |
| GcSort.SortedParts | rts/motoko-rts/src/gc/incremental/sort.rs:48-56 | Two sorted ranges around the pivot make a sorted whole |
| CopyRoundTrip.RootedRoundTrip | rts/motoko-rts/src/stabilization/graph_copy.rs:26-90 | Loading what has been saved gives a graph isomorphic to the one reachable before: each object once, sharing and cycles kept, also through addresses forwarded by the collector, closures replaced by the dummy; and each root that is handed back is the image of the root that was saved |
| CopyRoundTrip.SaveAndLoad | rts/motoko-rts/src/stabilization/ic.rs:66-267 | Both programs one after the other, each interrupted anywhere by its limits: with as many increments as twice the words of the heap they come to their ends, and then actor, deduplication table and list of migrations in the new heap are the images of the old ones, with exactly what was reachable from them, and nothing else in the new heap has changed |
| CopyRoundTrip.Save | rts/motoko-rts/src/stabilization/ic.rs:66-120 | From up to three roots, each gets its stable address, the actor the first one; the outcome is that of an uninterrupted scan, and as many increments suffice as the heap has words, whatever the limits of an increment |
| CopyRoundTrip.Load | rts/motoko-rts/src/stabilization/deserialization.rs:54-95 | The first stable object becomes the root of the actor, and the other roots are loaded from their stable addresses if there are any; as many increments suffice as there are words to copy and to clear |
| CopySerialization.MovedStays | rts/motoko-rts/src/stabilization/serialization.rs:172-181 | An object keeps the stable address that it was once given |
| CopyRoundTrip.SerializedStreamOk | rts/motoko-rts/src/stabilization/layout.rs:408-457 | A complete stream meets all that deserialization relies on |
| CopyModel.CopyOfCopy | rts/motoko-rts/src/stabilization/graph_copy.rs:55-90 | A copy of a copy is a copy |
| CopyModel.CopyReachable | rts/motoko-rts/src/stabilization/graph_copy.rs:55-90 | A copy of what is reachable has nothing unreachable |
| CopyLimit.ExecutionMonitor.IsExceeded | rts/motoko-rts/src/stabilization/graph_copy/limit.rs:89-112 | It tells that a limit is exceeded only when it is, and never at the beginning of an increment; accesses beyond the limit are always noticed, instructions after a bounded number of further calls or bytes |
| CopyLimit.ExecutionMonitor.Reset | rts/motoko-rts/src/stabilization/graph_copy/limit.rs:114-117 | At the beginning of an increment nothing is used up |
| CopySerialization.StreamBounded | rts/motoko-rts/src/stabilization/serialization.rs:183-202 | The stream never has more words than the heap |
| CopyDeserialization.PendingBounded | rts/motoko-rts/src/stabilization/deserialization.rs:101-131 | Objects of the stream do not overlap, so that what is to be translated is no more than the stream |
| CopySerialization.SerializationComplete | rts/motoko-rts/src/stabilization/serialization.rs:204-210 | When the scan is complete, the stream is a copy of exactly what is reachable from the roots |
| CopyHeap.NextKeeps | rts/motoko-rts/src/stabilization/serialization.rs:183-202 | Every scan step keeps the invariant and decreases, lexicographically, the objects not yet copied and the words not yet scanned |
| CopyHeap.EvacuateKeeps | rts/motoko-rts/src/stabilization/graph_copy.rs:81-90 | An object is copied when it is first met; later meetings, also by aliases, lead to the same copy |
| CopyHeap.CopiedKeeps | rts/motoko-rts/src/stabilization/serialization.rs:172-181 | Appending the copy and overwriting the original by a forwarding object keep the invariant |
| CopyHeap.ObjectSizeRight | rts/motoko-rts/src/stabilization/layout/stable_object.rs:126-144 | The number of fields is found through the hash blob, whether or not it has been moved already |
| CopyHeap.Finish | rts/motoko-rts/src/stabilization/graph_copy.rs:55-69 | The outcome of the scan is determined by the state, and is complete |
| CopySerialization.Serialization.Start | rts/motoko-rts/src/stabilization/serialization.rs:75-99 | The root is the first object of the stream |
| CopySerialization.Serialization.Copy | rts/motoko-rts/src/stabilization/serialization.rs:172-181 | The object is appended with its old field values, at the end of the stream |
| CopySerialization.Serialization.Evacuate | rts/motoko-rts/src/stabilization/graph_copy.rs:81-90 | The forwarding is resolved, and the copy is made or found |
| CopySerialization.Serialization.ScanField | rts/motoko-rts/src/stabilization/serialization.rs:183-202 | One field is translated: a pointer to the copy of its target, a closure to the dummy |
| CopySerialization.Serialization.SlicedArrayScan | rts/motoko-rts/src/stabilization/layout/stable_array.rs:129-148 | Elements are translated until the time is over; the outcome of the whole scan is unaffected and progress is made |
| CopySerialization.Serialization.ResumeScanning | rts/motoko-rts/src/stabilization/layout/stable_array.rs:111-127 | A pending array is resumed where it was interrupted |
| CopySerialization.Serialization.Scan | rts/motoko-rts/src/stabilization/serialization.rs:183-202 | The next object is scanned, or a pending array resumed, with progress |
| CopySerialization.Serialization.CopyIncrement | rts/motoko-rts/src/stabilization/graph_copy.rs:55-69 | For every sequence of time-outs, also inside of an array, the stream and the forwarding in the end are those of an uninterrupted run; an increment on an unfinished copy scans at least one more word, and stops unfinished only when instructions or memory accesses are used up; when the latter are, it begins neither another object nor another element of an array |
| CopySerialization.Serialization.Complete | rts/motoko-rts/src/stabilization/graph_copy.rs:45-50 | A complete serialization holds a copy of exactly what is reachable from its roots |
| CopyDeserialization.DeserializationComplete | rts/motoko-rts/src/stabilization/deserialization.rs:199-201 | With an empty scan stack the heap holds a copy of all that is in the stream |
| CopyDeserialization.CopiedToKeeps | rts/motoko-rts/src/stabilization/deserialization.rs:167-178 | Reading an object and pushing it on the scan stack keep the invariant: what is on the stack is exactly what is not translated |
| CopyDeserialization.PoppedKeeps | rts/motoko-rts/src/stabilization/deserialization.rs:101-131 | Taking an object or the next slice of an array from the stack keeps the invariant |
| CopyDeserialization.FieldTranslated | rts/motoko-rts/src/stabilization/deserialization.rs:180-197 | Each field is translated once, to the heap address of its target |
| CopyDeserialization.Deserialization.Copy | rts/motoko-rts/src/stabilization/deserialization.rs:167-178 | A stable object that has not been moved gets a new heap object with the same content |
| CopyDeserialization.Deserialization.Evacuate | rts/motoko-rts/src/stabilization/graph_copy.rs:81-90 | The heap address of a stable object is always the same |
| CopyDeserialization.Deserialization.Start | rts/motoko-rts/src/stabilization/deserialization.rs:64-95 | The first root is the object at the start of the stable memory |
| CopyDeserialization.Deserialization.ScanFields | rts/motoko-rts/src/stabilization/deserialization.rs:101-131 | All fields of the slice are translated, with nothing else undone |
| CopyDeserialization.Deserialization.Scan | rts/motoko-rts/src/stabilization/deserialization.rs:180-197 | One object or slice is scanned, with progress |
| CopyDeserialization.Deserialization.Cleanup | rts/motoko-rts/src/stabilization/deserialization.rs:209-221 | A further part of the stable memory is cleared |
| CopyDeserialization.Deserialization.CopyIncrement | rts/motoko-rts/src/stabilization/graph_copy.rs:55-69 | Interrupted anywhere, the invariant holds and addresses given out stay valid; an increment on an unfinished copy gets closer to the end, and stops before copying and clearing are done only when instructions or memory accesses are used up; when the latter are, it begins nothing else |
| CopyDeserialization.Deserialization.Complete | rts/motoko-rts/src/stabilization/deserialization.rs:199-207 | A completed deserialization holds a copy of the whole stream, and the stable memory is cleared |
| RegionManager.Regions.New | rts/motoko-rts/src/region.rs:498-513 | A fresh, empty region; all others keep their contents; refused exactly when the identifiers are used up |
| RegionManager.Regions.Grow | rts/motoko-rts/src/region.rs:833-928 | The region is extended by zeros, all others keep their contents, and the memory gets as large as metadata and blocks in use demand, if it is not already. It fails exactly if the region gets too large, or if the memory must grow and may not, because of its limit or because the environment, which is asked only then, refuses; then nothing changes |
| RegionManager.Regions.Commit | rts/motoko-rts/src/region.rs:870-928 | Header, block table, page vector and size are updated together |
| RegionManager.Regions.CommitTable | rts/motoko-rts/src/region.rs:880-924 | The entries of the last old block and of the new blocks are written, no other |
| RegionManager.Regions.RelativeIntoAbsoluteInfo | rts/motoko-rts/src/region.rs:188-209 | The place of a byte, and what is left of its block |
| RegionManager.Regions.Load | rts/motoko-rts/src/region.rs:931-988 | A load over any number of blocks is one read of a flat array, with the bounds check of the code |
| RegionManager.Regions.LoadSpan | rts/motoko-rts/src/region.rs:938-987 | The part in the first block and the following blocks join to the flat range |
| RegionManager.Regions.LoadBlocks | rts/motoko-rts/src/region.rs:955-987 | The blocks after the first give the rest of the flat range |
| RegionManager.Regions.Store | rts/motoko-rts/src/region.rs:991-1042 | A store over any number of blocks is one write to a flat array, and changes no other region |
| RegionManager.Regions.StoreSpan | rts/motoko-rts/src/region.rs:998-1041 | The same behind the bounds check |
| RegionManager.Regions.StoreBlocks | rts/motoko-rts/src/region.rs:1014-1041 | The blocks after the first receive the rest of the bytes |
| RegionHistory.Run | rts/motoko-rts/src/region.rs:498-1042 | Every sequence of creating, growing, loading, storing and recovering regions is one on a map from identifiers to flat zero-extended byte arrays, each of whose replies is determined by the requests before it and the answers of the environment: creation fails exactly when the identifiers are used up, growth exactly when the region gets too large or the memory must grow and may not, and recovery exactly for an identifier neither given out nor reserved |
| RegionHistory.Perform | rts/motoko-rts/src/region.rs:498-1042 | Each operation is that on flat arrays, with exactly its failures, also with an unknown identifier or a range out of bounds |
| RegionHistory.RecoverRegion | rts/motoko-rts/src/region.rs:516-568 | A region object built again from the block table is the one that was there, and a reserved region without one is an empty region |
| RegionManager.CheckRelativeRange | rts/motoko-rts/src/region.rs:171-184 | The range is accepted exactly when it is within the region; an empty one exactly when its offset is |
| RegionManager.CountPages | rts/motoko-rts/src/region.rs:516-541 | The table entries of a region add up to its page count |
| RegionManager.RecoverVector | rts/motoko-rts/src/region.rs:543-567 | The table entries of a region give its page vector |
| RegionManager.Recover | rts/motoko-rts/src/region.rs:516-568 | After any history the block table alone determines page count and page vector of every region given out or reserved, and others cannot be recovered |
| RegionModel.AtOffset | rts/motoko-rts/src/region.rs:188-209 | Every byte of a region has a place in a block that the table gives to it |
| RegionModel.AtInjective | rts/motoko-rts/src/region.rs:188-209 | No two bytes, of the same or of different regions, share a place |
| RegionModel.StoredAll | rts/motoko-rts/src/region.rs:991-1042 | Writing piece by piece is one write to the flat array and leaves the other regions as they were |
| RegionModel.GrownContents | rts/motoko-rts/src/region.rs:833-928 | Growth appends zeros and keeps all other contents |
| RegionModel.BlockPageCount | rts/motoko-rts/src/region.rs:629-645 | Every block of a region holds at least one page and at most the block size |
| RegionLayout.DecodeEncode | rts/motoko-rts/src/region.rs:234-250 | Numbers written little-endian are read back |
| RegionLayout.GetSetEntry | rts/motoko-rts/src/region.rs:349-372 | A table entry is read back as it was written |
| RegionLayout.SetEntryOutside | rts/motoko-rts/src/region.rs:360-372 | Writing a table entry changes no other byte |
| RegionMigration.MigrateFromNone | rts/motoko-rts/src/region.rs:580-627 | A fresh memory is laid out with an empty region 0 and the reserved identifiers; it traps exactly if the pages of the metadata are not granted |
| RegionMigration.MigrateFromSome | rts/motoko-rts/src/region.rs:652-754 | The old memory becomes region 0, laid out by the table; its bytes are determined for any size, and are the old ones if and only if there are less than 512 blocks or nothing to lose; it traps exactly for too many pages, at the limit, or if the environment refuses |
| RegionMigration.MigrationExact | rts/motoko-rts/src/region.rs:700-712 | The relocation of the head block preserves every memory of a size if and only if that size has less than 512 blocks |
| RegionMigration.PreservedExact | rts/motoko-rts/src/region.rs:700-712 | The relocation of the head block preserves a memory if and only if that has less than 512 blocks, or nothing but zeros in the head block and in the block that it is written over |
| RegionMigration.HeadMovedAt | rts/motoko-rts/src/region.rs:700-712 | From 512 blocks on the 32-bit product wraps: the first block of region 0 is zero, another block holds the old head block or, if that is block 0 itself, none does, and all else is in its place |
| RegionMigration.WriteMagic | rts/motoko-rts/src/region.rs:375-386 | The header can be read back, and nothing behind it changes |
| RegionMigration.WriteTable | rts/motoko-rts/src/region.rs:726-745 | The head block gets rank 0 at the end, the other blocks the following ranks |
| RegionMigration.MigratedContents | rts/motoko-rts/src/region.rs:652-754 | For any number of blocks the result is a valid memory of the manager, whose region 0 holds the bytes that HeadMovedAt tells |
| IdlSub.IdlSub | rts/motoko-rts/src/idl.rs:1433-1466 | On a cache after any queries, a denial is right, and on a settled one, such as a fresh one or one after successes only, the answer is exactly membership in the greatest relation closed under the rules of the code; a success keeps the cache settled |
| IdlSub.Sub | rts/motoko-rts/src/idl.rs:1119-1393 | The recursive check with its bit cache computes, for any cache, the outcome and the cache of the memoised search; it terminates because unvisited cells decrease |
| IdlSub.SubPrimitive | rts/motoko-rts/src/idl.rs:1140-1190 | Without a pair of table entries the answer needs no component |
| IdlSub.SubTables | rts/motoko-rts/src/idl.rs:1147-1380 | Both types are unfolded and compared by their constructors |
| IdlSub.SubCon | rts/motoko-rts/src/idl.rs:1183-1384 | The components asked for, in order, are those of the constructors |
| IdlSub.SubFunc | rts/motoko-rts/src/idl.rs:1200-1275 | Parameters are compared with polarity and tables exchanged, results without, annotations as sets |
| IdlSub.SubPositional | rts/motoko-rts/src/idl.rs:1204-1254 | Positional comparison, where missing positions need null, opt or reserved |
| IdlSub.SubRecord | rts/motoko-rts/src/idl.rs:1276-1316 | The field scan with its held-back field, as coded |
| IdlSub.NextField | rts/motoko-rts/src/idl.rs:1286-1294 | Fields are read until one is not before the tag or none is left |
| IdlSub.SubVariant | rts/motoko-rts/src/idl.rs:1317-1345 | The scan over alternatives |
| IdlSub.SubService | rts/motoko-rts/src/idl.rs:1347-1380 | The scan over method names |
| IdlCheck.AskExact | rts/motoko-rts/src/idl.rs:1119-1393 | From an exact cache the search answers whether the types are related, and a success keeps the cache exact |
| IdlCheck.AskComplete | rts/motoko-rts/src/idl.rs:1119-1393 | What is related is never denied, whatever the cache has seen |
| IdlCheck.AskSound | rts/motoko-rts/src/idl.rs:1119-1393 | What a success newly believes justifies itself together with what was believed |
| IdlCheck.BelievedConsistent | rts/motoko-rts/src/idl.rs:1131-1138 | What an exact cache believes is closed under the rules |
| IdlCheck.RelatedUnfolds | rts/motoko-rts/src/idl.rs:1183-1384 | Two types are related exactly when their components are |
| IdlCheck.StaleAnswer | rts/motoko-rts/src/idl.rs:1386-1391 | After a failed query a cell can stay related on the strength of an assumption that was disproved: such a cache is not settled |
| IdlCheck.UsedExact | rts/motoko-rts/src/idl.rs:1119-1393 | Whatever queries a cache has seen, all of its answers are right if and only if no pair that it takes for related has a disproved component |
| IdlCheck.AfterExact | rts/motoko-rts/src/idl.rs:1119-1393 | The same for the cache after any sequence of queries on a fresh one |
| IdlCheck.AskKeepsUsed | rts/motoko-rts/src/idl.rs:1119-1393 | What the cache denies is unrelated and what it affirms has had all components answered, after every further query |
| IdlCheck.AskRecords | rts/motoko-rts/src/idl.rs:1129-1138 | Every newly visited pair that is not disproved passes its own scan and has all of its components visited |
| IdlCheck.DenialRight | rts/motoko-rts/src/idl.rs:1386-1391 | A denial is right whatever the cache has seen |
| IdlCheck.SettledSound | rts/motoko-rts/src/idl.rs:1119-1393 | An affirmation from a settled cache is right, and leaves the cache settled |
| IdlCheck.ExactUsed | rts/motoko-rts/src/idl.rs:1119-1393 | A cache that has seen nothing but successes is settled |
| IdlCheck.HarmlessFailure | rts/motoko-rts/src/idl.rs:1386-1391 | A failed query after which all answers are right |
| IdlCheck.ScanWithin | rts/motoko-rts/src/idl.rs:1183-1384 | Every component asked for is a pair of the tables, also under the exchange of sides |
| IdlLaws.ScanOfExact | rts/motoko-rts/src/idl.rs:1184-1384 | For every pair of heads, the components that the scan asks for are related if and only if a declarative rule holds: the table of primitive pairs, principal above services, options and reserved above and empty below everything, covariant vectors, and the rules of records, variants, functions and services |
| IdlLaws.ConScanExact | rts/motoko-rts/src/idl.rs:1191-1384 | The same between two constructed types |
| IdlLaws.RelatedRule | rts/motoko-rts/src/idl.rs:1184-1384 | The relation that the check decides is the one that unfolds by this rule |
| IdlLaws.PrimitivesRelated | rts/motoko-rts/src/idl.rs:1142-1190 | Two primitive types are related if and only if they are equal, nat and int, or the left one is empty or the right one reserved |
| IdlLaws.NatBelowInt | rts/motoko-rts/src/idl.rs:1189 | nat is below int, and int is not below nat |
| IdlLaws.LeastAndGreatest | rts/motoko-rts/src/idl.rs:1187-1190 | empty is below every type, reserved and every option above it |
| IdlLaws.OnlyEmptyBelow | rts/motoko-rts/src/idl.rs:1187-1190 | Nothing else is below empty, and nothing else above reserved |
| IdlLaws.VectorsRelated | rts/motoko-rts/src/idl.rs:1191-1199 | Vectors are related exactly when their elements are |
| IdlLaws.ConstructorsApart | rts/motoko-rts/src/idl.rs:1184-1384 | Types with different constructors are unrelated, but for options on the right |
| IdlLaws.ReflexiveExact | rts/motoko-rts/src/idl.rs:1142-1384 | A type is related to itself if and only if no future type is met in it other than behind options |
| IdlTypes.CompareFirst | rts/motoko-rts/src/idl.rs:113-125 | Method names are compared by the first byte in which they differ, or else by their lengths |
| IdlCheck.MissingFieldAccepted | rts/motoko-rts/src/idl.rs:1283-1315 | The last field of a shorter record is compared with a later field of another tag |
| IdlCheck.OptionalFieldDenied | rts/motoko-rts/src/idl.rs:1283-1315 | A last field that was read early is not reconsidered |
| IdlRules.RecordScanExact | rts/motoko-rts/src/idl.rs:1276-1316 | The record scan is the declarative width and depth rule, for all field types, if and only if the tags are aligned |
| IdlRules.RecordScanAligned | rts/motoko-rts/src/idl.rs:1276-1316 | On aligned tags, the rest of the scan from any position is the rest of the rule |
| IdlRules.FuncScanExact | rts/motoko-rts/src/idl.rs:1200-1275 | Contravariant parameters, covariant results, equal annotations |
| IdlRules.PositionalScanExact | rts/motoko-rts/src/idl.rs:1204-1254 | Every position is matched, or the type may be missing |
| IdlRules.VariantScanExact | rts/motoko-rts/src/idl.rs:1317-1345 | Every alternative has a related one with the same tag |
| IdlRules.ServiceScanExact | rts/motoko-rts/src/idl.rs:1347-1380 | Every method has a related one with the same name |
| BitRel.CellInRange | rts/motoko-rts/src/bitrel.rs:22-58 | Every cell lies in the buffer |
| BitRel.CellsDistinct | rts/motoko-rts/src/bitrel.rs:38-58 | Different pairs have different cells, also under the exchange of sides |
| BitRel.Relation.constructor | rts/motoko-rts/src/bitrel.rs:26-35 | Nothing is visited in a fresh relation |
| BitRel.Relation.Locate | rts/motoko-rts/src/bitrel.rs:38-58 | Word and bit of a cell |
| BitRel.Relation.Set | rts/motoko-rts/src/bitrel.rs:61-67 | Exactly one bit of one pair is set |
| BitRel.Relation.Visit | rts/motoko-rts/src/bitrel.rs:80-84 | Exactly this pair becomes visited |
| BitRel.Relation.Disprove | rts/motoko-rts/src/bitrel.rs:95-97 | Exactly this pair becomes disproved |
| BitRel.Relation.Visited | rts/motoko-rts/src/bitrel.rs:76-78 | The bit tells whether the pair has been visited |
| BitRel.Relation.Related | rts/motoko-rts/src/bitrel.rs:91-93 | The bit tells whether the pair has been disproved |
| TextRope.TextConcat | rts/motoko-rts/src/text.rs:70-128 | The bytes are those of the operands one after the other, a short text is a blob, a longer one an operand or a node that shares both, and a text above the limit is refused |
| TextRope.TextToBuf | rts/motoko-rts/src/text.rs:133-171 | The buffer receives exactly the leaves in order, and nothing outside of the range, although breadcrumbs lie in its unwritten part |
| TextRope.SecondHalf | rts/motoko-rts/src/text.rs:144-165 | The second operand is written at once or noted in a breadcrumb; what is pending still spells the rest |
| TextRope.TailNext | rts/motoko-rts/src/text.rs:154-169 | The breadcrumb that is taken up is intact and tells the next part |
| TextRope.LeaveCrumb | rts/motoko-rts/src/text.rs:158-163 | A breadcrumb covers only the cells of its own text |
| TextRope.BlobOfText | rts/motoko-rts/src/text.rs:175-186 | The blob holds the bytes of the text |
| TextRope.SizeIsLength | rts/motoko-rts/src/text.rs:189-192 | The stored size is the number of bytes |
| TextCompare.TextCompare | rts/motoko-rts/src/text.rs:304-321 | The result is the lexicographic order of the flattened bytes, whatever the shapes of the ropes |
| TextCompare.TextCompareRange | rts/motoko-rts/src/text.rs:198-261 | Comparing stretches piece by piece terminates and compares their bytes |
| TextCompare.TextGetRange | rts/motoko-rts/src/text.rs:267-301 | The descent keeps the stretch, and ends in a blob or in a concatenation that divides it |
| TextCompare.CompareSplit | rts/motoko-rts/src/text.rs:198-261 | The first piece that differs decides |
| TextCompare.LexicographicPrefix | rts/motoko-rts/src/text.rs:304-321 | The common length decides, and then the lengths |
| TextCompare.LexicographicOrder | rts/motoko-rts/src/text.rs:304-321 | Negative if and only if the first text ends, or has the lesser byte, where the texts part; positive if and only if it is so the other way round; zero if and only if they are equal |
| TextCompare.LexicographicTransitive | rts/motoko-rts/src/text.rs:304-321 | The order is transitive |
| StableBigInt.RoundTrip | rts/motoko-rts/src/stabilization/layout/stable_bigint.rs:93-218 | Reading back what was written gives the same digits, in number and value |
| StableBigInt.Serialize | rts/motoko-rts/src/stabilization/layout/stable_bigint.rs:93-129 | The words denote the same number, in the length announced; all digits are used and no bits are left |
| StableBigInt.FillWord | rts/motoko-rts/src/stabilization/layout/stable_bigint.rs:100-121 | A word is filled from the pending bits and further digits without loss |
| StableBigInt.LengthFits | rts/motoko-rts/src/stabilization/layout/stable_bigint.rs:57-67 | The number fits into the announced bits and into no fewer, and they need all digits |
| StableBigInt.NothingLeft | rts/motoko-rts/src/stabilization/layout/stable_bigint.rs:123-128 | No carry is left when the announced words are written |
| StableBigInt.Deserialize | rts/motoko-rts/src/stabilization/layout/stable_bigint.rs:172-218 | The digits denote the number that the bytes denote, in the announced number of digits |
| StableBigInt.FillElement | rts/motoko-rts/src/stabilization/layout/stable_bigint.rs:185-209 | A digit is filled from the pending bits and further bytes without loss |
| StableBigInt.AddUnit | rts/motoko-rts/src/stabilization/layout/stable_bigint.rs:104-116 | Shifting a unit into a window loses nothing: what does not fit is carried over |
| Leb128.BigintLeb128Encode | rts/motoko-rts/src/bigint.rs:473-506 | A terminated encoding of the number, than which there is no shorter one, in exactly as many bytes as the size function says |
| Leb128.BigintSleb128Encode | rts/motoko-rts/src/bigint.rs:508-542 | The same for signed numbers, in two's complement |
| Leb128.EncodeGo | rts/motoko-rts/src/bigint.rs:482-499 | The chunks denote the number, with a free sign bit if asked for, and no byte too many |
| Leb128.BigintLeb128Decode | rts/motoko-rts/src/bigint.rs:544-577 | The value of the bytes up to the first without continuation |
| Leb128.BigintSleb128Decode | rts/motoko-rts/src/bigint.rs:612-645 | The same for signed numbers |
| Leb128.LebRoundTrip | rts/motoko-rts/src/bigint.rs:473-577 | For every natural number decoding undoes encoding, whatever follows |
| Leb128.SlebRoundTrip | rts/motoko-rts/src/bigint.rs:508-645 | For every integer decoding undoes encoding, whatever follows |
| Leb128Word.Leb128Encode | rts/motoko-rts/src/leb128.rs:6-18 | A terminated encoding of the word within ten bytes, than which there is no shorter one |
| Leb128Word.Sleb128Encode | rts/motoko-rts/src/leb128.rs:21-34 | A terminated encoding of the signed word within ten bytes, than which there is no shorter one |
| Leb128Word.Leb128DecodeChecked | rts/motoko-rts/src/leb128.rs:42-79 | Success exactly when the encoding has at most ten bytes and the number fits; longer ones are refused |
| Leb128Word.Sleb128DecodeChecked | rts/motoko-rts/src/leb128.rs:87-124 | Within ten bytes, success exactly when the number fits; a longer encoding is refused if and only if the payload of its tenth byte is no sign extension |
| Leb128Word.WordRoundTrip | rts/motoko-rts/src/leb128.rs:6-79 | Every word is read back, whatever follows |
| Leb128Word.SignedWordRoundTrip | rts/motoko-rts/src/leb128.rs:21-124 | Every signed word is read back, whatever follows |
| Leb128Word.LongEncodingAccepted | rts/motoko-rts/src/leb128.rs:96-116 | An encoding of eleven bytes that is not refused |

## Left out

Garbage collector:

- The time that an object or a slice takes when it has been begun, and what the source does without looking at the time: roots, the list of weak references, large objects, and the planning of evacuations and updates.
- The stop and resume of the collector, scheduling by allocation rates, memory reserves, and growth of the Wasm memory: heuristics and foreign calls. Allocation succeeds in the collector model; in the partitioned heap a trap is a `None`.
- Mark stack, weak reference registry and partition tables as heap structures: they are sequences. The ranking array is no object of the modelled heap.
- Object headers and pointer skewing at the level of bits: an object is a record, an address a number. A slice start is a field of the record.
- Evacuation cost in floating point: an arbitrary positive cost. The survival rate is compared as a ratio of integers.
- The collector model takes any choice of candidates for evacuation and any allocator that grants a free block. The partitioned heap computes them. `gc_joint` shows that runs of both agree, in terms of what their methods promise; there is no single class that runs both.
- The marks of a partition are a set of offsets in the partitioned heap; `MarkBitmap` has the bytes.
- Program code that writes fields other than through the barriers, or that overwrites a weak reference.
- Statistics, sanity checks, the remembered set, and the wrap-around of 64-bit counters of bytes.

Stabilization:

- Payload other than pointers: it is one word at the head of an object, and the forwarding object overwrites only that head.
- The static part of an object is scanned like its fields, word by word. A scan step takes an arbitrary number of instructions, and the checks of the monitor take none.
- Stable objects are addressed by word, with neither padding nor a version.
- The metadata record and the type test between saving and loading: the stable addresses of the roots are handed on directly.
- SaveAndLoad: the messages that drive the increments are a loop with a bound on their number, as one without a bound need not end; with the bound that the contract names, the copy is always finished.

Regions:

- The environment grants or refuses each request for more memory as it likes, below a limit; that limit is the global bound on blocks.
- Word, float and blob accessors, and the checks of an existing region memory at start-up.

Subtype check:

- The binary form of type tables and its parser, `skip_any`, and `memory_compatible` with its extended types.
- A machine word of the cache is a sequence of bits.

Texts and numbers:

- Iterators, decoding of code points and case conversion. A blob is a sequence of bytes.
- Arithmetic of libtommath: integers. Setting bits that are known to be unset is written as addition.
- The decoders that go through 64-bit words first, and the debug build's panic on a shift beyond the word.
