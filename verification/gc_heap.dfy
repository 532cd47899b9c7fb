/** The partitioned heap of the incremental collector: allocation, marking, and collection bookkeeping. */
module GcHeap {
  import opened GcPartitions
  import opened GcLarge
  import opened GcCollection
  import opened GcSort

  const EVACUATION_FRACTION: nat := 2
  const USIZE_MAX: nat := 0xffff_ffff_ffff_ffff

  // ---------------------------------------------------------------- one partition changes

  /** The partition with one more block at the end of its dynamic space. */
  function Bumped(p: Partition, size: nat): Partition {
    p.(dynamicSize := p.dynamicSize + size,
       blocks := p.blocks[p.staticSize + p.dynamicSize := Block(size, false)])
  }

  lemma BumpedOk(p: Partition, size: nat)
    requires PartitionOk(p) && Normal(p) && 0 < size <= p.FreeSize()
    ensures PartitionOk(Bumped(p, size)) && CopiedOf(Bumped(p, size)) == CopiedOf(p)
    ensures p.staticSize + p.dynamicSize !in p.blocks && p.staticSize + p.dynamicSize !in p.marks
  {
    hide Tiled, MarksRight, CopiedOf;
    BumpedTiled(p, size);
    BumpedMarks(p, size);
  }

  lemma BumpedTiled(p: Partition, size: nat)
    requires Tiled(p) && size > 0
    ensures Tiled(Bumped(p, size)) && p.staticSize + p.dynamicSize !in p.blocks
  {
    var q := Bumped(p, size);
    var o := p.staticSize + p.dynamicSize;
    assert o !in p.blocks;
    assert q.blocks.Keys == p.blocks.Keys + {o};
    SizeSumAdd(p.blocks.Keys, q.blocks, o);
    SizeSumSame(p.blocks.Keys, p.blocks, q.blocks);
  }

  lemma BumpedMarks(p: Partition, size: nat)
    requires MarksRight(p) && p.staticSize + p.dynamicSize !in p.blocks
    ensures MarksRight(Bumped(p, size)) && CopiedOf(Bumped(p, size)) == CopiedOf(p)
    ensures p.staticSize + p.dynamicSize !in p.marks
  {
    var q := Bumped(p, size);
    SizeSumSame(p.marks, p.blocks, q.blocks);
    assert Forwarded(q.blocks) == Forwarded(p.blocks);
    SizeSumSame(Forwarded(p.blocks), p.blocks, q.blocks);
  }

  /** The partition with block `o` marked. */
  function WithMark(p: Partition, o: nat): Partition
    requires o in p.blocks
  {
    p.(marks := p.marks + {o}, markedSize := p.markedSize + p.blocks[o].size)
  }

  lemma WithMarkOk(p: Partition, o: nat)
    requires PartitionOk(p) && Normal(p) && o in p.blocks && o !in p.marks && p.bitmap.Some?
    ensures PartitionOk(WithMark(p, o)) && CopiedOf(WithMark(p, o)) == CopiedOf(p)
    ensures WithMark(p, o).markedSize <= p.dynamicSize
  {
    SizeSumAdd(p.marks, p.blocks, o);
    SizeSumWithin(p.marks + {o}, p.blocks.Keys, p.blocks);
  }

  /** The partition with block `o` forwarding to its copy. */
  function WithForward(p: Partition, o: nat): Partition
    requires o in p.blocks
  {
    p.(blocks := p.blocks[o := p.blocks[o].(forwarded := true)])
  }

  lemma WithForwardOk(p: Partition, o: nat)
    requires PartitionOk(p) && Normal(p) && p.evacuate && o in p.marks && o in p.blocks && !p.blocks[o].forwarded
    ensures PartitionOk(WithForward(p, o)) && CopiedOf(WithForward(p, o)) == CopiedOf(p) + p.blocks[o].size
  {
    hide CopiedOf;
    var q := WithForward(p, o);
    ForwardCopied(p, o);
    assert q.blocks.Keys == p.blocks.Keys;
    SizeSumSame(p.blocks.Keys, p.blocks, q.blocks);
    SizeSumSame(p.marks, p.blocks, q.blocks);
  }

  lemma ForwardCopied(p: Partition, o: nat)
    requires o in p.blocks && !p.blocks[o].forwarded
    ensures CopiedOf(WithForward(p, o)) == CopiedOf(p) + p.blocks[o].size
  {
    var q := WithForward(p, o);
    assert Forwarded(q.blocks) == Forwarded(p.blocks) + {o};
    SizeSumAdd(Forwarded(p.blocks), q.blocks, o);
    SizeSumSame(Forwarded(p.blocks), p.blocks, q.blocks);
  }

  lemma NoneCopied(p: Partition)
    requires p.blocks == map[]
    ensures CopiedOf(p) == 0
  {
    assert Forwarded(p.blocks) == {};
  }

  // ---------------------------------------------------------------- what an allocation does

  function BlocksAt(ps: seq<Partition>, i: nat): map<nat, Block> {
    if i < |ps| then ps[i].blocks else map[]
  }

  function MarksAt(ps: seq<Partition>, i: nat): set<nat> {
    if i < |ps| then ps[i].marks else {}
  }

  predicate EvacuateAt(ps: seq<Partition>, i: nat) {
    i < |ps| && ps[i].evacuate
  }

  /** A new block of this size is at offset `o` of partition `i`, where no block was; all other blocks,
    * and all marks, are as before. */
  ghost predicate Allocated(ps: seq<Partition>, qs: seq<Partition>, i: nat, o: nat, size: nat) {
    && |ps| <= |qs| && i < |qs| && o !in BlocksAt(ps, i)
    && (forall j :: 0 <= j < |qs| ==>
          && BlocksAt(qs, j) == (if j == i then BlocksAt(ps, j)[o := Block(size, false)] else BlocksAt(ps, j))
          && MarksAt(qs, j) == MarksAt(ps, j) && EvacuateAt(qs, j) == EvacuateAt(ps, j))
    && (forall j :: 0 <= j < |ps| && !ps[j].free ==> qs[j].markedSize == ps[j].markedSize && SameUse(ps[j], qs[j]))
    && (forall j :: 0 <= j < |qs| && (j < |ps| ==> ps[j].free) ==> !qs[j].update)
    && SameStatic(ps, qs) && !qs[i].evacuate && !MarkedAt(qs, i, o)
  }

  predicate SameUse(p: Partition, q: Partition) {
    q.free == p.free && q.largeContent == p.largeContent && q.temporary == p.temporary && q.update == p.update
  }

  // ---------------------------------------------------------------- what marking does

  predicate MarkedAt(ps: seq<Partition>, i: nat, o: nat) {
    i < |ps| && if ps[i].largeContent then ps[i].markedSize > 0 else o in ps[i].marks
  }

  /** The recorded sizes add up to that of the large object exactly if it does not fill its last partition. */
  predicate MarkedSizeRight(ps: seq<Partition>, first: nat) {
    Head(ps, first) &&
    var size := ps[first].blocks[0].size;
    first + Span(size) <= |ps| && (MarkedTotal(ps, first, Span(size)) == size <==> size % PARTITION_SIZE != 0)
  }

  /** Only marks change, and of the blocks, only the one at offset `o` of partition `i` becomes marked. */
  ghost predicate MarkedOnly(ps: seq<Partition>, qs: seq<Partition>, i: nat, o: nat) {
    && |qs| == |ps|
    && (forall j :: 0 <= j < |ps| ==> qs[j] == ps[j].(markedSize := qs[j].markedSize, marks := qs[j].marks))
    && (forall j: nat, q: nat :: q in BlocksAt(ps, j) ==> (MarkedAt(qs, j, q) <==> MarkedAt(ps, j, q) || (j == i && q == o)))
  }

  /** All blocks but the one at offset `o` of partition `i`, and their marks, are as before. */
  ghost predicate OthersKept(ps: seq<Partition>, qs: seq<Partition>, i: nat, o: nat) {
    forall j: nat, q: nat :: q in BlocksAt(ps, j) && (j != i || q != o) ==>
      && q in BlocksAt(qs, j) && BlocksAt(qs, j)[q] == BlocksAt(ps, j)[q]
      && (MarkedAt(qs, j, q) <==> MarkedAt(ps, j, q))
  }

  /** The block at offset `o` of partition `i` is new, and no other. */
  ghost predicate NewBlock(ps: seq<Partition>, qs: seq<Partition>, i: nat, o: nat) {
    forall j: nat :: BlocksAt(qs, j).Keys == BlocksAt(ps, j).Keys + if j == i then {o} else {}
  }

  class PartitionedHeap {
    const heapBase: nat
    var partitions: seq<Partition>
    var allocationIndex: nat
    var freePartitions: nat
    var evacuating: bool
    var reclaimed: nat
    var bitmapAllocationPointer: nat
    var gcRunning: bool
    // Occupied heap size, without the dynamic heap of the allocation partition.
    var precomputedHeapSize: nat
    var evacuatedSize: nat

    // All bytes ever asked for, except for evacuation copies.
    ghost var requested: nat

    ghost predicate Shaped()
      reads this
    {
      Shape(partitions, allocationIndex, bitmapAllocationPointer, freePartitions)
    }

    ghost predicate Accounted()
      reads this
      requires Shaped()
    {
      var sums := SumsOf(partitions);
      && precomputedHeapSize + partitions[allocationIndex].dynamicSize == sums.staticSize + sums.dynamic
      && sums.dynamic + reclaimed == requested + evacuatedSize
      && evacuatedSize == sums.copied
    }

    ghost predicate Valid()
      reads this
    {
      Shaped() && Accounted() && PhaseRight(partitions, gcRunning, evacuating, bitmapAllocationPointer)
    }

    constructor (base: nat)
      requires base / PARTITION_SIZE < PARTITIONS_PER_TABLE
      ensures Valid() && !gcRunning && heapBase == base && TotalAllocatedSize() == base
    {
      heapBase := base;
      partitions := InitialTable(base);
      allocationIndex := base / PARTITION_SIZE;
      freePartitions := PARTITIONS_PER_TABLE - base / PARTITION_SIZE - 1;
      evacuating, gcRunning := false, false;
      reclaimed, bitmapAllocationPointer, evacuatedSize, requested := 0, 0, 0, 0;
      precomputedHeapSize := base;
      InitialShape(base);
    }

    // -------------------------------------------------------------- sizes

    function OccupiedSize(): (size: nat)
      reads this
      requires Valid()
      ensures size == SumsOf(partitions).staticSize + SumsOf(partitions).dynamic
    {
      precomputedHeapSize + partitions[allocationIndex].dynamicSize
    }

    /** Static space and all bytes ever asked for, no matter what has been collected or copied since. */
    function TotalAllocatedSize(): (size: nat)
      reads this
      requires Valid()
      ensures size == SumsOf(partitions).staticSize + requested
    {
      OccupiedSize() - evacuatedSize + reclaimed
    }

    // -------------------------------------------------------------- finding partitions

    method AddPartitionTable()
      requires Shaped()
      modifies this`partitions, this`freePartitions, this`precomputedHeapSize
      ensures Shaped() && partitions == old(partitions) + NewTable()
      ensures Grown(old(partitions), old(precomputedHeapSize), partitions, precomputedHeapSize, |partitions|)
      ensures forall a :: NewBitmap(old(partitions), a, bitmapAllocationPointer) ==> NewBitmap(partitions, a, bitmapAllocationPointer)
    {
      TableAdded(partitions, bitmapAllocationPointer);
      VacantKept(partitions);
      partitions := partitions + NewTable();
      freePartitions := freePartitions + PARTITIONS_PER_TABLE;
      precomputedHeapSize := precomputedHeapSize + PARTITION_TABLE_SIZE;
    }

    predicate Accepts(p: Partition, search: Search)
      requires !search.Contiguous?
    {
      match search
      case FreeSpace(bytes) => p.free && p.FreeSize() >= bytes
      case Temporary => p.IsCompletelyFree()
    }

    /** The first partition that suits the request. */
    method Scan(search: Search) returns (r: Option<nat>)
      requires search.Contiguous? ==> search.number > 0
      ensures SuitedFirst(partitions, search, r)
    {
      match search
      case Contiguous(n) =>
        r := ScanForLargeSpace(n);
      case _ =>
        var i := 0;
        while i < |partitions|
          invariant i <= |partitions| && forall j: nat :: j < i ==> !Suits(partitions, search, j)
        {
          if Accepts(partitions[i], search) {
            return Some(i);
          }
          i := i + 1;
        }
        r := None;
    }

    method ScanForLargeSpace(n: nat) returns (r: Option<nat>)
      requires n > 0
      ensures SuitedFirst(partitions, Contiguous(n), r)
    {
      var start := 0;
      var i := 0;
      while i < |partitions|
        invariant start <= i <= |partitions| && i < start + n
        invariant forall j :: start <= j < i ==> Unoccupied(partitions[j])
        invariant forall j: nat :: j < start ==> !Suits(partitions, Contiguous(n), j)
      {
        if partitions[i].IsCompletelyFree() {
          if i + 1 - start >= n {
            return Some(start);
          }
        } else {
          forall j: nat | j < i + 1
            ensures !Suits(partitions, Contiguous(n), j)
          {
            if start <= j && j + n <= |partitions| {
              assert j <= i < j + n;
            }
          }
          start := i + 1;
        }
        i := i + 1;
      }
      r := None;
    }

    /** Looks again after adding a table; the second failure traps, which `None` stands for. */
    method AllocatePartition(search: Search) returns (r: Option<nat>)
      requires Shaped() && (search.Contiguous? ==> search.number > 0)
      requires search.FreeSpace? ==> search.bytes <= PARTITION_SIZE
      modifies this`partitions, this`freePartitions, this`precomputedHeapSize
      ensures Shaped() && SuitedFirst(partitions, search, r)
      // A table is added only if there is need for it.
      ensures forall j: nat :: j <= |old(partitions)| && Suits(old(partitions), search, j) ==> partitions == old(partitions)
      ensures r.None? ==> search.Contiguous? && search.number >= PARTITIONS_PER_TABLE
      ensures Grown(old(partitions), old(precomputedHeapSize), partitions, precomputedHeapSize, |partitions|)
      ensures forall i :: 0 <= i < |old(partitions)| ==> partitions[i] == old(partitions)[i]
      ensures forall i :: |old(partitions)| <= i < |partitions| ==> partitions[i].free
      ensures forall a :: NewBitmap(old(partitions), a, bitmapAllocationPointer) ==> NewBitmap(partitions, a, bitmapAllocationPointer)
    {
      VacantKept(partitions);
      r := Scan(search);
      if r.None? {
        NewTableFree(partitions);
        ghost var before := partitions;
        AddPartitionTable();
        r := Scan(search);
        if !(search.Contiguous? && search.number >= PARTITIONS_PER_TABLE) {
          NewTableSuits(before, search);
        }
      }
    }

    method AllocateTemporaryPartition() returns (index: nat)
      requires Shaped()
      modifies this`partitions, this`freePartitions, this`precomputedHeapSize
      ensures Shaped() && index < |partitions| && partitions[index].temporary
      ensures index < |old(partitions)| ==> old(partitions)[index].free
      ensures Grown(old(partitions), old(precomputedHeapSize), partitions, precomputedHeapSize, |partitions|)
    {
      hide PartitionOk, LargeOk, BitmapsOk, SumsOf, Empty;
      ghost var before, size := partitions, precomputedHeapSize;
      var r := AllocatePartition(Temporary);
      index := r.value;
      TemporaryShape(partitions, allocationIndex, bitmapAllocationPointer, freePartitions, index);
      GrownTemporary(before, size, partitions, precomputedHeapSize, index);
      freePartitions := freePartitions - 1;
      partitions := partitions[index := partitions[index].(free := false, temporary := true)];
    }

    /** Bump allocation of the bitmaps in temporary partitions. */
    method AllocateBitmap() returns (address: nat)
      requires Shaped()
      modifies this`partitions, this`freePartitions, this`precomputedHeapSize, this`bitmapAllocationPointer
      ensures Shaped() && NewBitmap(partitions, address, bitmapAllocationPointer)
      ensures Grown(old(partitions), old(precomputedHeapSize), partitions, precomputedHeapSize, |partitions|)
    {
      hide PartitionOk, LargeOk, SumsOf, Empty, Piece, Tiled, MarksRight;
      VacantKept(partitions);
      if bitmapAllocationPointer % PARTITION_SIZE == 0 {
        var index := AllocateTemporaryPartition();
        TemporaryUnused(old(partitions), partitions, index, bitmapAllocationPointer);
        bitmapAllocationPointer := index * PARTITION_SIZE;
      }
      address := bitmapAllocationPointer;
      BitmapTaken(partitions, address);
      bitmapAllocationPointer := bitmapAllocationPointer + BITMAP_SIZE;
    }

    // -------------------------------------------------------------- allocation

    /** A partition for new objects, with a bitmap if the collector is running. */
    method AllocateFreePartition(space: nat) returns (index: nat)
      requires Shaped() && 0 < space <= PARTITION_SIZE
      modifies this`partitions, this`freePartitions, this`precomputedHeapSize, this`bitmapAllocationPointer
      ensures Shaped() && index < |partitions| && index != allocationIndex
      ensures Claimed(partitions[index], space, gcRunning) && (index < |old(partitions)| ==> old(partitions)[index].free)
      ensures Grown(old(partitions), old(precomputedHeapSize), partitions, precomputedHeapSize, index)
      ensures !gcRunning ==> bitmapAllocationPointer == old(bitmapAllocationPointer)
      ensures !gcRunning ==> forall i :: 0 <= i < |partitions| && i != index && (i < |old(partitions)| ==> old(partitions)[i].free) ==> partitions[i].free
    {
      hide PartitionOk, LargeOk, BitmapsOk, SumsOf, Empty;
      VacantKept(partitions);
      ghost var before, size := partitions, precomputedHeapSize;
      var address: nat := 0;
      if gcRunning {
        address := AllocateBitmap();
      }
      ghost var between, size' := partitions, precomputedHeapSize;
      var r := AllocatePartition(FreeSpace(space));
      index := r.value;
      GrownThen(before, size, between, size', partitions, precomputedHeapSize, |partitions|);
      ClaimedShape(partitions, allocationIndex, bitmapAllocationPointer, freePartitions, index, space, gcRunning, address);
      GrownClaim(before, size, partitions, precomputedHeapSize, index, space, gcRunning, address);
      freePartitions := freePartitions - 1;
      partitions := partitions[index := Claim(partitions[index], gcRunning, address)];
    }

    /** Bump allocation in the allocation partition, or in a new one. */
    method AllocateNormalObject(size: nat) returns (i: nat, o: nat)
      requires Valid() && 0 < size <= PARTITION_SIZE
      modifies this`partitions, this`allocationIndex, this`freePartitions, this`precomputedHeapSize,
               this`bitmapAllocationPointer, this`requested
      ensures Valid() && requested == old(requested) + size
      ensures Allocated(old(partitions), partitions, i, o, size)
      ensures i == allocationIndex && HoldsObjects(partitions[i])
      // Without a new partition as long as there is space.
      ensures i == old(allocationIndex) <==>
        old(partitions[allocationIndex].staticSize) + old(partitions[allocationIndex].dynamicSize) + size <= PARTITION_SIZE
    {
      hide Shape, SumsOf, PhaseRight, Grown, Allocated;
      ShapeAllocation(partitions, allocationIndex, bitmapAllocationPointer, freePartitions);
      var p := partitions[allocationIndex];
      if size <= p.FreeSize() {
        i, o := allocationIndex, p.staticSize + p.dynamicSize;
        BumpShape(partitions, allocationIndex, bitmapAllocationPointer, freePartitions, i, size);
        BumpPhase(partitions, gcRunning, evacuating, bitmapAllocationPointer, i, size);
        partitions := partitions[i := Bumped(p, size)];
        requested := requested + size;
      } else {
        i, o := AllocateInNewPartition(size);
      }
    }

    method AllocateInNewPartition(size: nat) returns (i: nat, o: nat)
      requires Valid() && 0 < size <= PARTITION_SIZE
      modifies this`partitions, this`allocationIndex, this`freePartitions, this`precomputedHeapSize,
               this`bitmapAllocationPointer, this`requested
      ensures Valid() && requested == old(requested) + size
      ensures Allocated(old(partitions), partitions, i, o, size)
      ensures i == allocationIndex != old(allocationIndex) && HoldsObjects(partitions[i])
    {
      hide Shape, PhaseRight, Allocated, Grown, SumsOf, Claimed;
      ShapeAllocation(partitions, allocationIndex, bitmapAllocationPointer, freePartitions);
      ghost var before, pointer, size' := partitions, bitmapAllocationPointer, precomputedHeapSize + partitions[allocationIndex].dynamicSize;
      precomputedHeapSize := precomputedHeapSize + partitions[allocationIndex].dynamicSize;
      i := AllocateFreePartition(size);
      ghost var between := partitions;
      InNewPartition(before, size', between, precomputedHeapSize, allocationIndex, pointer, bitmapAllocationPointer, freePartitions,
                     i, size, gcRunning, evacuating);
      o := partitions[i].staticSize + partitions[i].dynamicSize;
      partitions := partitions[i := Bumped(partitions[i], size)];
      allocationIndex := i;
      requested := requested + size;
    }

    /** Contiguous partitions of its own for a large object; `None` for a trap. */
    method AllocateLargeObject(size: nat) returns (r: Option<nat>)
      requires Valid() && size > PARTITION_SIZE
      modifies this`partitions, this`freePartitions, this`precomputedHeapSize, this`requested
      ensures Valid() && requested == old(requested) + (if r.Some? then size else 0)
      ensures r.Some? ==> Allocated(old(partitions), partitions, r.value, 0, size) && Head(partitions, r.value)
      ensures r.None? ==>
        || size > USIZE_MAX - PARTITION_SIZE
        || (Span(size) >= PARTITIONS_PER_TABLE && forall j: nat :: j <= |partitions| ==> !Suits(partitions, Contiguous(Span(size)), j))
      ensures size > USIZE_MAX - PARTITION_SIZE ==> r.None? && partitions == old(partitions)
    {
      hide Shape, SumsOf, PhaseRight, Allocated, Suits, LargePiece, Head;
      if size > USIZE_MAX - PARTITION_SIZE {
        return None;
      }
      ghost var before := partitions;
      var number := (size + PARTITION_SIZE - 1) / PARTITION_SIZE;
      assert number == Span(size);
      r := AllocatePartition(Contiguous(number));
      Appended(before, old(precomputedHeapSize), partitions, precomputedHeapSize, gcRunning, evacuating, allocationIndex, bitmapAllocationPointer, old(freePartitions), freePartitions);
      if r.None? {
        return;
      }
      var first := r.value;
      ghost var between, size' := partitions, precomputedHeapSize;
      FilledState(between, allocationIndex, bitmapAllocationPointer, freePartitions, gcRunning, evacuating, first, size);
      FilledAllocated(before, between, first, size);
      freePartitions := freePartitions - number;
      FillPartitions(first, number, size);
      requested := requested + size;
    }

    /** Distributes the large object over its partitions. */
    method FillPartitions(first: nat, number: nat, size: nat)
      requires Suits(partitions, Contiguous(number), first) && AllOk(partitions) && size > PARTITION_SIZE && number == Span(size)
      modifies this`partitions, this`precomputedHeapSize
      ensures partitions == Filled(old(partitions), first, first + number, size)
      ensures precomputedHeapSize == old(precomputedHeapSize) + Taken(number, size)
    {
      hide AllOk, Suits, LargePiece;
      ghost var before, size' := partitions, precomputedHeapSize;
      FilledNone(before, first, size);
      var index := first;
      while index < first + number
        invariant first <= index <= first + number && partitions == Filled(before, first, index, size)
        invariant precomputedHeapSize == size' + Taken(index - first, size)
      {
        SuitsAt(before, first, number, index);
        FilledMore(before, first, index, size);
        var p := LargePiece(partitions[index], first, index, size);
        partitions := partitions[index := p];
        precomputedHeapSize := precomputedHeapSize + p.dynamicSize;
        index := index + 1;
      }
    }

    method Allocate(size: nat) returns (r: Option<(nat, nat)>)
      requires Valid() && size > 0
      modifies this`partitions, this`allocationIndex, this`freePartitions, this`precomputedHeapSize,
               this`bitmapAllocationPointer, this`requested
      ensures Valid() && requested == old(requested) + (if r.Some? then size else 0)
      ensures r.Some? ==> Allocated(old(partitions), partitions, r.value.0, r.value.1, size)
      ensures r.None? ==>
        || size > USIZE_MAX - PARTITION_SIZE
        || (Span(size) >= PARTITIONS_PER_TABLE && forall j: nat :: j <= |partitions| ==> !Suits(partitions, Contiguous(Span(size)), j))
      ensures size > USIZE_MAX - PARTITION_SIZE ==> r.None? && partitions == old(partitions)
    {
      if size <= PARTITION_SIZE {
        var i, o := AllocateNormalObject(size);
        r := Some((i, o));
      } else {
        var first := AllocateLargeObject(size);
        r := if first.Some? then Some((first.value, 0)) else None;
      }
    }

    // -------------------------------------------------------------- marking

    /** Marks a large object by the marked sizes of its partitions. */
    method MarkLargeObject(first: nat) returns (newly: bool)
      requires Valid() && gcRunning && Head(partitions, first)
      modifies this`partitions
      ensures Valid() && newly == !MarkedAt(old(partitions), first, 0)
      ensures MarkedOnly(old(partitions), partitions, first, 0)
      ensures partitions[first].blocks == old(partitions)[first].blocks && MarkedSizeRight(partitions, first)
    {
      hide Shape, PhaseRight, SumsOf, MarkedPiece, MarkedSizeRight;
      ShapeAllocation(partitions, allocationIndex, bitmapAllocationPointer, freePartitions);
      ghost var before := partitions;
      HeadSpan(before, allocationIndex, bitmapAllocationPointer, freePartitions, first);
      if partitions[first].markedSize > 0 {
        SameMarks(before, first, 0);
        SizeRight(before, allocationIndex, bitmapAllocationPointer, freePartitions, first);
        return false;
      }
      var size := partitions[first].blocks[0].size;
      var last := first + Span(size) - 1;
      var index := first;
      while index < last
        invariant first <= index <= last && partitions == MarkedUpTo(before, first, index, size)
      {
        MarkedMore(before, first, index, size);
        PieceSize(first, index, size);
        partitions := partitions[index := partitions[index].(markedSize := PARTITION_SIZE)];
        index := index + 1;
      }
      MarkedMore(before, first, last, size);
      PieceSize(first, last, size);
      partitions := partitions[last := partitions[last].(markedSize := size % PARTITION_SIZE)];
      LargeMarked(before, allocationIndex, bitmapAllocationPointer, freePartitions, evacuating, first);
      SizeRight(partitions, allocationIndex, bitmapAllocationPointer, freePartitions, first);
      newly := true;
    }

    /** Marks the block at this offset of the partition, and tells whether it was unmarked before. */
    method MarkObject(i: nat, o: nat) returns (newly: bool)
      requires Valid() && gcRunning && o in BlocksAt(partitions, i)
      modifies this`partitions
      ensures Valid() && newly == !MarkedAt(old(partitions), i, o)
      ensures MarkedOnly(old(partitions), partitions, i, o)
    {
      hide Shape, PhaseRight, SumsOf, PartitionOk;
      ghost var before := partitions;
      BlockPlace(before, allocationIndex, bitmapAllocationPointer, freePartitions, evacuating, i, o);
      var p := partitions[i];
      if p.largeContent {
        newly := MarkLargeObject(i);
      } else if o in p.marks {
        SameMarks(before, i, o);
        newly := false;
      } else {
        NormalMarked(before, allocationIndex, bitmapAllocationPointer, freePartitions, evacuating, i, o);
        partitions := partitions[i := WithMark(p, o)];
        newly := true;
      }
    }

    // -------------------------------------------------------------- evacuation

    method IncreaseEvacuatedSize(size: nat)
      modifies this`evacuatedSize
      ensures evacuatedSize == old(evacuatedSize) + size
    {
      evacuatedSize := evacuatedSize + size;
    }

    /** The copy of a marked block: it counts as evacuated and not as requested, and is marked. */
    method EvacuateObject(i: nat, o: nat) returns (j: nat, q: nat)
      requires Valid() && gcRunning && o in BlocksAt(partitions, i)
      requires partitions[i].evacuate && o in partitions[i].marks && !partitions[i].blocks[o].forwarded
      modifies this
      ensures Valid() && gcRunning && requested == old(requested) && evacuating == old(evacuating)
      ensures evacuatedSize == old(evacuatedSize) + old(partitions[i].blocks[o].size)
      ensures q !in BlocksAt(old(partitions), j) && i < |partitions| && j < |partitions|
      ensures !partitions[j].evacuate && q in partitions[j].blocks && MarkedAt(partitions, j, q)
      ensures partitions[j].blocks[q] == Block(old(partitions[i].blocks[o].size), false)
      ensures partitions[i].blocks == old(partitions[i].blocks)[o := Block(old(partitions[i].blocks[o].size), true)]
      ensures OthersKept(old(partitions), partitions, i, o) && NewBlock(old(partitions), partitions, j, q)
    {
      hide Shape, PhaseRight, SumsOf, PartitionOk, MarkedOnly;
      ghost var before := partitions;
      var size := partitions[i].blocks[o].size;
      EvacuatedBlock(before, allocationIndex, bitmapAllocationPointer, freePartitions, i, o);
      j, q := AllocateNormalObject(size);
      ghost var between := partitions;
      ShapeAllocation(partitions, allocationIndex, bitmapAllocationPointer, freePartitions);
      CopyPlace(before, between, i, o, j, q, size);
      IncreaseEvacuatedSize(size);
      requested := requested - size;
      ForwardState(between, allocationIndex, bitmapAllocationPointer, freePartitions, evacuating, i, o);
      partitions := partitions[i := WithForward(partitions[i], o)];
      ghost var after := partitions;
      var newly := MarkObject(j, q);
      CopyDone(before, between, after, partitions, i, o, j, q, size);
    }

    // -------------------------------------------------------------- collections

    /** Every partition that objects can be in gets an empty bitmap. */
    method StartCollection()
      requires Valid() && !gcRunning
      modifies this`partitions, this`freePartitions, this`precomputedHeapSize, this`bitmapAllocationPointer, this`gcRunning
      ensures Valid() && gcRunning
      ensures Started(old(partitions), old(precomputedHeapSize), partitions, precomputedHeapSize, |old(partitions)|)
    {
      hide Shape, PhaseRight, SumsOf, Started, Grown, NewBitmap;
      ghost var before, size := partitions, precomputedHeapSize;
      NotRunning(before, evacuating, bitmapAllocationPointer);
      ShapeAllocation(before, allocationIndex, bitmapAllocationPointer, freePartitions);
      gcRunning := true;
      StartedNone(before, size, allocationIndex, bitmapAllocationPointer, freePartitions);
      var n: nat := |partitions|;
      var index: nat := 0;
      while index < n
        invariant index <= n && gcRunning && Shaped() && n <= |partitions|
        invariant Started(before, size, partitions, precomputedHeapSize, index)
      {
        StartedAt(before, size, partitions, precomputedHeapSize, index);
        if partitions[index].HasDynamicSpace() && !partitions[index].largeContent {
          ghost var between, size' := partitions, precomputedHeapSize;
          var address := AllocateBitmap();
          StartedMore(before, size, between, size', partitions, precomputedHeapSize, index,
                      allocationIndex, bitmapAllocationPointer, freePartitions, address);
          partitions := partitions[index := partitions[index].(bitmap := Some(address))];
        }
        index := index + 1;
      }
      StartedAll(before, size, partitions, precomputedHeapSize, allocationIndex, bitmapAllocationPointer, freePartitions);
    }

    /** The partitions, those with most garbage first. */
    method RankPartitionsByGarbage() returns (ranked: array<nat>)
      requires Valid()
      ensures fresh(ranked) && Ranking(partitions, ranked[..])
    {
      ranked := new nat[|partitions|];
      var index := 0;
      while index < |partitions|
        invariant index <= |partitions|
        invariant forall k :: 0 <= k < index ==> ranked[k] == k
      {
        ranked[index] := index;
        index := index + 1;
      }
      assert ranked[..] == Identity(|partitions|);
      ByGarbageOrders(partitions);
      Sort(ranked, ByGarbage(partitions));
      RankingOf(partitions, ranked[..]);
    }

    /** Selects the partitions to evacuate, by descending garbage as long as the space reserved for the copies suffices. */
    method PlanEvacuations()
      requires Valid() && gcRunning && !evacuating
      modifies this`partitions, this`evacuating
      // Half of the free partitions, rounded up, are for the copies; the others are left to the program.
      ensures Valid() && Planned(old(partitions), partitions, allocationIndex, (freePartitions + 1) / 2 * PARTITION_SIZE)
      ensures evacuating <==> AnyEvacuated(partitions)
    {
      hide Shape, PhaseRight, SumsOf, Planned, Ranking, AnyEvacuated;
      ghost var before := partitions;
      ShapeAllocation(before, allocationIndex, bitmapAllocationPointer, freePartitions);
      var ranked := RankPartitionsByGarbage();
      NoneEvacuated(before, bitmapAllocationPointer);
      var reservedPartitions: nat := (freePartitions + EVACUATION_FRACTION - 1) / EVACUATION_FRACTION;
      SelectPartitions(ranked, reservedPartitions * PARTITION_SIZE);
      PlannedValid(before, partitions, allocationIndex, bitmapAllocationPointer, freePartitions, reservedPartitions * PARTITION_SIZE, evacuating);
    }

    method SelectPartitions(ranked: array<nat>, reserved: nat)
      requires Ranking(partitions, ranked[..]) && !AnyEvacuated(partitions) && !evacuating
      modifies this`partitions, this`evacuating
      ensures Planned(old(partitions), partitions, allocationIndex, reserved)
      ensures evacuating <==> AnyEvacuated(partitions)
    {
      hide Planned, Selected, Ranking, AnyEvacuated;
      ghost var before, order := partitions, ranked[..];
      var evacuationSpace: nat := reserved;
      SelectedNone(before, order, allocationIndex, reserved);
      var rank: nat := 0;
      while rank < |partitions|
        invariant rank <= |partitions| == |before|
        invariant Selected(before, partitions, order, rank, allocationIndex, reserved, evacuationSpace)
        invariant evacuating <==> AnyEvacuated(partitions)
      {
        RankedIndex(before, partitions, order, rank, allocationIndex, reserved, evacuationSpace);
        assert order[rank] == ranked[rank];
        var index: nat := ranked[rank];
        if index != allocationIndex && partitions[index].IsEvacuationCandidate() {
          if evacuationSpace < partitions[index].markedSize {
            PlannedEarly(before, partitions, order, rank, allocationIndex, reserved, evacuationSpace);
            return;
          }
          SelectedMore(before, partitions, order, rank, allocationIndex, reserved, evacuationSpace);
          evacuationSpace := evacuationSpace - partitions[index].markedSize;
          partitions := partitions[index := partitions[index].(evacuate := true)];
          SomeEvacuated(partitions, index);
          evacuating := true;
        }
        rank := rank + 1;
      }
      PlannedLate(before, partitions, order, allocationIndex, reserved, evacuationSpace);
    }

    /** All partitions in use that stay have their pointers updated. */
    method PlanUpdates()
      requires Valid() && gcRunning
      modifies this`partitions
      ensures Valid() && |partitions| == |old(partitions)|
      ensures forall i :: 0 <= i < |partitions| ==>
        partitions[i] == old(partitions)[i].(update := !old(partitions)[i].free && !old(partitions)[i].evacuate)
    {
      hide Shape, PhaseRight, SumsOf;
      ghost var before := partitions;
      ShapeAllocation(before, allocationIndex, bitmapAllocationPointer, freePartitions);
      var i := 0;
      while i < |partitions|
        invariant i <= |partitions| == |before|
        invariant forall j :: 0 <= j < |before| ==>
          partitions[j] == if j < i then before[j].(update := !before[j].free && !before[j].evacuate) else before[j]
      {
        partitions := partitions[i := partitions[i].(update := !partitions[i].free && !partitions[i].evacuate)];
        i := i + 1;
      }
      UpdatesPlanned(before, partitions, allocationIndex, bitmapAllocationPointer, freePartitions, evacuating);
    }

    /** Frees the partitions of a large object. */
    method FreeLargeObject(first: nat)
      requires Valid() && Head(partitions, first) && partitions[first].markedSize == 0
      modifies this`partitions, this`freePartitions, this`reclaimed, this`precomputedHeapSize
      ensures Valid() && partitions == Emptied(old(partitions), first, first + Span(old(partitions)[first].blocks[0].size))
    {
      hide Shape, PhaseRight, SumsOf;
      ghost var before, free := partitions, freePartitions;
      var number := Span(partitions[first].blocks[0].size);
      EmptiedState(before, allocationIndex, bitmapAllocationPointer, freePartitions, gcRunning, evacuating, first);
      EmptiedNone(before, first);
      HeadSpan(before, allocationIndex, bitmapAllocationPointer, free, first);
      ShapeAllocation(before, allocationIndex, bitmapAllocationPointer, free);
      freePartitions := freePartitions + number;
      var index := first;
      while index < first + number
        invariant first <= index <= first + number <= |before| && partitions == Emptied(before, first, index)
        invariant freePartitions == free + number
        invariant Balanced(partitions, before[allocationIndex].dynamicSize, precomputedHeapSize, reclaimed, requested)
        invariant SumsOf(partitions).copied == evacuatedSize
      {
        PieceAt(before, allocationIndex, bitmapAllocationPointer, free, first, index);
        EmptiedMore(before, first, index);
        DynamicsFit(partitions, index, allocationIndex);
        var p := partitions[index];
        partitions := partitions[index := Freed(p.(update := false))];
        reclaimed := reclaimed + p.dynamicSize;
        precomputedHeapSize := precomputedHeapSize - p.dynamicSize;
        index := index + 1;
      }
    }

    /** Frees the large objects that are not marked, and nothing else. */
    method CollectLargeObjects()
      requires Valid()
      modifies this`partitions, this`freePartitions, this`reclaimed, this`precomputedHeapSize
      ensures Valid() && DeadFreed(old(partitions), partitions, |old(partitions)|)
      ensures TotalAllocatedSize() == old(TotalAllocatedSize())
    {
      hide Shape, PhaseRight, DeadFreed, Bounded, SumsOf, Emptied;
      ghost var before := partitions;
      ShapeLarge(before, allocationIndex, bitmapAllocationPointer, freePartitions);
      NoneFreed(before);
      var index := 0;
      while index < |partitions|
        invariant index <= |partitions| == |before| && Valid()
        invariant Bounded(before, index) && DeadFreed(before, partitions, index)
        invariant SumsOf(partitions).staticSize == SumsOf(before).staticSize
      {
        BoundaryHead(before, index);
        DeadStep(before, partitions, index);
        if partitions[index].largeContent {
          var number := Span(partitions[index].blocks[0].size);
          HeadSpan(before, allocationIndex, bitmapAllocationPointer, old(freePartitions), index);
          if partitions[index].markedSize == 0 {
            StaticKept(partitions, index, index + number);
            FreeLargeObject(index);
          }
          index := index + number;
        } else {
          index := index + 1;
        }
      }
    }

    /** Frees the evacuated partitions and the bitmaps. All marked blocks of the evacuated partitions have been copied. */
    method CompleteCollection()
      requires Valid() && gcRunning
      requires forall i :: 0 <= i < |partitions| ==> AllCopied(partitions[i])
      modifies this`partitions, this`freePartitions, this`reclaimed, this`precomputedHeapSize, this`evacuating,
               this`evacuatedSize, this`bitmapAllocationPointer, this`gcRunning
      ensures Valid() && !gcRunning && !evacuating && partitions == CompletedUpTo(old(partitions), |old(partitions)|)
      ensures TotalAllocatedSize() == old(TotalAllocatedSize())
    {
      hide Shape, PhaseRight, SumsOf, AllCopied, Completed;
      ghost var before := partitions;
      CompletedShape(before, allocationIndex, bitmapAllocationPointer, freePartitions);
      ShapeAllocation(before, allocationIndex, bitmapAllocationPointer, freePartitions);
      ShapeFree(before, allocationIndex, bitmapAllocationPointer, freePartitions);
      CompletedNone(before);
      var i := 0;
      while i < |partitions|
        invariant i <= |before| == |partitions| && partitions == CompletedUpTo(before, i)
        invariant SumsOf(partitions).free == freePartitions && SumsOf(partitions).staticSize == SumsOf(before).staticSize
        invariant Balanced(partitions, before[allocationIndex].dynamicSize, precomputedHeapSize, reclaimed, requested)
      {
        var p := partitions[i];
        CompletedMore(before, i);
        MarkedFits(before, i, allocationIndex);
        DynamicsFitCompleted(before, partitions, i, allocationIndex);
        if p.evacuate {
          reclaimed := reclaimed + (p.dynamicSize - p.markedSize);
        }
        if p.evacuate || p.temporary {
          precomputedHeapSize := precomputedHeapSize - p.dynamicSize;
          freePartitions := freePartitions + 1;
        }
        partitions := partitions[i := Completed(p)];
        i := i + 1;
      }
      evacuating := false;
      evacuatedSize := 0;
      bitmapAllocationPointer := 0;
      gcRunning := false;
      CompletedWhole(before, allocationIndex, freePartitions);
    }
  }

  lemma VacantKept(ps: seq<Partition>)
    requires AllOk(ps)
    ensures forall i :: 0 <= i < |ps| && ps[i].free ==> Vacant(ps[i])
  {
    assert forall i :: 0 <= i < |ps| ==> PartitionOk(ps[i]);
  }

  /** A free partition that is taken for allocation. */
  function Claim(p: Partition, running: bool, address: nat): Partition {
    p.(free := false, bitmap := if running then Some(address) else None)
  }

  predicate Claimed(p: Partition, space: nat, running: bool) {
    && Normal(p) && !p.evacuate && !p.update && p.dynamicSize == 0 && p.markedSize == 0 && p.blocks == map[] && p.marks == {}
    && p.FreeSize() >= space && p.bitmap.Some? == running
  }

  lemma ClaimOk(p: Partition, running: bool, address: nat)
    requires PartitionOk(p) && p.free
    ensures PartitionOk(Claim(p, running, address)) && CopiedOf(Claim(p, running, address)) == CopiedOf(p) == 0
    ensures Empty(p) && !p.temporary && !p.update
  {
    NoneCopied(p);
    NoneCopied(Claim(p, running, address));
  }

  lemma ClaimedShape(ps: seq<Partition>, allocation: nat, pointer: nat, free: nat, index: nat, space: nat, running: bool, address: nat)
    requires Shape(ps, allocation, pointer, free) && Suits(ps, FreeSpace(space), index)
    requires running ==> NewBitmap(ps, address, pointer)
    ensures free > 0 && index != allocation
    ensures Shape(ps[index := Claim(ps[index], running, address)], allocation, pointer, free - 1)
    ensures Claimed(Claim(ps[index], running, address), space, running)
  {
    hide LargeOk, BitmapsOk, Empty;
    var p := ps[index];
    assert PartitionOk(p);
    ClaimOk(p, running, address);
    ClaimOk(p, false, address);
    SumUpdate(ps, index, Claim(p, running, address), FreeOne);
    EmptyOf(p);
    OneChanged(ps, index, Claim(p, false, address), pointer);
    if running {
      var qs := ps[index := Claim(p, false, address)];
      BitmapAssigned(qs, pointer, address, index, Claim(p, true, address));
      forall j | 0 <= j < |qs|
        ensures SameLarge(qs[j], qs[index := Claim(p, true, address)][j])
      {
      }
      LargeKept(qs, qs[index := Claim(p, true, address)]);
      assert qs[index := Claim(p, true, address)] == ps[index := Claim(p, true, address)];
    }
  }

  lemma TemporaryShape(ps: seq<Partition>, allocation: nat, pointer: nat, free: nat, index: nat)
    requires Shape(ps, allocation, pointer, free) && Suits(ps, Temporary, index)
    ensures free > 0 && index != allocation
    ensures Shape(ps[index := ps[index].(free := false, temporary := true)], allocation, pointer, free - 1)
  {
    hide LargeOk, BitmapsOk, Empty;
    var p := ps[index];
    assert PartitionOk(p);
    EmptyOf(p);
    TemporaryOk(p);
    SumUpdate(ps, index, p.(free := false, temporary := true), FreeOne);
    OneChanged(ps, index, p.(free := false, temporary := true), pointer);
  }

  lemma TemporaryOk(p: Partition)
    requires PartitionOk(p) && p.IsCompletelyFree()
    ensures PartitionOk(p.(free := false, temporary := true)) && Vacant(p.(free := false, temporary := true))
    ensures CopiedOf(p.(free := false, temporary := true)) == CopiedOf(p)
  {
    NoneCopied(p);
    NoneCopied(p.(free := false, temporary := true));
  }

  lemma GrownTemporary(ps: seq<Partition>, size: nat, qs: seq<Partition>, size': nat, index: nat)
    requires Grown(ps, size, qs, size', |qs|) && AllOk(qs) && Suits(qs, Temporary, index)
    ensures var rs := qs[index := qs[index].(free := false, temporary := true)]; Grown(ps, size, rs, size', |rs|)
    ensures index < |ps| ==> ps[index].free
  {
    hide PartitionOk;
    assert PartitionOk(qs[index]);
    SumsChanged(qs, index, qs[index].(free := false, temporary := true));
    TemporaryOk(qs[index]);
  }

  lemma EmptyOf(p: Partition)
    requires Empty(p)
    ensures p.dynamicSize == 0 && p.markedSize == 0 && p.bitmap.None? && p.marks == {} && p.blocks == map[]
    ensures !p.largeContent && !p.evacuate
  {
  }

  lemma GrownThen(ps: seq<Partition>, size: nat, qs: seq<Partition>, size': nat, rs: seq<Partition>, size'': nat, except: nat)
    requires Grown(ps, size, qs, size', |qs|) && Grown(qs, size', rs, size'', except) && (except < |qs| ==> qs[except].free)
    ensures Grown(ps, size, rs, size'', except)
  {
  }

  lemma GrownClaim(ps: seq<Partition>, size: nat, qs: seq<Partition>, size': nat, index: nat, space: nat, running: bool, address: nat)
    requires Grown(ps, size, qs, size', |qs|) && AllOk(qs) && Suits(qs, FreeSpace(space), index)
    ensures Grown(ps, size, qs[index := Claim(qs[index], running, address)], size', index)
    ensures index < |ps| ==> ps[index].free
  {
    assert PartitionOk(qs[index]);
    SumsChanged(qs, index, Claim(qs[index], running, address));
    ClaimOk(qs[index], running, address);
  }

  // ---------------------------------------------------------------- the steps of marking

  lemma SameMarks(ps: seq<Partition>, i: nat, o: nat)
    requires MarkedAt(ps, i, o)
    ensures MarkedOnly(ps, ps, i, o)
  {
  }

  lemma HeadSpan(ps: seq<Partition>, allocation: nat, pointer: nat, free: nat, first: nat)
    requires Shape(ps, allocation, pointer, free) && Head(ps, first)
    ensures var size := ps[first].blocks[0].size;
      && size > PARTITION_SIZE && Span(size) > 1 && first + Span(size) <= |ps| && ps[first].blocks.Keys == {0}
  {
    hide AllOk, BitmapsOk;
    assert SpanOk(ps, first);
  }

  lemma SizeRight(ps: seq<Partition>, allocation: nat, pointer: nat, free: nat, first: nat)
    requires Shape(ps, allocation, pointer, free) && Head(ps, first) && ps[first].markedSize > 0
    ensures MarkedSizeRight(ps, first)
  {
    hide AllOk, BitmapsOk, LargeOk;
    MarkedTotalExact(ps, first);
  }

  lemma PieceSize(first: nat, i: nat, size: nat)
    ensures MarkedPiece(first, i, size) == if i == first + Span(size) - 1 then size % PARTITION_SIZE else PARTITION_SIZE
  {
  }

  lemma LargeMarked(ps: seq<Partition>, allocation: nat, pointer: nat, free: nat, evacuating: bool, first: nat)
    requires Shape(ps, allocation, pointer, free) && PhaseRight(ps, true, evacuating, pointer)
    requires Head(ps, first) && ps[first].markedSize == 0
    ensures var size := ps[first].blocks[0].size; var qs := MarkedUpTo(ps, first, first + Span(size), size);
      && Shape(qs, allocation, pointer, free) && PhaseRight(qs, true, evacuating, pointer) && SumsOf(qs) == SumsOf(ps)
      && MarkedOnly(ps, qs, first, 0) && qs[allocation].dynamicSize == ps[allocation].dynamicSize
      && Head(qs, first) && qs[first].markedSize > 0
  {
    hide PartitionOk, BitmapsOk, Piece, Span, MarkedPiece;
    var size := ps[first].blocks[0].size;
    var qs := MarkedUpTo(ps, first, first + Span(size), size);
    HeadSpan(ps, allocation, pointer, free, first);
    MarkedOk(ps, first);
    MarkedSums(ps, first, first + Span(size), size);
    BitmapsKept(ps, qs, pointer);
    forall j: nat, q: nat | q in BlocksAt(ps, j)
      ensures MarkedAt(qs, j, q) <==> MarkedAt(ps, j, q) || (j == first && q == 0)
    {
      if j > first {
        assert SpanOk(ps, first) && q in ps[j].blocks;
        NotInside(ps, first, j);
      }
    }
  }

  lemma BlockPlace(ps: seq<Partition>, allocation: nat, pointer: nat, free: nat, evacuating: bool, i: nat, o: nat)
    requires Shape(ps, allocation, pointer, free) && PhaseRight(ps, true, evacuating, pointer) && o in BlocksAt(ps, i)
    ensures if ps[i].largeContent then Head(ps, i) && o == 0 else Normal(ps[i]) && ps[i].bitmap.Some? && PartitionOk(ps[i])
  {
    hide PartitionOk, LargeOk, BitmapsOk;
    WithinPartition(ps, i, o);
    if !ps[i].largeContent {
      BlockSize(ps, i, o);
    }
  }

  lemma BlockSize(ps: seq<Partition>, i: nat, o: nat)
    requires AllOk(ps) && i < |ps| && o in ps[i].blocks && !ps[i].largeContent
    ensures ps[i].blocks[o].size > 0 && ps[i].staticSize != PARTITION_SIZE && Normal(ps[i])
  {
    assert PartitionOk(ps[i]);
  }

  lemma NormalMarked(ps: seq<Partition>, allocation: nat, pointer: nat, free: nat, evacuating: bool, i: nat, o: nat)
    requires Shape(ps, allocation, pointer, free) && PhaseRight(ps, true, evacuating, pointer)
    requires i < |ps| && Normal(ps[i]) && ps[i].bitmap.Some? && o in ps[i].blocks && o !in ps[i].marks
    ensures var qs := ps[i := WithMark(ps[i], o)];
      && Shape(qs, allocation, pointer, free) && PhaseRight(qs, true, evacuating, pointer) && SumsOf(qs) == SumsOf(ps)
      && MarkedOnly(ps, qs, i, o) && qs[allocation].dynamicSize == ps[allocation].dynamicSize
  {
    hide PartitionOk, LargeOk, BitmapsOk;
    assert PartitionOk(ps[i]);
    WithMarkOk(ps[i], o);
    OneChanged(ps, i, WithMark(ps[i], o), pointer);
    SumsChanged(ps, i, WithMark(ps[i], o));
  }

  // ---------------------------------------------------------------- the steps of an evacuation

  lemma EvacuatedBlock(ps: seq<Partition>, allocation: nat, pointer: nat, free: nat, i: nat, o: nat)
    requires Shape(ps, allocation, pointer, free) && o in BlocksAt(ps, i) && ps[i].evacuate
    ensures 0 < ps[i].blocks[o].size <= PARTITION_SIZE && Normal(ps[i])
    ensures forall k :: 0 <= k < |ps| && ps[k].free ==> ps[k].blocks == map[]
  {
    hide LargeOk, BitmapsOk;
    assert PartitionOk(ps[i]);
    VacantKept(ps);
  }

  lemma CopyPlace(ps: seq<Partition>, qs: seq<Partition>, i: nat, o: nat, j: nat, q: nat, size: nat)
    requires Allocated(ps, qs, j, q, size) && j < |qs| && !qs[j].evacuate && AllOk(qs)
    requires o in BlocksAt(ps, i) && ps[i].evacuate
    ensures i != j && qs[i].evacuate && qs[i].blocks == ps[i].blocks && qs[i].marks == ps[i].marks
    ensures Normal(qs[i]) && PartitionOk(qs[i])
  {
    assert EvacuateAt(ps, i) && EvacuateAt(qs, i) && BlocksAt(qs, i) == BlocksAt(ps, i) && MarksAt(qs, i) == MarksAt(ps, i);
    assert PartitionOk(qs[i]);
  }

  lemma ForwardState(ps: seq<Partition>, allocation: nat, pointer: nat, free: nat, evacuating: bool, i: nat, o: nat)
    requires Shape(ps, allocation, pointer, free) && PhaseRight(ps, true, evacuating, pointer)
    requires i < |ps| && Normal(ps[i]) && ps[i].evacuate && o in ps[i].marks && o in ps[i].blocks && !ps[i].blocks[o].forwarded
    ensures var qs := ps[i := WithForward(ps[i], o)];
      && Shape(qs, allocation, pointer, free) && PhaseRight(qs, true, evacuating, pointer)
      && SumsOf(qs) == SumsOf(ps).(copied := SumsOf(ps).copied + ps[i].blocks[o].size)
      && qs[allocation].dynamicSize == ps[allocation].dynamicSize
  {
    hide PartitionOk, LargeOk, BitmapsOk;
    assert PartitionOk(ps[i]);
    WithForwardOk(ps[i], o);
    OneChanged(ps, i, WithForward(ps[i], o), pointer);
    SumsChanged(ps, i, WithForward(ps[i], o));
  }

  lemma CopyDone(ps: seq<Partition>, qs: seq<Partition>, rs: seq<Partition>, ts: seq<Partition>,
                 i: nat, o: nat, j: nat, q: nat, size: nat)
    requires Allocated(ps, qs, j, q, size) && i != j && i < |ps| && o in ps[i].blocks
    requires i < |qs| && qs[i].blocks == ps[i].blocks && rs == qs[i := WithForward(qs[i], o)] && MarkedOnly(rs, ts, j, q)
    requires forall k :: 0 <= k < |ps| && ps[k].free ==> ps[k].blocks == map[]
    ensures |ts| == |qs| && MarkedAt(ts, j, q) && OthersKept(ps, ts, i, o) && NewBlock(ps, ts, j, q)
    ensures forall k :: 0 <= k < |ts| ==> ts[k].blocks == rs[k].blocks && ts[k].evacuate == rs[k].evacuate
  {
    assert BlocksAt(qs, j) == BlocksAt(ps, j)[q := Block(size, false)];
    assert rs[j] == qs[j];
    forall k: nat
      ensures BlocksAt(ts, k).Keys == BlocksAt(ps, k).Keys + if k == j then {q} else {}
    {
      assert k < |qs| ==> BlocksAt(qs, k).Keys == BlocksAt(ps, k).Keys + if k == j then {q} else {};
      assert k == i ==> BlocksAt(rs, k).Keys == BlocksAt(qs, k).Keys;
    }
    forall k: nat, x: nat | x in BlocksAt(ps, k) && (k != i || x != o)
      ensures x in BlocksAt(ts, k) && BlocksAt(ts, k)[x] == BlocksAt(ps, k)[x]
      ensures MarkedAt(ts, k, x) <==> MarkedAt(ps, k, x)
    {
      assert BlocksAt(qs, k) == (if k == j then BlocksAt(ps, k)[q := Block(size, false)] else BlocksAt(ps, k));
      assert MarksAt(qs, k) == MarksAt(ps, k);
      assert x in BlocksAt(rs, k);
      assert MarkedAt(ts, k, x) <==> MarkedAt(rs, k, x) || (k == j && x == q);
    }
  }

  // ---------------------------------------------------------------- accounting

  /** The sizes add up: the space in use to static and dynamic space, and what is reclaimed or in use to
    * what was requested or copied. */
  ghost predicate Balanced(ps: seq<Partition>, recent: nat, precomputed: nat, reclaimed: nat, requested: nat) {
    var sums := SumsOf(ps);
    && precomputed + recent == sums.staticSize + sums.dynamic
    && sums.dynamic + reclaimed == requested + sums.copied
  }

  lemma DynamicsFit(ps: seq<Partition>, i: nat, j: nat)
    requires i < |ps| && j < |ps| && i != j
    ensures ps[i].dynamicSize + ps[j].dynamicSize <= SumsOf(ps).dynamic
  {
    var p := ps[i].(dynamicSize := 0);
    SumUpdate(ps, i, p, DynamicOf);
    SumMember(ps[i := p], DynamicOf, j);
  }

  lemma ShapeLarge(ps: seq<Partition>, allocation: nat, pointer: nat, free: nat)
    requires Shape(ps, allocation, pointer, free)
    ensures AllOk(ps) && LargeOk(ps)
  {
  }

  lemma ShapeFree(ps: seq<Partition>, allocation: nat, pointer: nat, free: nat)
    requires Shape(ps, allocation, pointer, free)
    ensures SumsOf(ps).free == free
    ensures forall i :: 0 <= i < |ps| ==> PartitionOk(ps[i])
  {
  }

  lemma NoneFreed(ps: seq<Partition>)
    ensures DeadFreed(ps, ps, 0) && Bounded(ps, 0)
  {
  }

  lemma StaticKept(ps: seq<Partition>, first: nat, to: nat)
    ensures SumsOf(Emptied(ps, first, to)).staticSize == SumsOf(ps).staticSize
  {
    SumEqual(Emptied(ps, first, to), ps, StaticOf);
  }

  lemma MarkedFits(ps: seq<Partition>, i: nat, allocation: nat)
    requires AllOk(ps) && i < |ps| && allocation < |ps| && Normal(ps[allocation]) && !ps[allocation].evacuate
    ensures ps[i].evacuate ==> ps[i].markedSize <= ps[i].dynamicSize
    ensures ps[i].evacuate || ps[i].temporary ==> i != allocation
    ensures ps[i].temporary ==> !ps[i].evacuate && ps[i].dynamicSize == 0
  {
    assert PartitionOk(ps[i]);
    if ps[i].evacuate && Normal(ps[i]) {
      SizeSumWithin(ps[i].marks, ps[i].blocks.Keys, ps[i].blocks);
    }
  }

  /** What one partition and the allocation partition hold is part of the whole. */
  lemma DynamicsFitCompleted(ps: seq<Partition>, qs: seq<Partition>, i: nat, allocation: nat)
    requires i < |ps| && allocation < |ps| && qs == CompletedUpTo(ps, i)
    requires Normal(ps[allocation]) && !ps[allocation].evacuate
    ensures i != allocation ==> ps[i].dynamicSize + ps[allocation].dynamicSize <= SumsOf(qs).dynamic
  {
    if i != allocation {
      DynamicsFit(qs, i, allocation);
    }
  }

  lemma CompletedWhole(ps: seq<Partition>, allocation: nat, free: nat)
    requires var qs := CompletedUpTo(ps, |ps|);
      && AllOk(qs) && LargeOk(qs) && BitmapsOk(qs, 0) && SumsOf(qs).free == free
      && allocation < |qs| && Normal(qs[allocation]) && !qs[allocation].evacuate
    ensures Shape(CompletedUpTo(ps, |ps|), allocation, 0, free)
  {
  }

  lemma UpdatesPlanned(ps: seq<Partition>, qs: seq<Partition>, allocation: nat, pointer: nat, free: nat, evacuating: bool)
    requires Shape(ps, allocation, pointer, free) && PhaseRight(ps, true, evacuating, pointer) && |qs| == |ps|
    requires forall i :: 0 <= i < |ps| ==> qs[i] == ps[i].(update := !ps[i].free && !ps[i].evacuate)
    ensures Shape(qs, allocation, pointer, free) && PhaseRight(qs, true, evacuating, pointer) && SumsOf(qs) == SumsOf(ps)
    ensures allocation < |ps| && qs[allocation].dynamicSize == ps[allocation].dynamicSize
  {
    hide PartitionOk, LargeOk, BitmapsOk;
    forall i | 0 <= i < |ps|
      ensures SameButFlags(ps[i], qs[i]) && FlagsFit(ps[i], qs[i])
    {
      EvacuatedNormal(ps, i);
    }
    FlagsShape(ps, qs, allocation, pointer, free);
  }

  lemma EvacuatedNormal(ps: seq<Partition>, i: nat)
    requires AllOk(ps) && i < |ps|
    ensures ps[i].evacuate ==> Normal(ps[i])
  {
    assert PartitionOk(ps[i]);
  }

  // ---------------------------------------------------------------- the start of a collection

  /** The first `n` partitions with objects have a bitmap; apart from that, only vacant partitions have changed. */
  ghost predicate Started(ps: seq<Partition>, size: nat, qs: seq<Partition>, size': nat, n: nat) {
    && |ps| <= |qs|
    && (forall i :: 0 <= i < |ps| && !ps[i].free ==>
          && qs[i].(bitmap := None) == ps[i]
          && (qs[i].bitmap.Some? <==> i < n && HoldsObjects(qs[i]) && !qs[i].largeContent))
    && (forall i :: 0 <= i < |qs| && (i < |ps| ==> ps[i].free) ==> Vacant(qs[i]))
    && SameStatic(ps, qs)
    && SumsOf(qs).dynamic == SumsOf(ps).dynamic && SumsOf(qs).copied == SumsOf(ps).copied
    && SumsOf(qs).staticSize + size == SumsOf(ps).staticSize + size'
  }

  lemma NotRunning(ps: seq<Partition>, evacuating: bool, pointer: nat)
    requires PhaseRight(ps, false, evacuating, pointer)
    ensures !evacuating && pointer == 0
  {
  }

  lemma StartedNone(ps: seq<Partition>, size: nat, allocation: nat, pointer: nat, free: nat)
    requires Shape(ps, allocation, pointer, free) && PhaseRight(ps, false, false, pointer)
    ensures Started(ps, size, ps, size, 0)
  {
    VacantKept(ps);
  }

  lemma StartedAt(ps: seq<Partition>, size: nat, qs: seq<Partition>, size': nat, n: nat)
    requires Started(ps, size, qs, size', n) && n < |ps|
    ensures !(HoldsObjects(qs[n]) && !qs[n].largeContent) ==> Started(ps, size, qs, size', n + 1)
  {
  }

  lemma StartedMore(ps: seq<Partition>, size: nat, qs: seq<Partition>, size': nat, rs: seq<Partition>, size'': nat, n: nat,
                    allocation: nat, pointer: nat, free: nat, address: nat)
    requires Started(ps, size, qs, size', n) && n < |ps| && HoldsObjects(qs[n]) && !qs[n].largeContent
    requires Grown(qs, size', rs, size'', |rs|) && Shape(rs, allocation, pointer, free) && NewBitmap(rs, address, pointer)
    ensures |qs| <= |rs| && rs[n] == qs[n]
    ensures var ts := rs[n := rs[n].(bitmap := Some(address))];
      Started(ps, size, ts, size'', n + 1) && Shape(ts, allocation, pointer, free)
  {
    hide PartitionOk, LargeOk, BitmapsOk, SumsOf, NewBitmap, Empty, CopiedOf;
    var p := rs[n].(bitmap := Some(address));
    var ts := rs[n := p];
    assert !qs[n].free && rs[n] == qs[n];
    assert PartitionOk(rs[n]);
    BitmapOk(rs[n], address);
    BitmapAssigned(rs, pointer, address, n, p);
    SumsChanged(rs, n, p);
    SumsSame(rs, n, p);
    SumUpdate(rs, n, p, FreeOne);
    forall i | 0 <= i < |rs|
      ensures PartitionOk(ts[i]) && SameLarge(rs[i], ts[i])
    {
      assert PartitionOk(rs[i]);
    }
    LargeKept(rs, ts);
  }

  lemma SumsSame(ps: seq<Partition>, i: nat, p: Partition)
    requires i < |ps| && FreeOne(p) == FreeOne(ps[i]) && p.staticSize == ps[i].staticSize
    requires p.dynamicSize == ps[i].dynamicSize && CopiedOf(p) == CopiedOf(ps[i])
    ensures SumsOf(ps[i := p]) == SumsOf(ps)
  {
    SumsChanged(ps, i, p);
  }

  lemma BitmapOk(p: Partition, address: nat)
    requires PartitionOk(p) && Normal(p)
    ensures PartitionOk(p.(bitmap := Some(address))) && CopiedOf(p.(bitmap := Some(address))) == CopiedOf(p)
  {
    assert p.(bitmap := Some(address)).blocks == p.blocks;
  }

  lemma StartedAll(ps: seq<Partition>, size: nat, qs: seq<Partition>, size': nat, allocation: nat, pointer: nat, free: nat)
    requires Started(ps, size, qs, size', |ps|) && PhaseRight(ps, false, false, 0) && allocation < |ps| && !ps[allocation].free
    ensures PhaseRight(qs, true, false, pointer)
    ensures SumsOf(qs).dynamic == SumsOf(ps).dynamic && SumsOf(qs).copied == SumsOf(ps).copied
    ensures SumsOf(qs).staticSize + size == SumsOf(ps).staticSize + size'
    ensures allocation < |qs| && qs[allocation].dynamicSize == ps[allocation].dynamicSize
  {
    hide SumsOf;
    assert qs[allocation].(bitmap := None) == ps[allocation];
    forall i | 0 <= i < |qs|
      ensures HoldsObjects(qs[i]) && !qs[i].largeContent ==> qs[i].bitmap.Some?
      ensures !qs[i].evacuate
    {
      if i < |ps| && !ps[i].free {
        assert qs[i].(bitmap := None) == ps[i];
        assert qs[i].evacuate == ps[i].evacuate;
      } else {
        assert Vacant(qs[i]);
      }
    }
  }

  lemma SuitsAt(ps: seq<Partition>, first: nat, n: nat, i: nat)
    requires AllOk(ps) && Suits(ps, Contiguous(n), first) && first <= i < first + n
    ensures i < |ps| && ps[i].IsCompletelyFree() && PartitionOk(ps[i])
  {
  }

  /** More free partitions at the end change nothing. */
  lemma Appended(ps: seq<Partition>, size: nat, qs: seq<Partition>, size': nat, running: bool, evacuating: bool,
                 allocation: nat, pointer: nat, free: nat, free': nat)
    requires Shape(ps, allocation, pointer, free) && PhaseRight(ps, running, evacuating, pointer) && Grown(ps, size, qs, size', |qs|)
    requires Shape(qs, allocation, pointer, free')
    requires forall i :: 0 <= i < |ps| ==> qs[i] == ps[i]
    requires forall i :: |ps| <= i < |qs| ==> qs[i].free
    ensures PhaseRight(qs, running, evacuating, pointer) && qs[allocation] == ps[allocation] && AllOk(qs) && SameStatic(ps, qs)
    ensures SumsOf(qs).dynamic == SumsOf(ps).dynamic && SumsOf(qs).copied == SumsOf(ps).copied
    ensures SumsOf(qs).staticSize + size == SumsOf(ps).staticSize + size'
  {
    hide PartitionOk, LargeOk, BitmapsOk;
    forall i | |ps| <= i < |qs|
      ensures Vacant(qs[i]) && !qs[i].temporary
    {
      FreeNotTemporary(qs, i);
    }
  }

  lemma FilledAllocated(ps: seq<Partition>, qs: seq<Partition>, first: nat, size: nat)
    requires AllOk(ps) && AllOk(qs) && |ps| <= |qs| && size > PARTITION_SIZE && Suits(qs, Contiguous(Span(size)), first)
    requires forall i :: 0 <= i < |ps| ==> qs[i] == ps[i]
    requires forall i :: |ps| <= i < |qs| ==> qs[i].free
    requires SameStatic(ps, qs)
    ensures Allocated(ps, Filled(qs, first, first + Span(size), size), first, 0, size)
  {
    hide Span, AllOk;
    var rs := Filled(qs, first, first + Span(size), size);
    VacantKept(qs);
    assert Vacant(qs[first]) && Span(size) > 0;
    assert rs[first] == LargePiece(qs[first], first, first, size);
    forall j | 0 <= j < |qs|
      ensures BlocksAt(rs, j) == (if j == first then BlocksAt(ps, j)[0 := Block(size, false)] else BlocksAt(ps, j))
      ensures MarksAt(rs, j) == MarksAt(ps, j) && EvacuateAt(rs, j) == EvacuateAt(ps, j)
    {
      if qs[j].free {
        assert Vacant(qs[j]);
      }
    }
  }

  // ---------------------------------------------------------------- the steps of an allocation

  lemma ShapeAllocation(ps: seq<Partition>, allocation: nat, pointer: nat, free: nat)
    requires Shape(ps, allocation, pointer, free)
    ensures allocation < |ps| && Normal(ps[allocation]) && !ps[allocation].evacuate && AllOk(ps)
  {
  }

  lemma ShapeMoved(ps: seq<Partition>, allocation: nat, pointer: nat, free: nat, i: nat)
    requires Shape(ps, allocation, pointer, free) && i < |ps| && Normal(ps[i]) && !ps[i].evacuate
    ensures Shape(ps, i, pointer, free)
  {
  }

  lemma BumpShape(ps: seq<Partition>, allocation: nat, pointer: nat, free: nat, i: nat, size: nat)
    requires Shape(ps, allocation, pointer, free) && i < |ps| && Normal(ps[i]) && 0 < size <= ps[i].FreeSize()
    requires !ps[i].evacuate
    ensures Shape(ps[i := Bumped(ps[i], size)], allocation, pointer, free)
    ensures SumsOf(ps[i := Bumped(ps[i], size)]) == SumsOf(ps).(dynamic := SumsOf(ps).dynamic + size)
    ensures Allocated(ps, ps[i := Bumped(ps[i], size)], i, ps[i].staticSize + ps[i].dynamicSize, size)
  {
    hide PartitionOk, LargeOk, BitmapsOk, CopiedOf;
    assert PartitionOk(ps[i]);
    BumpedOk(ps[i], size);
    VacantKept(ps);
    OneChanged(ps, i, Bumped(ps[i], size), pointer);
    SumsChanged(ps, i, Bumped(ps[i], size));
  }

  lemma InNewPartition(ps: seq<Partition>, size': nat, qs: seq<Partition>, size'': nat, allocation: nat,
                       pointer: nat, pointer': nat, free: nat, i: nat, size: nat, running: bool, evacuating: bool)
    requires AllOk(ps) && PhaseRight(ps, running, evacuating, pointer) && Shape(qs, allocation, pointer', free)
    requires Grown(ps, size', qs, size'', i) && i < |qs| && Claimed(qs[i], size, running) && size > 0
    requires (!running ==> pointer' == pointer) && (i < |ps| ==> ps[i].free)
    requires !running ==> forall j :: 0 <= j < |qs| && j != i && (j < |ps| ==> ps[j].free) ==> qs[j].free
    ensures var rs := qs[i := Bumped(qs[i], size)];
      && Shape(rs, i, pointer', free) && PhaseRight(rs, running, evacuating, pointer')
      && Allocated(ps, rs, i, qs[i].staticSize + qs[i].dynamicSize, size)
      && HoldsObjects(rs[i]) && rs[i].dynamicSize == size
      && SumsOf(rs).dynamic == SumsOf(ps).dynamic + size && SumsOf(rs).copied == SumsOf(ps).copied
      && SumsOf(rs).staticSize + size' == SumsOf(ps).staticSize + size''
  {
    hide LargeOk, BitmapsOk, PartitionOk;
    GrownPhase(ps, size', qs, size'', i, size, running, evacuating, pointer, pointer');
    BumpShape(qs, allocation, pointer', free, i, size);
    BumpPhase(qs, running, evacuating, pointer', i, size);
    GrownAllocated(ps, size', qs, size'', i, size, running);
    ShapeMoved(qs[i := Bumped(qs[i], size)], allocation, pointer', free, i);
  }

  lemma BumpPhase(ps: seq<Partition>, running: bool, evacuating: bool, pointer: nat, i: nat, size: nat)
    requires PhaseRight(ps, running, evacuating, pointer) && i < |ps|
    ensures PhaseRight(ps[i := Bumped(ps[i], size)], running, evacuating, pointer)
  {
  }

  lemma GrownPhase(ps: seq<Partition>, size: nat, qs: seq<Partition>, size': nat, index: nat, space: nat,
                   running: bool, evacuating: bool, pointer: nat, pointer': nat)
    requires PhaseRight(ps, running, evacuating, pointer) && Grown(ps, size, qs, size', index)
    requires index < |qs| && Claimed(qs[index], space, running) && (!running ==> pointer' == pointer)
    requires !running ==> forall i :: 0 <= i < |qs| && i != index && (i < |ps| ==> ps[i].free) ==> qs[i].free
    requires AllOk(qs)
    ensures PhaseRight(qs, running, evacuating, pointer')
  {
    hide PartitionOk;
    forall i | 0 <= i < |qs| && i != index
      ensures running && HoldsObjects(qs[i]) && !qs[i].largeContent ==> qs[i].bitmap.Some?
      ensures !running ==> Idle(qs[i])
      ensures !evacuating ==> !qs[i].evacuate
    {
      if i < |ps| && !ps[i].free {
        assert qs[i] == ps[i];
      } else {
        assert Vacant(qs[i]);
        FreeNotTemporary(qs, i);
      }
    }
  }

  lemma FreeNotTemporary(ps: seq<Partition>, i: nat)
    requires AllOk(ps) && i < |ps|
    ensures ps[i].free ==> !ps[i].temporary
  {
    assert PartitionOk(ps[i]);
  }

  lemma GrownAllocated(ps: seq<Partition>, size: nat, qs: seq<Partition>, size': nat, i: nat, space: nat, running: bool)
    requires AllOk(ps) && Grown(ps, size, qs, size', i) && i < |qs| && Claimed(qs[i], space, running)
    requires i < |ps| ==> ps[i].free
    ensures Allocated(ps, qs[i := Bumped(qs[i], space)], i, qs[i].staticSize + qs[i].dynamicSize, space)
  {
    var rs := qs[i := Bumped(qs[i], space)];
    forall j | 0 <= j < |ps| && ps[j].free
      ensures Empty(ps[j])
    {
      assert PartitionOk(ps[j]);
    }
    forall j | 0 <= j < |qs|
      ensures BlocksAt(rs, j) == (if j == i then BlocksAt(ps, j)[qs[i].staticSize + qs[i].dynamicSize := Block(space, false)] else BlocksAt(ps, j))
      ensures MarksAt(rs, j) == MarksAt(ps, j) && EvacuateAt(rs, j) == EvacuateAt(ps, j)
    {
      if j < |ps| && !ps[j].free {
        assert qs[j] == ps[j];
      } else if j != i {
        assert Vacant(qs[j]);
      }
    }
  }

  lemma NewTableFree(ps: seq<Partition>)
    ensures forall i :: |ps| <= i < |ps + NewTable()| ==> Vacant((ps + NewTable())[i]) && (ps + NewTable())[i].free
  {
    assert forall i :: |ps| <= i < |ps + NewTable()| ==> (ps + NewTable())[i] == NewTable()[i - |ps|];
  }

  // ---------------------------------------------------------------- planning

  function Garbage(ps: seq<Partition>, i: nat): int {
    if i < |ps| then ps[i].GarbageAmount() else 0
  }

  /** The partition with more garbage comes first. */
  function ByGarbage(ps: seq<Partition>): Compare {
    (l: nat, r: nat) => if Garbage(ps, l) > Garbage(ps, r) then Less else if Garbage(ps, l) == Garbage(ps, r) then Equal else Greater
  }

  lemma ByGarbageOrders(ps: seq<Partition>)
    ensures TotalPreorder(ByGarbage(ps))
  {
  }

  function Identity(n: nat): (s: seq<nat>)
    ensures |s| == n && forall k :: 0 <= k < n ==> s[k] == k
  {
    seq(n, k requires 0 <= k => k)
  }

  /** Each partition once, by descending garbage. */
  ghost predicate Ranking(ps: seq<Partition>, ranked: seq<nat>) {
    && |ranked| == |ps|
    && (forall k :: 0 <= k < |ranked| ==> ranked[k] < |ps|)
    && (forall i: nat :: i < |ps| ==> i in ranked)
    && (forall k, m :: 0 <= k < m < |ranked| ==> ranked[k] != ranked[m] && Garbage(ps, ranked[k]) >= Garbage(ps, ranked[m]))
  }

  lemma {:induction false} IdentityOnce(n: nat, x: nat)
    ensures multiset(Identity(n))[x] == if x < n then 1 else 0
  {
    if n > 0 {
      IdentityOnce(n - 1, x);
      assert Identity(n) == Identity(n - 1) + [n - 1];
    }
  }

  lemma RankingOf(ps: seq<Partition>, ranked: seq<nat>)
    requires |ranked| == |ps| && multiset(ranked) == multiset(Identity(|ps|)) && Sorted(ranked, 0, |ranked|, ByGarbage(ps))
    ensures Ranking(ps, ranked)
  {
    forall k | 0 <= k < |ranked|
      ensures ranked[k] < |ps|
    {
      assert ranked[k] in multiset(ranked);
      IdentityOnce(|ps|, ranked[k]);
    }
    forall i: nat | i < |ps|
      ensures i in ranked
    {
      IdentityOnce(|ps|, i);
      assert i in multiset(ranked);
    }
    forall k, m | 0 <= k < m < |ranked|
      ensures ranked[k] != ranked[m] && Garbage(ps, ranked[k]) >= Garbage(ps, ranked[m])
    {
      if ranked[k] == ranked[m] {
        assert ranked == ranked[..m] + [ranked[m]] + ranked[m + 1..];
        assert ranked[k] == ranked[..m][k];
        assert multiset(ranked)[ranked[k]] >= 2;
        IdentityOnce(|ps|, ranked[k]);
      }
      assert Le(ByGarbage(ps), ranked[k], ranked[m]);
    }
  }

  /** A partition in use other than the allocation partition, without large content, not empty, in which at
    * least 15 percent of the space for objects is not marked. */
  ghost predicate WorthEvacuating(ps: seq<Partition>, i: nat, allocation: nat) {
    && i < |ps| && i != allocation
    && !ps[i].free && !ps[i].largeContent && ps[i].dynamicSize > 0
    && 100 * (PARTITION_SIZE - ps[i].staticSize - ps[i].markedSize) >= 15 * (PARTITION_SIZE - ps[i].staticSize)
  }

  /** Bytes of objects that are not marked. */
  ghost function Unmarked(ps: seq<Partition>, i: nat): int {
    if i < |ps| then ps[i].dynamicSize - ps[i].markedSize else 0
  }

  function EvacuatedMarks(p: Partition): nat {
    if p.evacuate then p.markedSize else 0
  }

  /** Of those that are not selected, partition `j` has most garbage, and there is no space for its marked objects. */
  ghost predicate DoesNotFit(ps: seq<Partition>, qs: seq<Partition>, j: nat, allocation: nat, space: nat) {
    && WorthEvacuating(ps, j, allocation) && |qs| == |ps| && !qs[j].evacuate
    && Sum(qs, EvacuatedMarks) + ps[j].markedSize > space
    && forall i: nat :: WorthEvacuating(ps, i, allocation) && !qs[i].evacuate ==> Unmarked(ps, j) >= Unmarked(ps, i)
  }

  /** Only partitions worth it are to be evacuated, those with most garbage, as many of them as fit. */
  ghost predicate Planned(ps: seq<Partition>, qs: seq<Partition>, allocation: nat, space: nat) {
    && |qs| == |ps|
    && (forall i :: 0 <= i < |ps| ==> qs[i] == ps[i].(evacuate := qs[i].evacuate))
    && (forall i: nat :: i < |ps| && qs[i].evacuate ==> WorthEvacuating(ps, i, allocation))
    && Sum(qs, EvacuatedMarks) <= space
    && (forall i: nat, j: nat :: i < |qs| && qs[i].evacuate && WorthEvacuating(ps, j, allocation) && !qs[j].evacuate ==>
          Unmarked(ps, i) >= Unmarked(ps, j))
    && ((forall j: nat :: WorthEvacuating(ps, j, allocation) ==> qs[j].evacuate)
        || exists j: nat :: DoesNotFit(ps, qs, j, allocation, space))
  }

  /** The candidates among the first ones in the ranking are selected, and the space for them is taken. */
  ghost predicate Selected(ps: seq<Partition>, qs: seq<Partition>, ranked: seq<nat>, n: nat, allocation: nat,
                           reserved: nat, space: nat) {
    && Ranking(ps, ranked) && |qs| == |ps| && n <= |ps|
    && (forall i :: 0 <= i < |ps| ==> qs[i] == ps[i].(evacuate := qs[i].evacuate))
    && (forall k :: 0 <= k < |ranked| ==> (qs[ranked[k]].evacuate <==> k < n && WorthEvacuating(ps, ranked[k], allocation)))
    && Sum(qs, EvacuatedMarks) + space == reserved
  }

  predicate AnyEvacuated(ps: seq<Partition>) {
    exists i :: 0 <= i < |ps| && ps[i].evacuate
  }

  lemma SomeEvacuated(ps: seq<Partition>, i: nat)
    requires i < |ps| && ps[i].evacuate
    ensures AnyEvacuated(ps)
  {
  }

  lemma NoneEvacuated(ps: seq<Partition>, pointer: nat)
    requires PhaseRight(ps, true, false, pointer)
    ensures !AnyEvacuated(ps)
  {
  }

  lemma SelectedNone(ps: seq<Partition>, ranked: seq<nat>, allocation: nat, space: nat)
    requires Ranking(ps, ranked) && !AnyEvacuated(ps)
    ensures Selected(ps, ps, ranked, 0, allocation, space, space)
  {
    assert forall i :: 0 <= i < |ps| ==> !ps[i].evacuate;
    SumConstant(ps, EvacuatedMarks, 0);
  }

  lemma RankedIndex(ps: seq<Partition>, qs: seq<Partition>, ranked: seq<nat>, n: nat, allocation: nat, reserved: nat, space: nat)
    requires Selected(ps, qs, ranked, n, allocation, reserved, space) && n < |ps|
    ensures n < |ranked| && ranked[n] < |qs| && qs[ranked[n]] == ps[ranked[n]].(evacuate := false)
    ensures !WorthEvacuating(qs, ranked[n], allocation) ==> Selected(ps, qs, ranked, n + 1, allocation, reserved, space)
  {
    assert qs[ranked[n]] == ps[ranked[n]].(evacuate := qs[ranked[n]].evacuate);
  }

  lemma SelectedMore(ps: seq<Partition>, qs: seq<Partition>, ranked: seq<nat>, n: nat, allocation: nat, reserved: nat, space: nat)
    requires Selected(ps, qs, ranked, n, allocation, reserved, space) && n < |ps|
    requires WorthEvacuating(qs, ranked[n], allocation) && qs[ranked[n]].markedSize <= space
    ensures var p := qs[ranked[n]].(evacuate := true);
      Selected(ps, qs[ranked[n] := p], ranked, n + 1, allocation, reserved, space - p.markedSize)
  {
    var index := ranked[n];
    var p := qs[index].(evacuate := true);
    assert qs[index] == ps[index].(evacuate := qs[index].evacuate);
    SumUpdate(qs, index, p, EvacuatedMarks);
  }

  lemma RankOf(ps: seq<Partition>, ranked: seq<nat>, i: nat) returns (k: nat)
    requires Ranking(ps, ranked) && i < |ps|
    ensures k < |ranked| && ranked[k] == i
  {
    assert i in ranked;
    k :| 0 <= k < |ranked| && ranked[k] == i;
  }

  lemma SelectedOrder(ps: seq<Partition>, qs: seq<Partition>, ranked: seq<nat>, n: nat, allocation: nat, reserved: nat, space: nat)
    requires Selected(ps, qs, ranked, n, allocation, reserved, space)
    ensures forall i: nat :: i < |ps| && qs[i].evacuate ==> WorthEvacuating(ps, i, allocation)
    ensures forall i: nat, j: nat :: i < |qs| && qs[i].evacuate && WorthEvacuating(ps, j, allocation) && !qs[j].evacuate ==>
      Unmarked(ps, i) >= Unmarked(ps, j)
    ensures n == |ps| ==> forall j: nat :: WorthEvacuating(ps, j, allocation) ==> qs[j].evacuate
  {
    forall i: nat | i < |ps|
      ensures qs[i].evacuate ==> WorthEvacuating(ps, i, allocation)
      ensures n == |ps| && WorthEvacuating(ps, i, allocation) ==> qs[i].evacuate
    {
      var k := RankOf(ps, ranked, i);
    }
    forall i: nat, j: nat | i < |qs| && qs[i].evacuate && WorthEvacuating(ps, j, allocation) && !qs[j].evacuate
      ensures Unmarked(ps, i) >= Unmarked(ps, j)
    {
      var k := RankOf(ps, ranked, i);
      var m := RankOf(ps, ranked, j);
      assert k < n <= m;
    }
  }

  lemma PlannedEarly(ps: seq<Partition>, qs: seq<Partition>, ranked: seq<nat>, n: nat, allocation: nat, reserved: nat, space: nat)
    requires Selected(ps, qs, ranked, n, allocation, reserved, space) && n < |ps|
    requires WorthEvacuating(qs, ranked[n], allocation) && space < qs[ranked[n]].markedSize
    ensures Planned(ps, qs, allocation, reserved)
  {
    SelectedOrder(ps, qs, ranked, n, allocation, reserved, space);
    var j := ranked[n];
    assert qs[j] == ps[j].(evacuate := qs[j].evacuate);
    forall i: nat | WorthEvacuating(ps, i, allocation) && !qs[i].evacuate
      ensures Unmarked(ps, j) >= Unmarked(ps, i)
    {
      var k := RankOf(ps, ranked, i);
    }
    assert DoesNotFit(ps, qs, j, allocation, reserved);
  }

  /** A partition without any marked object is selected, unless one with at least as much garbage does not fit. */
  lemma DeadPartitionSelected(ps: seq<Partition>, qs: seq<Partition>, i: nat, allocation: nat, space: nat)
    requires Planned(ps, qs, allocation, space) && i < |ps| && i != allocation
    requires !ps[i].free && !ps[i].largeContent && ps[i].dynamicSize > 0 && ps[i].markedSize == 0 && ps[i].staticSize < PARTITION_SIZE
    ensures qs[i].evacuate || exists j: nat :: j != i && DoesNotFit(ps, qs, j, allocation, space) && Unmarked(ps, j) >= Unmarked(ps, i)
  {
    assert WorthEvacuating(ps, i, allocation);
    if !qs[i].evacuate {
      var j: nat :| DoesNotFit(ps, qs, j, allocation, space);
    }
  }

  lemma PlannedLate(ps: seq<Partition>, qs: seq<Partition>, ranked: seq<nat>, allocation: nat, reserved: nat, space: nat)
    requires Selected(ps, qs, ranked, |ps|, allocation, reserved, space)
    ensures Planned(ps, qs, allocation, reserved)
  {
    SelectedOrder(ps, qs, ranked, |ps|, allocation, reserved, space);
  }

  lemma PlannedValid(ps: seq<Partition>, qs: seq<Partition>, allocation: nat, pointer: nat, free: nat, space: nat, evacuating: bool)
    requires Shape(ps, allocation, pointer, free) && PhaseRight(ps, true, false, pointer) && Planned(ps, qs, allocation, space)
    requires evacuating <==> AnyEvacuated(qs)
    ensures Shape(qs, allocation, pointer, free) && PhaseRight(qs, true, evacuating, pointer) && SumsOf(qs) == SumsOf(ps)
    ensures qs[allocation].dynamicSize == ps[allocation].dynamicSize
  {
    hide PartitionOk, LargeOk, BitmapsOk;
    forall i | 0 <= i < |ps|
      ensures SameButFlags(ps[i], qs[i]) && FlagsFit(ps[i], qs[i])
    {
      assert qs[i] == ps[i].(evacuate := qs[i].evacuate);
      CandidateNormal(ps, i, allocation);
    }
    FlagsShape(ps, qs, allocation, pointer, free);
  }

  lemma CandidateNormal(ps: seq<Partition>, i: nat, allocation: nat)
    requires AllOk(ps) && i < |ps|
    ensures WorthEvacuating(ps, i, allocation) ==> Normal(ps[i])
    ensures ps[i].update ==> !ps[i].free
  {
    assert PartitionOk(ps[i]);
  }

  lemma Boundary(index: nat)
    ensures var a := index * PARTITION_SIZE;
      a % PARTITION_SIZE == 0 && a % BITMAP_SIZE == 0 && a / PARTITION_SIZE == index
  {
    assert PARTITION_SIZE == 67108864 && BITMAP_SIZE == 1048576;
    assert (67108864 * index) / 67108864 == index && (67108864 * index) % 67108864 == 0;
    assert (1048576 * (64 * index)) % 1048576 == 0;
  }

  /** No bitmap lies in a partition that has just become temporary. */
  lemma TemporaryUnused(ps: seq<Partition>, qs: seq<Partition>, index: nat, pointer: nat)
    requires BitmapsOk(ps, pointer) && AllOk(ps) && BitmapsOk(qs, pointer) && AllOk(qs) && |ps| <= |qs|
    requires pointer % PARTITION_SIZE == 0
    requires forall i :: 0 <= i < |ps| && !ps[i].free ==> qs[i] == ps[i]
    requires forall i :: 0 <= i < |qs| && (i < |ps| ==> ps[i].free) ==> Vacant(qs[i])
    requires index < |qs| && qs[index].temporary && (index < |ps| ==> ps[index].free)
    ensures var a := index * PARTITION_SIZE;
      && a % PARTITION_SIZE == 0 && a / PARTITION_SIZE == index && BitmapsOk(qs, a)
      && forall i :: 0 <= i < |qs| && qs[i].bitmap.Some? ==> qs[i].bitmap.value / PARTITION_SIZE != index
  {
    hide PartitionOk, Vacant;
    Boundary(index);
    forall i | 0 <= i < |qs| && qs[i].bitmap.Some?
      ensures qs[i].bitmap.value / PARTITION_SIZE != index && BitmapPlaced(qs, qs[i].bitmap.value, index * PARTITION_SIZE)
    {
      BitmapElsewhere(ps, qs, index, pointer, i);
      assert BitmapPlaced(qs, qs[i].bitmap.value, pointer);
    }
  }

  lemma BitmapElsewhere(ps: seq<Partition>, qs: seq<Partition>, index: nat, pointer: nat, i: nat)
    requires BitmapsOk(ps, pointer) && AllOk(ps) && |ps| <= |qs| && i < |qs| && qs[i].bitmap.Some?
    requires !(i < |ps| && !ps[i].free) ==> Vacant(qs[i])
    requires i < |ps| && !ps[i].free ==> qs[i] == ps[i]
    requires index < |ps| ==> ps[index].free
    ensures qs[i].bitmap.value / PARTITION_SIZE != index
  {
    hide PartitionOk;
    assert BitmapPlaced(ps, ps[i].bitmap.value, pointer);
    if index < |ps| {
      FreeNotTemporary(ps, index);
    }
  }
}
