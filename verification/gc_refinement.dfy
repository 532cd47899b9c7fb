/** The partitioned heap keeps what the collector relies on: its records and blocks are those of the
  * collector's heap, and each of its operations is the one the collector assumes. */
module GcRefinement {
  import M = GcModel
  import GcRelocation
  import GcCycle
  import opened GcPartitions
  import opened GcLarge
  import opened GcCollection
  import opened GcHeap

  /** What the collector knows of a partition. */
  function ViewOf(p: Partition): M.Partition {
    M.Partition(p.free, p.largeContent, p.temporary, p.staticSize == PARTITION_SIZE, p.evacuate, p.update)
  }

  function View(ps: seq<Partition>): (parts: seq<M.Partition>)
    ensures |parts| == |ps| && forall i :: 0 <= i < |ps| ==> parts[i] == ViewOf(ps[i])
  {
    seq(|ps|, i requires 0 <= i < |ps| => ViewOf(ps[i]))
  }

  /** The objects of the heap are the blocks of the partitions, forwarded ones are forwarded. */
  ghost predicate Represents(ps: seq<Partition>, heap: M.Heap) {
    && (forall i: nat, o: nat :: o in BlocksAt(ps, i) ==> Same(heap, Address(i, o), BlocksAt(ps, i)[o]))
    && (forall a: nat {:trigger Located(ps, a)} :: a in heap ==> Located(ps, a))
  }

  /** There is a block at this address. */
  predicate Located(ps: seq<Partition>, a: nat) {
    a % PARTITION_SIZE in BlocksAt(ps, a / PARTITION_SIZE)
  }

  lemma SameBlocks(ps: seq<Partition>, qs: seq<Partition>, heap: M.Heap)
    requires Represents(ps, heap) && forall i: nat :: BlocksAt(qs, i) == BlocksAt(ps, i)
    ensures Represents(qs, heap)
  {
    forall a: nat | a in heap
      ensures Located(qs, a)
    {
      assert Located(ps, a);
    }
  }

  predicate Same(heap: M.Heap, a: nat, b: Block) {
    a in heap && heap[a].size == b.size && (heap[a].forward != a <==> b.forwarded)
  }

  /** The marks are those of the collector. */
  ghost predicate RepresentsMarks(ps: seq<Partition>, marked: set<nat>) {
    forall i: nat, o: nat :: o in BlocksAt(ps, i) ==> (MarkedAt(ps, i, o) <==> Address(i, o) in marked)
  }

  lemma Place(i: nat, o: nat)
    requires o < PARTITION_SIZE
    ensures Address(i, o) / PARTITION_SIZE == i && Address(i, o) % PARTITION_SIZE == o
  {
  }

  lemma PlaceOf(a: nat)
    ensures a == Address(a / PARTITION_SIZE, a % PARTITION_SIZE) && a % PARTITION_SIZE < PARTITION_SIZE
    ensures M.Part(a) == a / PARTITION_SIZE
  {
  }

  ghost predicate Orderly(ps: seq<Partition>) {
    AllOk(ps) && LargeOk(ps)
  }

  /** Where a block may be, in terms of the collector. */
  lemma BlockAt(ps: seq<Partition>, i: nat, o: nat, x: M.Obj)
    requires Orderly(ps) && o in BlocksAt(ps, i) && x.size == BlocksAt(ps, i)[o].size
    ensures i < |ps| && o < PARTITION_SIZE && i + M.Span(x) <= |ps| && ViewOf(ps[i]).HasDynamicSpace()
    ensures ps[i].largeContent <==> M.Span(x) > 1
    ensures ps[i].largeContent ==> Head(ps, i) && SpanOk(ps, i) && o == 0 && M.Span(x) == Span(x.size)
  {
    hide AllOk, LargeOk;
    WithinPartition(ps, i, o);
    if !ps[i].largeContent {
      BlockSize(ps, i, o);
    } else {
      HeadFits(ps, i);
    }
  }

  lemma HeadFits(ps: seq<Partition>, h: nat)
    requires AllOk(ps) && Head(ps, h) && SpanOk(ps, h)
    ensures ps[h].blocks[0].size > PARTITION_SIZE && Span(ps[h].blocks[0].size) > 1 && h + Span(ps[h].blocks[0].size) <= |ps|
    ensures forall i :: h <= i < h + Span(ps[h].blocks[0].size) ==> ps[i].largeContent && ViewOf(ps[i]).HasDynamicSpace()
    ensures forall i :: h <= i < h + Span(ps[h].blocks[0].size) ==> ps[i].staticSize == 0
  {
    hide PartitionOk;
    forall i | h <= i < h + Span(ps[h].blocks[0].size)
      ensures ps[i].largeContent && ViewOf(ps[i]).HasDynamicSpace() && ps[i].staticSize == 0
    {
      assert Piece(ps[i], h, i, ps[h].blocks[0].size, ps[h].markedSize > 0);
      PieceInUse(ps, i);
    }
  }

  lemma PieceInUse(ps: seq<Partition>, i: nat)
    requires AllOk(ps) && i < |ps| && ps[i].largeContent
    ensures !ps[i].free && !ps[i].temporary
  {
    assert PartitionOk(ps[i]);
  }

  lemma ObjectAt(ps: seq<Partition>, heap: M.Heap, a: nat)
    requires Orderly(ps) && Represents(ps, heap) && a in heap
    ensures var i, o := a / PARTITION_SIZE, a % PARTITION_SIZE;
      && a == Address(i, o) && M.Part(a) == i && o in BlocksAt(ps, i) && Same(heap, a, BlocksAt(ps, i)[o])
      && i < |ps| && i + M.Span(heap[a]) <= |ps| && ViewOf(ps[i]).HasDynamicSpace()
      && (ps[i].largeContent <==> M.Span(heap[a]) > 1)
      && (ps[i].largeContent ==> Head(ps, i) && SpanOk(ps, i) && o == 0 && M.Span(heap[a]) == Span(ps[i].blocks[0].size))
  {
    hide Orderly, SpanOk, Head;
    PlaceOf(a);
    assert Located(ps, a);
    BlockAt(ps, a / PARTITION_SIZE, a % PARTITION_SIZE, heap[a]);
  }

  /** The objects are placed as the collector needs it: in partitions in use, large ones alone in theirs. */
  lemma BlocksPlaced(ps: seq<Partition>, heap: M.Heap)
    requires Orderly(ps) && Represents(ps, heap)
    ensures M.Placed(View(ps), heap)
  {
    hide Orderly, SpanOk, Represents, Span, M.Span;
    forall a | a in heap
      ensures M.Part(a) + M.Span(heap[a]) <= |ps| && ViewOf(ps[M.Part(a)]).HasDynamicSpace()
      ensures ps[M.Part(a)].largeContent <==> M.Span(heap[a]) > 1
      ensures M.Span(heap[a]) > 1 ==> a == M.Part(a) * PARTITION_SIZE
      ensures M.Span(heap[a]) > 1 ==>
        forall q :: M.Part(a) <= q < M.Part(a) + M.Span(heap[a]) ==> ps[q].largeContent && ViewOf(ps[q]).HasDynamicSpace()
    {
      ObjectAt(ps, heap, a);
      if M.Span(heap[a]) > 1 {
        OrderlyParts(ps);
        HeadFits(ps, M.Part(a));
      }
    }
    forall a, b | a in heap && b in heap && a != b && M.Part(a) <= M.Part(b)
      ensures M.Span(heap[a]) == 1 || M.Part(a) + M.Span(heap[a]) <= M.Part(b)
    {
      Alone(ps, heap, a, b);
    }
    forall q | 0 <= q < |ps| && ps[q].largeContent
      ensures q * PARTITION_SIZE in heap || M.Continues(heap, q)
    {
      Held(ps, heap, q);
    }
  }

  lemma OrderlyParts(ps: seq<Partition>)
    requires Orderly(ps)
    ensures AllOk(ps) && LargeOk(ps)
  {
  }

  lemma Alone(ps: seq<Partition>, heap: M.Heap, a: nat, b: nat)
    requires Orderly(ps) && Represents(ps, heap) && a in heap && b in heap && a != b && M.Part(a) <= M.Part(b)
    ensures M.Span(heap[a]) == 1 || M.Part(a) + M.Span(heap[a]) <= M.Part(b)
  {
    hide Orderly, SpanOk, Represents, Span;
    ObjectAt(ps, heap, a);
    ObjectAt(ps, heap, b);
    OrderlyParts(ps);
    if M.Span(heap[a]) > 1 && M.Part(a) < M.Part(b) {
      NotInside(ps, M.Part(a), M.Part(b));
    }
  }

  lemma Held(ps: seq<Partition>, heap: M.Heap, q: nat)
    requires Orderly(ps) && Represents(ps, heap) && q < |ps| && ps[q].largeContent
    ensures q * PARTITION_SIZE in heap || M.Continues(heap, q)
  {
    hide AllOk, SpanOk, Span;
    assert Owned(ps, q);
    var h: nat :| Covered(ps, h, q);
    var a := Address(h, 0);
    assert 0 in BlocksAt(ps, h) && Same(heap, a, BlocksAt(ps, h)[0]);
    Place(h, 0);
    ObjectAt(ps, heap, a);
    if h < q {
      assert M.Part(a) < q < M.Part(a) + M.Span(heap[a]);
    }
  }

  // ---------------------------------------------------------------- allocation

  /** A block that the partitioned heap allocates is what the collector is granted. `bound` is where a
    * partition table starts, or the end of the heap. */
  lemma AllocationGranted(ps: seq<Partition>, qs: seq<Partition>, heap: M.Heap, bound: nat, i: nat, o: nat, size: nat)
    requires Orderly(ps) && Orderly(qs) && Represents(ps, heap) && Allocated(ps, qs, i, o, size)
    requires bound <= |ps| && (bound < |ps| ==> ps[bound].staticSize > 0)
    ensures Represents(qs, heap[Address(i, o) := GcRelocation.Block(size, Address(i, o))])
    ensures GcRelocation.Granted(View(ps), heap, bound, size, View(qs), Address(i, o))
  {
    hide Orderly;
    var a := Address(i, o);
    var heap' := heap[a := GcRelocation.Block(size, a)];
    AllocationRepresented(ps, qs, heap, i, o, size);
    BlocksPlaced(qs, heap');
    UseExtended(ps, qs, i, o, size);
    ObjectAt(qs, heap', a);
    Place(i, o);
    if M.Part(a) < bound && M.Span(heap'[a]) > 1 {
      OrderlyParts(qs);
      HeadFits(qs, i);
    }
  }

  lemma AllocationRepresented(ps: seq<Partition>, qs: seq<Partition>, heap: M.Heap, i: nat, o: nat, size: nat)
    requires Orderly(ps) && Orderly(qs) && Represents(ps, heap) && Allocated(ps, qs, i, o, size)
    ensures var a := Address(i, o); a !in heap && Represents(qs, heap[a := GcRelocation.Block(size, a)])
    ensures o < PARTITION_SIZE
  {
    hide Orderly;
    var a := Address(i, o);
    var heap' := heap[a := GcRelocation.Block(size, a)];
    assert o in BlocksAt(qs, i);
    BlockAt(qs, i, o, heap'[a]);
    Place(i, o);
    assert a in heap ==> Located(ps, a);
    forall j: nat, q: nat | q in BlocksAt(qs, j)
      ensures Same(heap', Address(j, q), BlocksAt(qs, j)[q])
    {
      assert BlocksAt(qs, j) == (if j == i then BlocksAt(ps, j)[o := Block(size, false)] else BlocksAt(ps, j));
      if j != i || q != o {
        assert Same(heap, Address(j, q), BlocksAt(ps, j)[q]);
      }
    }
    forall b: nat | b in heap'
      ensures Located(qs, b)
    {
      if b != a {
        assert Located(ps, b);
        assert b / PARTITION_SIZE < |qs|;
      }
    }
  }

  lemma UseExtended(ps: seq<Partition>, qs: seq<Partition>, i: nat, o: nat, size: nat)
    requires Orderly(ps) && Allocated(ps, qs, i, o, size)
    ensures GcRelocation.Extends(View(ps), View(qs))
  {
    hide PartitionOk;
    forall q | 0 <= q < |qs|
      ensures q < |ps| ==> qs[q].evacuate == ps[q].evacuate && qs[q].update == ps[q].update
      ensures q < |ps| && !ps[q].free ==> ViewOf(qs[q]) == ViewOf(ps[q])
      ensures q >= |ps| ==> !qs[q].evacuate && !qs[q].update
    {
      assert EvacuateAt(qs, q) == EvacuateAt(ps, q);
      if q < |ps| {
        FreeNoUpdate(ps, q);
        assert !ps[q].free ==> SameUse(ps[q], qs[q]);
      }
    }
  }

  lemma FreeNoUpdate(ps: seq<Partition>, i: nat)
    requires AllOk(ps) && i < |ps|
    ensures ps[i].free ==> !ps[i].update
  {
    assert PartitionOk(ps[i]);
  }

  // ---------------------------------------------------------------- marking and copying

  /** Marking a block adds its address to the marked set. */
  lemma MarkRepresented(ps: seq<Partition>, qs: seq<Partition>, heap: M.Heap, marked: set<nat>, i: nat, o: nat)
    requires Orderly(ps) && Represents(ps, heap) && RepresentsMarks(ps, marked)
    requires MarkedOnly(ps, qs, i, o) && o in BlocksAt(ps, i)
    ensures Represents(qs, heap) && RepresentsMarks(qs, marked + {Address(i, o)})
  {
    hide Orderly;
    forall j: nat
      ensures BlocksAt(qs, j) == BlocksAt(ps, j)
    {
      assert j < |ps| ==> qs[j] == ps[j].(markedSize := qs[j].markedSize, marks := qs[j].marks);
    }
    SameBlocks(ps, qs, heap);
    forall j: nat, q: nat | q in BlocksAt(qs, j)
      ensures MarkedAt(qs, j, q) <==> Address(j, q) in marked + {Address(i, o)}
    {
      assert Same(heap, Address(j, q), BlocksAt(ps, j)[q]) && Same(heap, Address(i, o), BlocksAt(ps, i)[o]);
      BlockAt(ps, i, o, heap[Address(i, o)]);
      BlockAt(ps, j, q, heap[Address(j, q)]);
      Place(i, o);
      Place(j, q);
    }
  }

  /** An evacuated object has become a forwarded one and its copy. */
  lemma CopyRepresented(ps: seq<Partition>, qs: seq<Partition>, heap: M.Heap, i: nat, o: nat, j: nat, q: nat)
    requires Orderly(ps) && Orderly(qs) && Represents(ps, heap) && o in BlocksAt(ps, i) && !BlocksAt(ps, i)[o].forwarded
    requires q !in BlocksAt(ps, j) && NewBlock(ps, qs, j, q) && OthersKept(ps, qs, i, o)
    requires BlocksAt(qs, i)[o] == Block(BlocksAt(ps, i)[o].size, true)
    requires BlocksAt(qs, j)[q] == Block(BlocksAt(ps, i)[o].size, false)
    ensures Address(i, o) in heap && Address(j, q) !in heap
    ensures Represents(qs, M.WithCopy(heap, Address(i, o), Address(j, q)))
  {
    hide Orderly;
    var x, copy := Address(i, o), Address(j, q);
    assert Same(heap, x, BlocksAt(ps, i)[o]);
    assert q in BlocksAt(qs, j) && o in BlocksAt(qs, i);
    BlockAt(ps, i, o, heap[x]);
    BlockAt(qs, j, q, heap[x]);
    Place(i, o);
    Place(j, q);
    assert copy in heap ==> Located(ps, copy);
    var heap' := M.WithCopy(heap, x, copy);
    forall k: nat, y: nat | y in BlocksAt(qs, k)
      ensures Same(heap', Address(k, y), BlocksAt(qs, k)[y])
    {
      assert BlocksAt(qs, k).Keys == BlocksAt(ps, k).Keys + if k == j then {q} else {};
      assert y in BlocksAt(qs, k).Keys;
      if !(k == j && y == q) && !(k == i && y == o) {
        assert y in BlocksAt(ps, k);
        assert Same(heap, Address(k, y), BlocksAt(ps, k)[y]);
        BlockAt(ps, k, y, heap[Address(k, y)]);
        Place(k, y);
      }
    }
    forall b: nat | b in heap'
      ensures Located(qs, b)
    {
      if b != copy {
        assert Located(ps, b);
        assert b % PARTITION_SIZE in BlocksAt(ps, b / PARTITION_SIZE).Keys;
        assert b % PARTITION_SIZE in BlocksAt(qs, b / PARTITION_SIZE).Keys;
      }
    }
  }

  // ---------------------------------------------------------------- phases

  /** Starting a collection reserves bitmaps as the collector expects. */
  lemma StartRefines(ps: seq<Partition>, size: nat, qs: seq<Partition>, size': nat, heap: M.Heap)
    requires Orderly(ps) && Orderly(qs) && Started(ps, size, qs, size', |ps|) && Represents(ps, heap)
    ensures GcCycle.BitmapsReserved(View(ps), View(qs)) && Represents(qs, heap)
  {
    hide PartitionOk, LargeOk, SumsOf;
    forall i: nat
      ensures i < |qs| && i >= |ps| ==> !qs[i].largeContent && !qs[i].evacuate && !qs[i].update
      ensures i < |ps| ==> ViewOf(qs[i]) == ViewOf(ps[i]) || (ps[i].free && ViewOf(qs[i]) == ViewOf(ps[i]).(free := false, temporary := true))
      ensures BlocksAt(qs, i) == BlocksAt(ps, i)
    {
      if i < |ps| && !ps[i].free {
        assert qs[i].(bitmap := None) == ps[i];
        assert qs[i].blocks == ps[i].blocks && ViewOf(qs[i]) == ViewOf(ps[i]);
      } else if i < |qs| {
        assert Vacant(qs[i]);
        FreeIsVacant(qs, i);
        if i < |ps| {
          FreeIsVacant(ps, i);
        }
      }
    }
    SameBlocks(ps, qs, heap);
  }

  lemma FreeIsVacant(ps: seq<Partition>, i: nat)
    requires AllOk(ps) && i < |ps|
    ensures ps[i].free ==> Vacant(ps[i]) && !ps[i].temporary
  {
    assert PartitionOk(ps[i]);
  }

  function Chosen(ps: seq<Partition>): set<nat> {
    set i: nat | i < |ps| && ps[i].evacuate
  }

  /** The planned evacuations are a choice that the collector allows. */
  lemma PlanRefines(ps: seq<Partition>, qs: seq<Partition>, allocation: nat, space: nat, heap: M.Heap)
    requires Orderly(ps) && Planned(ps, qs, allocation, space) && Represents(ps, heap)
    ensures GcCycle.Candidates(View(ps), |ps|, Chosen(qs)) && View(qs) == GcCycle.Flagged(View(ps), Chosen(qs))
    ensures Represents(qs, heap)
  {
    hide PartitionOk, LargeOk;
    forall i: nat | i < |ps|
      ensures ViewOf(qs[i]) == ViewOf(ps[i]).(evacuate := i in Chosen(qs)) && qs[i].blocks == ps[i].blocks
      ensures i in Chosen(qs) ==> Normal(ps[i])
    {
      assert qs[i] == ps[i].(evacuate := qs[i].evacuate);
      CandidateNormal(ps, i, allocation);
    }
    SameBlocks(ps, qs, heap);
  }

  /** The planned updates are the collector's. */
  lemma UpdatesRefine(ps: seq<Partition>, qs: seq<Partition>, heap: M.Heap)
    requires |qs| == |ps| && Represents(ps, heap)
    requires forall i :: 0 <= i < |ps| ==> qs[i] == ps[i].(update := !ps[i].free && !ps[i].evacuate)
    ensures View(qs) == GcCycle.UpdatePlan(View(ps)) && Represents(qs, heap)
  {
    forall i: nat
      ensures BlocksAt(qs, i) == BlocksAt(ps, i)
    {
      assert i < |ps| ==> qs[i].blocks == ps[i].blocks;
    }
    SameBlocks(ps, qs, heap);
  }

  /** Freeing a large object removes it, and only it, from the collector's heap. */
  lemma FreeLargeRefines(ps: seq<Partition>, first: nat, heap: M.Heap)
    requires Orderly(ps) && Represents(ps, heap) && Head(ps, first)
    ensures var to := first + Span(ps[first].blocks[0].size);
      && View(Emptied(ps, first, to)) == GcCycle.FreedRange(View(ps), first, to)
      && Represents(Emptied(ps, first, to), GcCycle.Without(heap, Address(first, 0)))
  {
    hide Span, Orderly, SpanOk;
    var to := first + Span(ps[first].blocks[0].size);
    var qs := Emptied(ps, first, to);
    var heap' := GcCycle.Without(heap, Address(first, 0));
    EmptiedBlocks(ps, first);
    Place(first, 0);
    forall i: nat, o: nat | o in BlocksAt(qs, i)
      ensures Same(heap', Address(i, o), BlocksAt(qs, i)[o])
    {
      assert Same(heap, Address(i, o), BlocksAt(ps, i)[o]);
      BlockAt(ps, i, o, heap[Address(i, o)]);
      Place(i, o);
    }
    forall a: nat | a in heap'
      ensures Located(qs, a)
    {
      PlaceOf(a);
      assert Located(ps, a);
      assert a % PARTITION_SIZE in BlocksAt(ps, a / PARTITION_SIZE).Keys;
    }
  }

  lemma EmptiedBlocks(ps: seq<Partition>, first: nat)
    requires Orderly(ps) && Head(ps, first)
    ensures var to := first + Span(ps[first].blocks[0].size);
      && View(Emptied(ps, first, to)) == GcCycle.FreedRange(View(ps), first, to)
      && (forall i: nat :: BlocksAt(Emptied(ps, first, to), i) == if first <= i < to then map[] else BlocksAt(ps, i))
      && (forall i: nat :: first <= i < to ==> BlocksAt(ps, i).Keys == if i == first then {0} else {})
  {
    hide Span, AllOk;
    assert SpanOk(ps, first);
    HeadFits(ps, first);
    forall i | first <= i < first + Span(ps[first].blocks[0].size)
      ensures Piece(ps[i], first, i, ps[first].blocks[0].size, ps[first].markedSize > 0)
    {
    }
  }

  /** Completing a collection releases the partitions and keeps the objects that the collector expects. */
  lemma CompletionRefines(ps: seq<Partition>, heap: M.Heap)
    requires Orderly(ps) && Represents(ps, heap)
    ensures var qs := CompletedUpTo(ps, |ps|);
      View(qs) == GcCycle.Released(View(ps)) && Represents(qs, GcCycle.Retained(View(ps), heap))
  {
    hide Orderly;
    var qs := CompletedUpTo(ps, |ps|);
    var heap' := GcCycle.Retained(View(ps), heap);
    forall i: nat | i < |ps|
      ensures ViewOf(qs[i]) == GcCycle.Released(View(ps))[i]
      ensures BlocksAt(qs, i) == if ps[i].evacuate then map[] else BlocksAt(ps, i)
    {
      OrderlyParts(ps);
      TemporaryEmpty(ps, i);
    }
    forall i: nat, o: nat | o in BlocksAt(qs, i)
      ensures Same(heap', Address(i, o), BlocksAt(qs, i)[o])
    {
      assert Same(heap, Address(i, o), BlocksAt(ps, i)[o]);
      ObjectAt(ps, heap, Address(i, o));
      BlockAt(ps, i, o, heap[Address(i, o)]);
      Place(i, o);
    }
    forall a: nat | a in heap'
      ensures Located(qs, a)
    {
      ObjectAt(ps, heap, a);
    }
  }

  lemma TemporaryEmpty(ps: seq<Partition>, i: nat)
    requires AllOk(ps) && i < |ps|
    ensures ps[i].temporary ==> ps[i].blocks == map[] && !ps[i].evacuate
    ensures ps[i].evacuate || ps[i].temporary ==> !ps[i].largeContent
  {
    assert PartitionOk(ps[i]);
  }
}
