/** Runs of the partitioned heap together with the collector's heap: what both do, step by step, stays in
  * agreement, and what the one relies on is what the other provides. */
module GcJoint {
  import M = GcModel
  import R = GcRelocation
  import C = GcCycle
  import opened GcPartitions
  import opened GcLarge
  import opened GcCollection
  import opened GcHeap
  import opened GcRefinement

  // The part of the collector's state that the partitioned heap implements.
  datatype Objects = Objects(parts: seq<M.Partition>, heap: M.Heap, marked: set<nat>)

  ghost predicate Joint(ps: seq<Partition>, c: Objects) {
    && Orderly(ps) && c.parts == View(ps) && Represents(ps, c.heap)
    && RepresentsMarks(ps, c.marked) && c.marked <= c.heap.Keys
  }

  datatype Operation =
    | Start(size: nat, size': nat)
    | Allocate(i: nat, o: nat, size: nat, bound: nat)
    | Mark(i: nat, o: nat)
    | Copy(i: nat, o: nat, j: nat, q: nat)
    | Plan(allocation: nat, space: nat)
    | FreeLarge(first: nat)
    | PlanUpdates
    | Complete
    | Write

  /** What the operation does to the partitions, as the methods of the partitioned heap promise it. */
  ghost predicate HeapStep(op: Operation, ps: seq<Partition>, qs: seq<Partition>) {
    match op
    case Start(size, size') => Started(ps, size, qs, size', |ps|)
    case Allocate(i, o, size, bound) =>
      Allocated(ps, qs, i, o, size) && bound <= |ps| && (bound < |ps| ==> ps[bound].staticSize > 0)
    case Mark(i, o) => o in BlocksAt(ps, i) && MarkedOnly(ps, qs, i, o)
    case Copy(i, o, j, q) =>
      && o in BlocksAt(ps, i) && !BlocksAt(ps, i)[o].forwarded && q !in BlocksAt(ps, j)
      && NewBlock(ps, qs, j, q) && OthersKept(ps, qs, i, o) && MarkedAt(ps, i, o) && MarkedAt(qs, i, o) && MarkedAt(qs, j, q)
      && BlocksAt(qs, i)[o] == Block(BlocksAt(ps, i)[o].size, true)
      && BlocksAt(qs, j)[q] == Block(BlocksAt(ps, i)[o].size, false)
    case Plan(allocation, space) => Planned(ps, qs, allocation, space)
    case FreeLarge(first) =>
      Head(ps, first) && ps[first].markedSize == 0 && qs == Emptied(ps, first, first + Span(ps[first].blocks[0].size))
    case PlanUpdates =>
      |qs| == |ps| && forall i :: 0 <= i < |ps| ==> qs[i] == ps[i].(update := !ps[i].free && !ps[i].evacuate)
    case Complete => qs == CompletedUpTo(ps, |ps|)
    case Write => qs == ps
  }

  /** What the operation does to heap and marks, as the collector does it. */
  ghost predicate Effect(op: Operation, c: Objects, heap': M.Heap, marked': set<nat>) {
    match op
    case Start(_, _) => heap' == c.heap && marked' == c.marked
    case Allocate(i, o, size, _) =>
      var a := Address(i, o);
      a in heap' && heap' == c.heap[a := heap'[a]] && heap'[a].size == size && heap'[a].forward == a && marked' == c.marked
    case Mark(i, o) => heap' == c.heap && marked' == c.marked + {Address(i, o)}
    case Copy(i, o, j, q) =>
      Address(i, o) in c.heap && heap' == M.WithCopy(c.heap, Address(i, o), Address(j, q)) && marked' == c.marked + {Address(j, q)}
    case Plan(_, _) => heap' == c.heap && marked' == c.marked
    case FreeLarge(first) => heap' == C.Without(c.heap, Address(first, 0)) && marked' == c.marked
    case PlanUpdates => heap' == c.heap && marked' == c.marked
    case Complete => heap' == C.Retained(c.parts, c.heap) && marked' == {}
    case Write => SameObjects(c.heap, heap') && marked' == c.marked
  }

  /** Only fields and slices differ. */
  ghost predicate SameObjects(heap: M.Heap, heap': M.Heap) {
    heap'.Keys == heap.Keys && forall a :: a in heap ==> heap'[a].size == heap[a].size && heap'[a].forward == heap[a].forward
  }

  /** What the collector relies on. */
  ghost predicate Promised(op: Operation, c: Objects, c': Objects) {
    match op
    case Start(_, _) => C.BitmapsReserved(c.parts, c'.parts)
    case Allocate(i, o, size, bound) => R.Granted(c.parts, c.heap, bound, size, c'.parts, Address(i, o))
    case Mark(i, o) => c'.parts == c.parts && Address(i, o) in c.heap
    case Copy(i, o, j, q) => Address(j, q) !in c.heap
    case Plan(_, _) => exists chosen :: C.Candidates(c.parts, |c.parts|, chosen) && c'.parts == C.Flagged(c.parts, chosen)
    case FreeLarge(first) =>
      var a := Address(first, 0);
      a in c.heap && a !in c.marked && M.Part(a) == first && c'.parts == C.FreedRange(c.parts, first, first + M.Span(c.heap[a]))
    case PlanUpdates => c'.parts == C.UpdatePlan(c.parts)
    case Complete => c'.parts == C.Released(c.parts)
    case Write => c'.parts == c.parts
  }

  /** One operation on both sides: they still agree, and the collector gets what it relies on. */
  lemma StepRefines(op: Operation, ps: seq<Partition>, qs: seq<Partition>, c: Objects, heap': M.Heap, marked': set<nat>)
    requires Joint(ps, c) && HeapStep(op, ps, qs) && Orderly(qs) && Effect(op, c, heap', marked')
    ensures var c' := Objects(View(qs), heap', marked'); Joint(qs, c') && Promised(op, c, c')
  {
    hide Orderly, Represents, RepresentsMarks, Started, Allocated, Planned, MarkedOnly, NewBlock, OthersKept, Span, M.Span;
    match op
    case Start(size, size') =>
      StartRefines(ps, size, qs, size', c.heap);
      StartedMarks(ps, size, qs, size', c.marked);
    case Allocate(i, o, size, bound) =>
      AllocationGranted(ps, qs, c.heap, bound, i, o, size);
      AllocatedMarks(ps, qs, c, i, o, size);
      Similar(qs, c.heap[Address(i, o) := R.Block(size, Address(i, o))], heap');
    case Mark(i, o) =>
      MarkRepresented(ps, qs, c.heap, c.marked, i, o);
      MarkedView(ps, qs, c.heap, i, o);
    case Copy(i, o, j, q) =>
      CopyRepresented(ps, qs, c.heap, i, o, j, q);
      CopiedMarks(ps, qs, c, i, o, j, q);
    case Plan(allocation, space) =>
      PlanRefines(ps, qs, allocation, space, c.heap);
      PlannedMarks(ps, qs, allocation, space, c.marked);
    case FreeLarge(first) =>
      FreeLargeRefines(ps, first, c.heap);
      FreedMarks(ps, c, first);
    case PlanUpdates =>
      UpdatesRefine(ps, qs, c.heap);
      UpdatedMarks(ps, qs, c.marked);
    case Complete =>
      CompletionRefines(ps, c.heap);
      CompletedMarks(ps);
    case Write =>
      Similar(ps, c.heap, heap');
  }

  // ---------------------------------------------------------------- marks and objects of one step

  lemma Similar(ps: seq<Partition>, heap: M.Heap, heap': M.Heap)
    requires Represents(ps, heap) && SameObjects(heap, heap')
    ensures Represents(ps, heap')
  {
    forall i: nat, o: nat | o in BlocksAt(ps, i)
      ensures Same(heap', Address(i, o), BlocksAt(ps, i)[o])
    {
      assert Same(heap, Address(i, o), BlocksAt(ps, i)[o]);
    }
    forall a: nat | a in heap'
      ensures Located(ps, a)
    {
      assert a in heap.Keys;
    }
  }

  /** Blocks and marks are the same. */
  lemma SameMarked(ps: seq<Partition>, qs: seq<Partition>, marked: set<nat>)
    requires RepresentsMarks(ps, marked)
    requires forall i: nat :: BlocksAt(qs, i) == BlocksAt(ps, i)
    requires forall i: nat, o: nat :: o in BlocksAt(ps, i) ==> MarkedAt(qs, i, o) == MarkedAt(ps, i, o)
    ensures RepresentsMarks(qs, marked)
  {
  }

  lemma StartedMarks(ps: seq<Partition>, size: nat, qs: seq<Partition>, size': nat, marked: set<nat>)
    requires Orderly(ps) && Started(ps, size, qs, size', |ps|) && RepresentsMarks(ps, marked)
    ensures RepresentsMarks(qs, marked)
  {
    hide PartitionOk, LargeOk, SumsOf;
    forall i: nat
      ensures BlocksAt(qs, i) == BlocksAt(ps, i)
      ensures forall o: nat :: o in BlocksAt(ps, i) ==> MarkedAt(qs, i, o) == MarkedAt(ps, i, o)
    {
      if i < |ps| && !ps[i].free {
        assert qs[i].(bitmap := None) == ps[i];
        assert qs[i].blocks == ps[i].blocks && qs[i].marks == ps[i].marks && qs[i].markedSize == ps[i].markedSize;
        assert qs[i].largeContent == ps[i].largeContent;
      } else if i < |qs| {
        assert Vacant(qs[i]);
        if i < |ps| {
          FreeIsVacant(ps, i);
        }
      }
    }
    SameMarked(ps, qs, marked);
  }

  lemma PlannedMarks(ps: seq<Partition>, qs: seq<Partition>, allocation: nat, space: nat, marked: set<nat>)
    requires Planned(ps, qs, allocation, space) && RepresentsMarks(ps, marked)
    ensures RepresentsMarks(qs, marked)
  {
    forall i: nat
      ensures i < |ps| ==> qs[i] == ps[i].(evacuate := qs[i].evacuate)
      ensures BlocksAt(qs, i) == BlocksAt(ps, i)
      ensures forall o: nat :: MarkedAt(qs, i, o) == MarkedAt(ps, i, o)
    {
      if i < |ps| {
        assert qs[i] == ps[i].(evacuate := qs[i].evacuate);
        assert qs[i].largeContent == ps[i].largeContent && qs[i].markedSize == ps[i].markedSize && qs[i].marks == ps[i].marks;
      }
    }
    SameMarked(ps, qs, marked);
  }

  lemma UpdatedMarks(ps: seq<Partition>, qs: seq<Partition>, marked: set<nat>)
    requires HeapStep(PlanUpdates, ps, qs) && RepresentsMarks(ps, marked)
    ensures RepresentsMarks(qs, marked)
  {
    forall i: nat
      ensures BlocksAt(qs, i) == BlocksAt(ps, i)
      ensures forall o: nat :: MarkedAt(qs, i, o) == MarkedAt(ps, i, o)
    {
      if i < |ps| {
        assert qs[i].largeContent == ps[i].largeContent && qs[i].markedSize == ps[i].markedSize && qs[i].marks == ps[i].marks;
      }
    }
    SameMarked(ps, qs, marked);
  }

  lemma AllocatedMarks(ps: seq<Partition>, qs: seq<Partition>, c: Objects, i: nat, o: nat, size: nat)
    requires Joint(ps, c) && Orderly(qs) && Allocated(ps, qs, i, o, size)
    ensures RepresentsMarks(qs, c.marked)
  {
    hide Orderly;
    AllocationRepresented(ps, qs, c.heap, i, o, size);
    forall j: nat, q: nat | q in BlocksAt(qs, j)
      ensures MarkedAt(qs, j, q) <==> Address(j, q) in c.marked
    {
      assert BlocksAt(qs, j) == (if j == i then BlocksAt(ps, j)[o := Block(size, false)] else BlocksAt(ps, j));
      assert MarksAt(qs, j) == MarksAt(ps, j);
      if j == i && q == o {
        assert Address(j, q) !in c.heap;
      } else {
        assert q in BlocksAt(ps, j);
        OrderlyParts(ps);
        BlockInUse(ps, j, q);
      }
    }
  }

  lemma BlockInUse(ps: seq<Partition>, i: nat, o: nat)
    requires AllOk(ps) && o in BlocksAt(ps, i)
    ensures i < |ps| && !ps[i].free
  {
    assert PartitionOk(ps[i]);
  }

  lemma MarkedView(ps: seq<Partition>, qs: seq<Partition>, heap: M.Heap, i: nat, o: nat)
    requires Represents(ps, heap) && MarkedOnly(ps, qs, i, o) && o in BlocksAt(ps, i)
    ensures View(qs) == View(ps) && Address(i, o) in heap
  {
    assert Same(heap, Address(i, o), BlocksAt(ps, i)[o]);
    forall j | 0 <= j < |ps|
      ensures ViewOf(qs[j]) == ViewOf(ps[j])
    {
      assert qs[j] == ps[j].(markedSize := qs[j].markedSize, marks := qs[j].marks);
    }
  }

  lemma CopiedMarks(ps: seq<Partition>, qs: seq<Partition>, c: Objects, i: nat, o: nat, j: nat, q: nat)
    requires Joint(ps, c) && Orderly(qs) && HeapStep(Copy(i, o, j, q), ps, qs)
    ensures RepresentsMarks(qs, c.marked + {Address(j, q)})
  {
    hide Orderly;
    var marked' := c.marked + {Address(j, q)};
    forall k: nat, x: nat | x in BlocksAt(qs, k)
      ensures MarkedAt(qs, k, x) <==> Address(k, x) in marked'
    {
      assert BlocksAt(qs, k).Keys == BlocksAt(ps, k).Keys + if k == j then {q} else {};
      assert x in BlocksAt(qs, k).Keys;
      if k != j || x != q {
        assert x in BlocksAt(ps, k);
        BlockOffset(qs, k, x);
        BlockOffset(qs, j, q);
        Place(k, x);
        Place(j, q);
      }
    }
  }

  lemma BlockOffset(ps: seq<Partition>, i: nat, o: nat)
    requires Orderly(ps) && o in BlocksAt(ps, i)
    ensures o < PARTITION_SIZE
  {
    BlockAt(ps, i, o, R.Block(BlocksAt(ps, i)[o].size, 0));
  }

  lemma FreedMarks(ps: seq<Partition>, c: Objects, first: nat)
    requires Joint(ps, c) && Head(ps, first) && ps[first].markedSize == 0
    ensures var to := first + Span(ps[first].blocks[0].size); RepresentsMarks(Emptied(ps, first, to), c.marked)
    ensures var a := Address(first, 0); a in c.heap && a !in c.marked && M.Part(a) == first
    ensures M.Span(c.heap[Address(first, 0)]) == Span(ps[first].blocks[0].size)
  {
    hide Orderly, Span, M.Span;
    var to := first + Span(ps[first].blocks[0].size);
    var qs := Emptied(ps, first, to);
    EmptiedBlocks(ps, first);
    assert 0 in BlocksAt(ps, first);
    assert Same(c.heap, Address(first, 0), BlocksAt(ps, first)[0]);
    Place(first, 0);
    BlockAt(ps, first, 0, c.heap[Address(first, 0)]);
    forall i: nat, o: nat | o in BlocksAt(qs, i)
      ensures MarkedAt(qs, i, o) <==> Address(i, o) in c.marked
    {
      assert o in BlocksAt(ps, i);
    }
  }

  lemma CompletedMarks(ps: seq<Partition>)
    ensures RepresentsMarks(CompletedUpTo(ps, |ps|), {})
  {
  }

  // ---------------------------------------------------------------- runs

  /** A run of operations on both sides, from states that agree. */
  ghost predicate JointRun(ops: seq<Operation>, partitions: seq<seq<Partition>>, objects: seq<Objects>) {
    && |partitions| == |objects| == |ops| + 1
    && Joint(partitions[0], objects[0])
    && (forall k :: 0 <= k < |partitions| ==> Orderly(partitions[k]) && objects[k].parts == View(partitions[k]))
    && (forall k :: 0 <= k < |ops| ==>
          && HeapStep(ops[k], partitions[k], partitions[k + 1])
          && Effect(ops[k], objects[k], objects[k + 1].heap, objects[k + 1].marked))
  }

  /** Throughout a run, the partitioned heap is the collector's heap, and every operation is what the
    * collector relies on. */
  lemma {:induction false} RunRefines(ops: seq<Operation>, partitions: seq<seq<Partition>>, objects: seq<Objects>, n: nat)
    requires JointRun(ops, partitions, objects) && n <= |ops|
    ensures Joint(partitions[n], objects[n])
    ensures forall k :: 0 <= k < n ==> Promised(ops[k], objects[k], objects[k + 1])
    decreases n
  {
    hide HeapStep, Effect, Promised, Joint, Orderly;
    if n > 0 {
      RunRefines(ops, partitions, objects, n - 1);
      StepRefines(ops[n - 1], partitions[n - 1], partitions[n], objects[n - 1], objects[n].heap, objects[n].marked);
      assert objects[n] == Objects(View(partitions[n]), objects[n].heap, objects[n].marked);
    }
  }

  /** When the collector has finished the evacuation, every marked block of an evacuated partition has been
    * copied: the accounting at the end of the collection is right. */
  lemma EvacuatedAllCopied(ps: seq<Partition>, c: Objects, live: set<nat>, evacuating: bool, it: M.Iterator)
    requires Joint(ps, c) && R.Evacuating(c.parts, c.heap, live, c.marked, evacuating, it) && it.index == it.number
    ensures forall i :: 0 <= i < |ps| ==> AllCopied(ps[i])
  {
    hide Orderly, R.Evacuating;
    BlocksPlaced(ps, c.heap);
    R.EvacuationComplete(c.parts, c.heap, live, c.marked, evacuating, it);
    ForwardedAllCopied(ps, c);
  }

  /** And it stays so while pointers are updated, up to the completion of the collection. */
  lemma UpdatedAllCopied(ps: seq<Partition>, c: Objects, live: set<nat>, roots: seq<M.Value>, evacuating: bool, it: M.Iterator)
    requires Joint(ps, c) && R.Updating(c.parts, c.heap, live, roots, c.marked, evacuating, it)
    ensures forall i :: 0 <= i < |ps| ==> AllCopied(ps[i])
  {
    hide Orderly;
    ForwardedAllCopied(ps, c);
  }

  lemma ForwardedAllCopied(ps: seq<Partition>, c: Objects)
    requires Joint(ps, c)
    requires forall a :: a in c.marked && R.Evacuated(c.parts, a) ==> a in c.heap && c.heap[a].forward != a
    ensures forall i :: 0 <= i < |ps| ==> AllCopied(ps[i])
  {
    hide Orderly;
    forall i: nat, o: nat | i < |ps| && ps[i].evacuate && o in ps[i].marks
      ensures o in ps[i].blocks && ps[i].blocks[o].forwarded
    {
      OrderlyParts(ps);
      EvacuatedMark(ps, i, o);
      assert o in BlocksAt(ps, i) && MarkedAt(ps, i, o);
      BlockOffset(ps, i, o);
      Place(i, o);
      assert R.Evacuated(c.parts, Address(i, o));
      assert Same(c.heap, Address(i, o), BlocksAt(ps, i)[o]);
    }
  }

  lemma EvacuatedMark(ps: seq<Partition>, i: nat, o: nat)
    requires AllOk(ps) && i < |ps| && ps[i].evacuate && o in ps[i].marks
    ensures o in ps[i].blocks && !ps[i].largeContent
  {
    assert PartitionOk(ps[i]);
  }
}
