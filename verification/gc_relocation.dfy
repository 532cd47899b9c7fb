/** Evacuation and pointer updates: what holds between the end of marking and the release of the
  * evacuated partitions.
  */
module GcRelocation {
  import opened GcModel

  predicate Evacuated(parts: seq<Partition>, a: Addr) {
    Part(a) < |parts| && parts[Part(a)].evacuate
  }

  /** The value does not point into an evacuated partition. */
  ghost predicate Clean(parts: seq<Partition>, v: Value) {
    v.Ptr? ==> !Evacuated(parts, v.addr)
  }

  ghost predicate AllClean(parts: seq<Partition>, values: seq<Value>) {
    forall i :: 0 <= i < |values| ==> Clean(parts, values[i])
  }

  /** The iterator stands at the end or at the start of an object-holding range of partitions. */
  ghost predicate Positioned(parts: seq<Partition>, heap: Heap, it: Iterator) {
    && it.index <= it.number <= |parts|
    && !Continues(heap, it.index)
    && (it.index < it.number ==> parts[it.index].HasDynamicSpace())
  }

  /** Like `Positioned`, but the large object at the iterator may have been freed in the meantime. */
  ghost predicate Parked(parts: seq<Partition>, heap: Heap, it: Iterator) {
    && it.index <= it.number <= |parts|
    && !Continues(heap, it.index)
    && (it.index < it.number ==>
          parts[it.index].HasDynamicSpace() || (parts[it.index].free && !parts[it.index].large && !parts[it.index].update))
  }

  /** Forwarding leads, injectively and in one step, from marked objects in evacuated partitions to
    * marked copies elsewhere. */
  ghost predicate Relocated(parts: seq<Partition>, heap: Heap, marked: set<Addr>) {
    && marked <= heap.Keys
    && (forall a :: a in heap ==> Canonical(heap, heap[a].forward))
    && (forall a :: a in heap && heap[a].forward != a ==>
          a in marked && Evacuated(parts, a) && heap[a].forward in marked && !Evacuated(parts, heap[a].forward))
    && (forall a, b :: a in heap && b in heap && heap[a].forward != a && heap[b].forward != b ==>
          heap[a].forward == heap[b].forward ==> a == b)
  }

  ghost predicate EvacuatesSmall(parts: seq<Partition>, evacuating: bool) {
    && (forall p :: 0 <= p < |parts| && parts[p].evacuate ==> !parts[p].large && !parts[p].temporary && !parts[p].free)
    && (!evacuating ==> forall p :: 0 <= p < |parts| ==> !parts[p].evacuate)
  }

  ghost predicate NoSlices(heap: Heap) {
    forall a :: a in heap ==> heap[a].slice == 0
  }

  ghost predicate PendingHere(marked: set<Addr>, it: Iterator) {
    forall a :: a in it.pending ==> a in marked && Part(a) == it.index
  }

  /** The objects that an iterator has to visit in the partition it has just reached. */
  function PendingAt(marked: set<Addr>, index: nat, number: nat): set<Addr> {
    if index == number then {} else set a | a in marked && Part(a) == index
  }

  /** No object straddles the partition `number`. */
  ghost predicate Bounded(heap: Heap, number: nat) {
    forall a :: a in heap && Part(a) < number ==> Part(a) + Span(heap[a]) <= number
  }

  /** The iterator has passed object `a`. */
  ghost predicate Passed(it: Iterator, a: Addr) {
    Part(a) < it.index || (Part(a) == it.index && a !in it.pending)
  }

  /** Exactly the marked objects of evacuated partitions that the iterator has passed are copied. */
  ghost predicate CopiedBehind(parts: seq<Partition>, heap: Heap, marked: set<Addr>, it: Iterator)
    requires marked <= heap.Keys
  {
    && (forall p :: 0 <= p < |parts| && parts[p].evacuate ==> p < it.number)
    && (forall a :: a in marked && Evacuated(parts, a) ==> (heap[a].forward != a <==> Passed(it, a)))
  }

  ghost predicate Evacuating(parts: seq<Partition>, heap: Heap, live: set<Addr>, marked: set<Addr>,
                             evacuating: bool, it: Iterator) {
    && live == marked && marked <= heap.Keys
    && Relocated(parts, heap, marked)
    && EvacuatesSmall(parts, evacuating)
    && NoSlices(heap)
    && Positioned(parts, heap, it)
    && PendingHere(marked, it)
    && CopiedBehind(parts, heap, marked, it)
  }

  /** A marked object that the update pass has still to visit. */
  ghost predicate Awaiting(marked: set<Addr>, it: Iterator, a: Addr) {
    a in marked && (it.index < Part(a) || a in it.pending)
  }

  /** The update pass reaches every marked object outside the evacuated partitions. */
  ghost predicate Scheduled(parts: seq<Partition>, marked: set<Addr>, it: Iterator) {
    && (forall a :: a in marked ==> Part(a) < it.number && Part(a) < |parts|)
    && (forall a :: a in marked && !Evacuated(parts, a) ==> parts[Part(a)].update)
    && (forall p :: 0 <= p < |parts| && parts[p].update ==> !parts[p].evacuate)
  }

  ghost predicate SlicedAwaiting(parts: seq<Partition>, heap: Heap, it: Iterator) {
    forall a :: a in heap && heap[a].slice > 0 ==>
      heap[a].kind == Array && heap[a].slice <= |heap[a].fields| && a in it.pending && !Evacuated(parts, a)
  }

  /** Stale pointers remain only in those fields of live objects that the update pass has still to
    * visit, and nowhere else. */
  ghost predicate StaleAwaiting(parts: seq<Partition>, heap: Heap, live: set<Addr>, marked: set<Addr>, it: Iterator)
    requires live <= heap.Keys
  {
    && (forall a :: a in live && Evacuated(parts, a) ==> heap[a].forward != a)
    && (forall a, i :: a in live && !Evacuated(parts, a) && 0 <= i < |heap[a].fields| ==>
          Clean(parts, heap[a].fields[i]) || (Awaiting(marked, it, a) && heap[a].slice <= i))
  }

  ghost predicate Updating(parts: seq<Partition>, heap: Heap, live: set<Addr>, roots: seq<Value>, marked: set<Addr>,
                           evacuating: bool, it: Iterator) {
    && live <= heap.Keys && marked <= live
    && (!evacuating ==> NoSlices(heap))
    && Relocated(parts, heap, marked)
    && EvacuatesSmall(parts, evacuating)
    && Parked(parts, heap, it)
    && PendingHere(marked, it)
    && Scheduled(parts, marked, it)
    && SlicedAwaiting(parts, heap, it)
    && AllClean(parts, roots)
    && StaleAwaiting(parts, heap, live, marked, it)
  }

  // ---------------------------------------------------------------- the allocator's promise

  function Block(size: nat, a: Addr): Obj {
    Obj(Plain, size, [], a, 0)
  }

  /** Partitions in use keep their state; new ones take no part in the running collection. */
  predicate Extends(parts: seq<Partition>, parts': seq<Partition>) {
    && |parts| <= |parts'|
    && (forall q :: 0 <= q < |parts| ==> parts'[q].evacuate == parts[q].evacuate && parts'[q].update == parts[q].update)
    && (forall q :: 0 <= q < |parts| && !parts[q].free ==> parts'[q] == parts[q])
    && (forall q :: |parts| <= q < |parts'| ==> !parts'[q].evacuate && !parts'[q].update)
  }

  /** A grant of `size` bytes at `a`: new space in a partition that is not being evacuated. It may
    * put free partitions into use and append partitions, but leaves those in use alone. A large
    * grant does not straddle the partition `bound` (a partition table starts there). */
  predicate Granted(parts: seq<Partition>, heap: Heap, bound: nat, size: nat, parts': seq<Partition>, a: Addr) {
    && Extends(parts, parts')
    && a !in heap
    && Placed(parts', heap[a := Block(size, a)])
    && !Evacuated(parts', a)
    && (Part(a) < bound ==> Part(a) + Span(Block(size, a)) <= bound)
  }

  lemma PartOfStart(q: nat)
    ensures Part(q * PARTITION_SIZE) == q
  {
  }

  /** The heap can always grow by partitions at its end. */
  lemma GrantExists(parts: seq<Partition>, heap: Heap, bound: nat, size: nat) returns (parts': seq<Partition>, a: Addr)
    requires Placed(parts, heap) && bound <= |parts|
    ensures Granted(parts, heap, bound, size, parts', a)
  {
    a := |parts| * PARTITION_SIZE;
    PartOfStart(|parts|);
    var o := Block(size, a);
    var n := Span(o);
    parts' := parts + seq(n, _ => Partition(false, n > 1, false, false, false, false));
    PlacedAppend(parts, heap, parts', a, o);
  }

  lemma PlacedAppend(parts: seq<Partition>, heap: Heap, parts': seq<Partition>, a: Addr, o: Obj)
    requires Placed(parts, heap) && a == |parts| * PARTITION_SIZE && Part(a) == |parts| && Span(o) >= 1
    requires parts' == parts + seq(Span(o), _ => Partition(false, Span(o) > 1, false, false, false, false))
    ensures a !in heap && Placed(parts', heap[a := o])
  {
    hide Part, Span, Continues;
    var heap' := heap[a := o];
    forall b | b in heap
      ensures b != a && Part(b) + Span(heap[b]) <= |parts|
    {
      assert InUse(parts, heap);
    }
    assert InUse(parts', heap') by {
      hide LargeAligned, LargeAlone, LargeHeld;
    }
    assert LargeAligned(parts', heap') by {
      hide InUse, LargeAlone, LargeHeld;
    }
    assert LargeAlone(heap') by {
      hide InUse, LargeAligned, LargeHeld;
    }
    LargeHeldAppend(parts, heap, parts', a, o);
  }

  lemma LargeHeldAppend(parts: seq<Partition>, heap: Heap, parts': seq<Partition>, a: Addr, o: Obj)
    requires LargeHeld(parts, heap) && a == |parts| * PARTITION_SIZE && Part(a) == |parts| && a !in heap
    requires |parts'| == |parts| + Span(o) && parts <= parts'
    ensures LargeHeld(parts', heap[a := o])
  {
    hide Part, Span;
    var heap' := heap[a := o];
    forall q | 0 <= q < |parts'| && parts'[q].large && q * PARTITION_SIZE !in heap'
      ensures Continues(heap', q)
    {
      if q < |parts| {
        assert parts[q].large;
        var b :| b in heap && Part(b) < q < Part(b) + Span(heap[b]);
        assert b in heap' && Part(b) < q < Part(b) + Span(heap'[b]);
      } else {
        assert q != |parts|;
        assert a in heap' && Part(a) < q < Part(a) + Span(heap'[a]);
      }
    }
  }

  lemma GrantPlaced(parts: seq<Partition>, heap: Heap, bound: nat, size: nat, parts': seq<Partition>, a: Addr, o: Obj)
    requires Granted(parts, heap, bound, size, parts', a) && o.size == size
    ensures Placed(parts', heap[a := o])
  {
    hide Placed;
    PlacedSameShape(parts', heap[a := Block(size, a)], heap[a := o]);
  }

  /** A grant does not move under the feet of a running iterator. */
  lemma GrantPositioned(parts: seq<Partition>, heap: Heap, size: nat, parts': seq<Partition>, a: Addr, o: Obj, it: Iterator)
    requires Granted(parts, heap, it.number, size, parts', a) && o.size == size
    requires Placed(parts, heap) && Positioned(parts, heap, it)
    ensures Positioned(parts', heap[a := o], it)
  {
    GrantPlaced(parts, heap, it.number, size, parts', a, o);
    var heap' := heap[a := o];
    assert Span(o) == Span(Block(size, a));
    hide Part, Span;
    forall b | b in heap'
      ensures !(Part(b) < it.index < Part(b) + Span(heap'[b]))
    {
      if b != a {
        assert heap'[b] == heap[b];
        assert !Continues(heap, it.index);
      } else if Part(a) < it.index < Part(a) + Span(o) {
        assert it.index < it.number;
        assert parts'[it.index] == parts[it.index];
        assert parts[it.index].large;
        assert it.index * PARTITION_SIZE in heap;
        PartOfStart(it.index);
        assert false;
      }
    }
  }

  lemma GrantBounded(parts: seq<Partition>, heap: Heap, bound: nat, size: nat, parts': seq<Partition>, a: Addr, o: Obj)
    requires Granted(parts, heap, bound, size, parts', a) && o.size == size && Bounded(heap, bound)
    ensures Bounded(heap[a := o], bound)
  {
    hide Part, Placed;
    assert Span(o) == Span(Block(size, a));
  }

  lemma BoundedSameShape(heap: Heap, heap': Heap, bound: nat)
    requires SameShape(heap, heap') && Bounded(heap, bound)
    ensures Bounded(heap', bound)
  {
    hide Part;
    forall a | a in heap
      ensures Span(heap'[a]) == Span(heap[a])
    {
    }
  }

  /** The flags of partitions that hold objects, and those of new ones, are as before the grant. */
  lemma GrantFlags(parts: seq<Partition>, heap: Heap, bound: nat, size: nat, parts': seq<Partition>, a: Addr)
    requires Granted(parts, heap, bound, size, parts', a) && Placed(parts, heap)
    ensures Extends(parts, parts') && a !in heap && !Evacuated(parts', a)
    ensures Part(a) < |parts'|
    ensures forall b :: b in heap ==> Part(b) < |parts| && parts'[Part(b)] == parts[Part(b)]
    ensures forall b :: b in heap ==> Evacuated(parts', b) == Evacuated(parts, b)
  {
    assert a in heap[a := Block(size, a)];
    hide Part, Span, LargeAligned, LargeAlone, LargeHeld;
    assert forall b :: b in heap ==> !parts[Part(b)].free;
  }

  lemma ExtendsEvacuatesSmall(parts: seq<Partition>, parts': seq<Partition>, evacuating: bool)
    requires Extends(parts, parts') && EvacuatesSmall(parts, evacuating)
    ensures EvacuatesSmall(parts', evacuating)
  {
    forall p | 0 <= p < |parts'| && parts'[p].evacuate
      ensures p < |parts| && parts[p].evacuate && parts'[p] == parts[p]
    {
    }
  }

  // ---------------------------------------------------------------- forwarding

  /** A new object that nothing refers to yet. */
  lemma RelocatedAllocate(parts: seq<Partition>, heap: Heap, marked: set<Addr>, parts': seq<Partition>, x: Addr, o: Obj,
                          marked': set<Addr>)
    requires Relocated(parts, heap, marked) && x !in heap && o.forward == x
    requires marked' == marked || marked' == marked + {x}
    requires forall b :: b in heap ==> Evacuated(parts', b) == Evacuated(parts, b)
    ensures Relocated(parts', heap[x := o], marked')
  {
    hide Evacuated;
    var heap' := heap[x := o];
    forall a | a in heap'
      ensures Canonical(heap', heap'[a].forward)
    {
      if a != x {
        assert Canonical(heap, heap[a].forward);
      }
    }
  }

  /** A marked object of an evacuated partition gets a marked copy elsewhere. */
  lemma RelocatedCopy(parts: seq<Partition>, heap: Heap, marked: set<Addr>, parts': seq<Partition>, x: Addr, copy: Addr)
    requires Relocated(parts, heap, marked) && x in marked && Canonical(heap, x) && Evacuated(parts, x) && copy !in heap
    requires forall b :: b in heap ==> Evacuated(parts', b) == Evacuated(parts, b)
    requires !Evacuated(parts', copy)
    ensures Relocated(parts', WithCopy(heap, x, copy), marked + {copy})
    ensures forall a :: a in heap && a != x ==> heap[a].forward != x
  {
    hide Evacuated;
    var heap' := WithCopy(heap, x, copy);
    forall a | a in heap && a != x
      ensures heap[a].forward != x
    {
    }
    forall a | a in heap'
      ensures Canonical(heap', heap'[a].forward)
    {
      if a != copy && a != x {
        assert heap'[a] == heap[a] && Canonical(heap, heap[a].forward);
      }
    }
  }

  // ---------------------------------------------------------------- evacuation

  /** Copying the next pending object of an evacuated partition. */
  lemma CopyKeeps(parts: seq<Partition>, heap: Heap, live: set<Addr>, marked: set<Addr>, evacuating: bool, it: Iterator,
                  x: Addr, parts': seq<Partition>, copy: Addr)
    requires Placed(parts, heap) && Evacuating(parts, heap, live, marked, evacuating, it)
    requires x in it.pending && Evacuated(parts, x)
    requires Granted(parts, heap, it.number, heap[x].size, parts', copy)
    ensures Evacuating(parts', WithCopy(heap, x, copy),
                       live + {copy}, marked + {copy}, evacuating, it.(pending := it.pending - {x}))
    ensures Placed(parts', WithCopy(heap, x, copy))
    ensures Canonical(heap, x)
    ensures forall a :: a in heap && a != x ==> heap[a].forward != x
  {
    hide Part, Placed, Granted, Extends, Positioned, Relocated, EvacuatesSmall, CopiedBehind, Evacuated;
    PendingCanonical(parts, heap, marked, it, x);
    GrantFlags(parts, heap, it.number, heap[x].size, parts', copy);
    CopyPlaced(parts, heap, it, x, parts', copy);
    ExtendsEvacuatesSmall(parts, parts', evacuating);
    RelocatedCopy(parts, heap, marked, parts', x, copy);
    CopiedBehindCopy(parts, heap, marked, it, x, parts', copy);
  }

  lemma PendingCanonical(parts: seq<Partition>, heap: Heap, marked: set<Addr>, it: Iterator, x: Addr)
    requires marked <= heap.Keys && CopiedBehind(parts, heap, marked, it) && PendingHere(marked, it)
    requires x in it.pending && Evacuated(parts, x)
    ensures Canonical(heap, x)
  {
    hide Part;
  }

  lemma CopyPlaced(parts: seq<Partition>, heap: Heap, it: Iterator, x: Addr, parts': seq<Partition>, copy: Addr)
    requires Placed(parts, heap) && Positioned(parts, heap, it) && x in heap
    requires Granted(parts, heap, it.number, heap[x].size, parts', copy)
    ensures Placed(parts', WithCopy(heap, x, copy))
    ensures Positioned(parts', WithCopy(heap, x, copy),
                       it.(pending := it.pending - {x}))
  {
    hide Placed;
    var o := heap[x].(forward := copy);
    var heap1 := heap[copy := o];
    GrantPlaced(parts, heap, it.number, heap[x].size, parts', copy, o);
    PlacedSameShape(parts', heap1, heap1[x := o]);
    GrantPositioned(parts, heap, heap[x].size, parts', copy, o, it);
    PositionedSameShape(parts', heap1, heap1[x := o], it);
  }

  lemma CopiedBehindCopy(parts: seq<Partition>, heap: Heap, marked: set<Addr>, it: Iterator, x: Addr,
                         parts': seq<Partition>, copy: Addr)
    requires marked <= heap.Keys && CopiedBehind(parts, heap, marked, it) && PendingHere(marked, it)
    requires x in it.pending && copy !in heap
    requires forall b :: b in heap ==> Evacuated(parts', b) == Evacuated(parts, b)
    requires !Evacuated(parts', copy) && Extends(parts, parts')
    ensures CopiedBehind(parts', WithCopy(heap, x, copy), marked + {copy},
                         it.(pending := it.pending - {x}))
  {
    hide Part, Evacuated;
    var heap' := WithCopy(heap, x, copy);
    var it' := it.(pending := it.pending - {x});
    forall a | a in marked + {copy} && Evacuated(parts', a)
      ensures heap'[a].forward != a <==> Passed(it', a)
    {
      assert a != copy;
      if a != x {
        assert heap'[a] == heap[a];
        assert Passed(it', a) <==> Passed(it, a);
      }
    }
  }

  /** Moving on from a partition that is finished or not to be evacuated. */
  lemma NextKeeps(parts: seq<Partition>, heap: Heap, live: set<Addr>, marked: set<Addr>, evacuating: bool,
                  it: Iterator, it': Iterator)
    requires Evacuating(parts, heap, live, marked, evacuating, it)
    requires it.index < it.number && (parts[it.index].evacuate ==> it.pending == {})
    requires it'.number == it.number && it.index < it'.index && Positioned(parts, heap, it')
    requires forall a :: a in heap ==> !(it.index < Part(a) < it'.index)
    requires it'.pending == PendingAt(marked, it'.index, it'.number)
    ensures Evacuating(parts, heap, live, marked, evacuating, it')
  {
    hide Part;
    forall a | a in marked && Evacuated(parts, a)
      ensures Passed(it', a) <==> Passed(it, a)
    {
    }
  }

  /** A heap change that leaves addresses, sizes, forwarding and slices alone. */
  ghost predicate FieldsOnly(heap: Heap, heap': Heap) {
    && SameShape(heap, heap')
    && forall a :: a in heap ==> heap'[a].forward == heap[a].forward && heap'[a].slice == heap[a].slice
                                 && heap'[a].kind == heap[a].kind && |heap'[a].fields| == |heap[a].fields|
  }

  lemma PositionedSameShape(parts: seq<Partition>, heap: Heap, heap': Heap, it: Iterator)
    requires SameShape(heap, heap') && Parked(parts, heap, it)
    ensures Parked(parts, heap', it)
    ensures Positioned(parts, heap, it) ==> Positioned(parts, heap', it)
  {
    forall b | b in heap'
      ensures !(Part(b) < it.index < Part(b) + Span(heap'[b]))
    {
      assert Span(heap'[b]) == Span(heap[b]);
    }
  }

  lemma RelocatedSame(parts: seq<Partition>, heap: Heap, heap': Heap, marked: set<Addr>)
    requires SameForwards(heap, heap') && Relocated(parts, heap, marked)
    ensures Relocated(parts, heap', marked)
  {
    hide Evacuated;
    forall a | a in heap
      ensures Canonical(heap', a) <==> Canonical(heap, a)
    {
    }
  }

  /** The program writes a field during evacuation. */
  lemma EvacuatingWrite(parts: seq<Partition>, heap: Heap, live: set<Addr>, marked: set<Addr>, evacuating: bool,
                        it: Iterator, heap': Heap)
    requires Evacuating(parts, heap, live, marked, evacuating, it) && FieldsOnly(heap, heap')
    ensures Evacuating(parts, heap', live, marked, evacuating, it)
  {
    RelocatedSame(parts, heap, heap', marked);
    PositionedSameShape(parts, heap, heap', it);
  }

  /** The program allocates during evacuation: the new object is marked. */
  lemma EvacuatingAllocate(parts: seq<Partition>, heap: Heap, live: set<Addr>, marked: set<Addr>, evacuating: bool,
                           it: Iterator, parts': seq<Partition>, x: Addr, o: Obj)
    requires Placed(parts, heap) && Evacuating(parts, heap, live, marked, evacuating, it)
    requires Granted(parts, heap, it.number, o.size, parts', x) && o.forward == x && o.slice == 0
    ensures Evacuating(parts', heap[x := o], live + {x}, marked + {x}, evacuating, it)
  {
    hide Part, Placed, Granted, Extends, Positioned, Relocated, EvacuatesSmall, CopiedBehind, Evacuated;
    GrantFlags(parts, heap, it.number, o.size, parts', x);
    GrantPositioned(parts, heap, o.size, parts', x, o, it);
    ExtendsEvacuatesSmall(parts, parts', evacuating);
    RelocatedAllocate(parts, heap, marked, parts', x, o, marked + {x});
    CopiedBehindAllocate(parts, heap, marked, it, parts', x, o);
  }

  lemma CopiedBehindAllocate(parts: seq<Partition>, heap: Heap, marked: set<Addr>, it: Iterator,
                             parts': seq<Partition>, x: Addr, o: Obj)
    requires marked <= heap.Keys && CopiedBehind(parts, heap, marked, it) && x !in heap
    requires forall b :: b in heap ==> Evacuated(parts', b) == Evacuated(parts, b)
    requires !Evacuated(parts', x) && Extends(parts, parts')
    ensures CopiedBehind(parts', heap[x := o], marked + {x}, it)
  {
    hide Part, Evacuated;
  }

  /** When the evacuation is finished, every marked object of an evacuated partition has exactly one
    * copy: marked, elsewhere, shared with no other object, and not forwarded any further. */
  lemma EvacuationComplete(parts: seq<Partition>, heap: Heap, live: set<Addr>, marked: set<Addr>, evacuating: bool, it: Iterator)
    requires Placed(parts, heap) && Evacuating(parts, heap, live, marked, evacuating, it) && it.index == it.number
    ensures marked <= heap.Keys
    ensures forall a :: a in marked && Evacuated(parts, a) ==>
              var copy := heap[a].forward;
              copy != a && copy in marked && !Evacuated(parts, copy) && Canonical(heap, copy)
    ensures forall a, b :: a in marked && b in marked && Evacuated(parts, a) && Evacuated(parts, b) && a != b ==>
              heap[a].forward != heap[b].forward
  {
    hide Placed;
    forall a | a in marked && Evacuated(parts, a)
      ensures Passed(it, a)
    {
    }
  }

  // ---------------------------------------------------------------- updates

  /** Resolving gives a pointer out of the evacuated partitions. */
  lemma ResolveClean(parts: seq<Partition>, heap: Heap, live: set<Addr>, roots: seq<Value>, marked: set<Addr>,
                     evacuating: bool, it: Iterator, v: Value)
    requires Updating(parts, heap, live, roots, marked, evacuating, it) && In(v, live)
    ensures Clean(parts, Resolve(heap, v))
  {
    hide Part;
    if v.Ptr? {
      assert Canonical(heap, heap[v.addr].forward);
    }
  }

  /** The program writes a resolved value during the update phase. */
  lemma UpdatingWrite(parts: seq<Partition>, heap: Heap, live: set<Addr>, roots: seq<Value>, marked: set<Addr>,
                      evacuating: bool, it: Iterator, x: Addr, i: nat, v: Value)
    requires Updating(parts, heap, live, roots, marked, evacuating, it)
    requires x in heap && i < |heap[x].fields| && Clean(parts, v)
    ensures Updating(parts, WithField(heap, x, i, v), live, roots, marked, evacuating, it)
  {
    hide Part, Positioned, Parked, Relocated, EvacuatesSmall, Scheduled, PendingHere, Clean, StaleAwaiting;
    var heap' := WithField(heap, x, i, v);
    RelocatedSame(parts, heap, heap', marked);
    PositionedSameShape(parts, heap, heap', it);
    StaleWrite(parts, heap, live, marked, it, x, i, v);
  }

  lemma StaleWrite(parts: seq<Partition>, heap: Heap, live: set<Addr>, marked: set<Addr>, it: Iterator,
                   x: Addr, i: nat, v: Value)
    requires live <= heap.Keys && StaleAwaiting(parts, heap, live, marked, it)
    requires x in heap && i < |heap[x].fields| && Clean(parts, v)
    ensures StaleAwaiting(parts, WithField(heap, x, i, v), live, marked, it)
  {
    hide Part, Evacuated, Clean, Awaiting;
    var heap' := WithField(heap, x, i, v);
    forall a, j | a in live && !Evacuated(parts, a) && 0 <= j < |heap'[a].fields|
      ensures Clean(parts, heap'[a].fields[j]) || (Awaiting(marked, it, a) && heap'[a].slice <= j)
    {
      if !(a == x && i == j) {
        assert heap'[a].fields[j] == heap[a].fields[j];
      }
    }
  }

  /** The program allocates during the update phase: the fields are resolved by the barrier. */
  lemma UpdatingAllocate(parts: seq<Partition>, heap: Heap, live: set<Addr>, roots: seq<Value>, marked: set<Addr>,
                         evacuating: bool, it: Iterator, parts': seq<Partition>, x: Addr, o: Obj)
    requires Placed(parts, heap) && Updating(parts, heap, live, roots, marked, evacuating, it) && Positioned(parts, heap, it)
    requires AllIn(roots, live)
    requires Granted(parts, heap, it.number, o.size, parts', x) && o.forward == x && o.slice == 0
    requires AllIn(o.fields, live) && AllClean(parts, o.fields)
    requires forall a :: a in live && Canonical(heap, a) ==> AllIn(heap[a].fields, live)
    ensures Updating(parts', heap[x := o], live + {x}, roots, marked, evacuating, it)
    ensures Positioned(parts', heap[x := o], it)
  {
    hide Part, Placed, Granted, Extends, Relocated, EvacuatesSmall, Scheduled, SlicedAwaiting;
    hide Clean, Evacuated, StaleAwaiting;
    GrantFlags(parts, heap, it.number, o.size, parts', x);
    GrantPositioned(parts, heap, o.size, parts', x, o, it);
    ExtendsEvacuatesSmall(parts, parts', evacuating);
    RelocatedAllocate(parts, heap, marked, parts', x, o, marked);
    ScheduledAllocate(parts, heap, marked, it, parts', x, o);
    CleanExtend(parts, heap, live, parts', roots);
    CleanExtend(parts, heap, live, parts', o.fields);
    StaleAllocate(parts, heap, live, marked, it, parts', x, o);
  }

  lemma CleanExtend(parts: seq<Partition>, heap: Heap, live: set<Addr>, parts': seq<Partition>, values: seq<Value>)
    requires live <= heap.Keys && AllIn(values, live)
    requires forall b :: b in heap ==> Evacuated(parts', b) == Evacuated(parts, b)
    ensures forall i :: 0 <= i < |values| ==> Clean(parts', values[i]) == Clean(parts, values[i])
  {
    hide Evacuated;
    forall i | 0 <= i < |values|
      ensures Clean(parts', values[i]) == Clean(parts, values[i])
    {
      assert In(values[i], live);
    }
  }

  lemma ScheduledAllocate(parts: seq<Partition>, heap: Heap, marked: set<Addr>, it: Iterator, parts': seq<Partition>,
                          x: Addr, o: Obj)
    requires Scheduled(parts, marked, it) && SlicedAwaiting(parts, heap, it) && marked <= heap.Keys && Extends(parts, parts')
    requires forall b :: b in heap ==> Part(b) < |parts| && parts'[Part(b)] == parts[Part(b)]
    requires forall b :: b in heap ==> Evacuated(parts', b) == Evacuated(parts, b)
    requires x !in heap && o.slice == 0
    ensures Scheduled(parts', marked, it) && SlicedAwaiting(parts', heap[x := o], it)
  {
    hide Part, Evacuated;
  }

  lemma StaleAllocate(parts: seq<Partition>, heap: Heap, live: set<Addr>, marked: set<Addr>, it: Iterator,
                      parts': seq<Partition>, x: Addr, o: Obj)
    requires live <= heap.Keys && StaleAwaiting(parts, heap, live, marked, it) && Relocated(parts, heap, marked)
    requires forall b :: b in heap ==> Evacuated(parts', b) == Evacuated(parts, b)
    requires x !in heap && !Evacuated(parts', x) && AllClean(parts', o.fields)
    requires forall a :: a in live && Canonical(heap, a) ==> AllIn(heap[a].fields, live)
    ensures StaleAwaiting(parts', heap[x := o], live + {x}, marked, it)
  {
    hide Part, Evacuated, Clean, Relocated, Awaiting;
    var heap' := heap[x := o];
    forall a, j | a in live + {x} && !Evacuated(parts', a) && 0 <= j < |heap'[a].fields|
      ensures Clean(parts', heap'[a].fields[j]) || (Awaiting(marked, it, a) && heap'[a].slice <= j)
    {
      if a != x {
        UnevacuatedCanonical(parts, heap, marked, a);
        CleanExtend(parts, heap, live, parts', heap[a].fields);
      }
    }
    forall a | a in live + {x} && Evacuated(parts', a)
      ensures heap'[a].forward != a
    {
      assert a in live && Evacuated(parts, a);
    }
  }

  lemma UnevacuatedCanonical(parts: seq<Partition>, heap: Heap, marked: set<Addr>, a: Addr)
    requires Relocated(parts, heap, marked) && a in heap && !Evacuated(parts, a)
    ensures Canonical(heap, a)
  {
  }

  /** All fields of the pending object `x` are clean: the iterator may pass it. */
  lemma PassKeeps(parts: seq<Partition>, heap: Heap, live: set<Addr>, roots: seq<Value>, marked: set<Addr>,
                  evacuating: bool, it: Iterator, x: Addr)
    requires Updating(parts, heap, live, roots, marked, evacuating, it)
    requires x in it.pending && x in heap && heap[x].slice == 0 && AllClean(parts, heap[x].fields)
    ensures Updating(parts, heap, live, roots, marked, evacuating, it.(pending := it.pending - {x}))
  {
    hide Part, Relocated, EvacuatesSmall, Evacuated, Clean;
  }

  /** Fields up to `slice` are clean: the array header may say so. */
  lemma SliceKeeps(parts: seq<Partition>, heap: Heap, live: set<Addr>, roots: seq<Value>, marked: set<Addr>,
                   evacuating: bool, it: Iterator, x: Addr, slice: nat)
    requires Updating(parts, heap, live, roots, marked, evacuating, it)
    requires x in it.pending && x in heap && !Evacuated(parts, x) && slice <= |heap[x].fields|
    requires slice > 0 ==> evacuating && heap[x].kind == Array
    requires forall i :: 0 <= i < slice ==> Clean(parts, heap[x].fields[i])
    ensures Updating(parts, WithSlice(heap, x, slice), live, roots, marked, evacuating, it)
  {
    hide Part, Positioned, Parked, Relocated, EvacuatesSmall, Scheduled, PendingHere, Clean, StaleAwaiting;
    var heap' := WithSlice(heap, x, slice);
    RelocatedSame(parts, heap, heap', marked);
    PositionedSameShape(parts, heap, heap', it);
    StaleSlice(parts, heap, live, marked, it, x, slice);
  }

  lemma StaleSlice(parts: seq<Partition>, heap: Heap, live: set<Addr>, marked: set<Addr>, it: Iterator,
                   x: Addr, slice: nat)
    requires live <= heap.Keys && StaleAwaiting(parts, heap, live, marked, it)
    requires x in heap && slice <= |heap[x].fields|
    requires forall i :: 0 <= i < slice ==> Clean(parts, heap[x].fields[i])
    ensures StaleAwaiting(parts, WithSlice(heap, x, slice), live, marked, it)
  {
    hide Part, Evacuated, Clean, Awaiting;
  }

  /** Moving on from a partition that is finished or holds nothing to update. */
  lemma UpdatingNext(parts: seq<Partition>, heap: Heap, live: set<Addr>, roots: seq<Value>, marked: set<Addr>,
                     evacuating: bool, it: Iterator, it': Iterator)
    requires Updating(parts, heap, live, roots, marked, evacuating, it)
    requires it.index < it.number
    requires parts[it.index].update ==> it.pending == {}
    requires it'.number == it.number && it.index < it'.index && Positioned(parts, heap, it')
    requires forall a :: a in heap ==> !(it.index < Part(a) < it'.index)
    requires it'.pending == PendingAt(marked, it'.index, it'.number)
    ensures Updating(parts, heap, live, roots, marked, evacuating, it')
  {
    hide Part, Relocated, EvacuatesSmall, Clean;
    forall a | a in heap
      ensures heap[a].slice == 0
    {
    }
    forall a | a in live && !Evacuated(parts, a) && Awaiting(marked, it, a)
      ensures Awaiting(marked, it', a)
    {
    }
  }
}
