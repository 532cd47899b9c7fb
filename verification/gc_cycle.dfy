/** The transitions from phase to phase of a collection. */
module GcCycle {
  import opened GcModel
  import opened GcMarking
  import opened GcRelocation
  import opened GcMachine
  import opened GcPhases

  // ---------------------------------------------------------------- pause to mark

  /** Free partitions may become temporary, to hold mark bitmaps; the table may be extended. */
  predicate BitmapsReserved(parts: seq<Partition>, parts': seq<Partition>) {
    && |parts| <= |parts'|
    && (forall q :: 0 <= q < |parts| ==>
          parts'[q] == parts[q] || (parts[q].free && parts'[q] == parts[q].(free := false, temporary := true)))
    && (forall q :: |parts| <= q < |parts'| ==> !parts'[q].large && !parts'[q].evacuate && !parts'[q].update)
  }

  lemma ReservedPlaced(parts: seq<Partition>, heap: Heap, parts': seq<Partition>)
    requires Placed(parts, heap) && BitmapsReserved(parts, parts')
    ensures Placed(parts', heap)
    ensures NoFlags(parts) ==> NoFlags(parts')
  {
    hide Part, Span;
    forall q | 0 <= q < |parts| && !parts[q].free
      ensures parts'[q] == parts[q]
    {
    }
  }

  lemma StartMarking(s: State, parts': seq<Partition>)
    requires Sound(s) && s.phase == Pause && s.locals == [] && BitmapsReserved(s.parts, parts')
    ensures var s' := s.(phase := Mark, parts := parts', marked := {}, stack := [], registry := []);
            Common(s') && InMark(s', Targets(s.roots, 0, |s.roots|))
  {
    hide Placed, Bounded, Coupled, WeakShape, SnapshotKept;
    ReservedPlaced(s.parts, s.heap, parts');
    SnapshotStart(s.heap, s.roots);
  }

  // ---------------------------------------------------------------- completion of marking

  /** Marking is finished up to the weak references in `registry`. */
  ghost predicate Clearing(s: State) {
    && NoFlags(s.parts) && !s.evacuating
    && Plainly(s.heap) && NoSlices(s.heap)
    && s.marked <= s.live
    && (forall k :: 0 <= k < |s.registry| ==>
          s.registry[k] in s.marked && s.registry[k] in s.heap && s.heap[s.registry[k]].kind == Weak)
    && Needed(s.heap, s.roots, s.locals, s.marked, s.registry, s.marked)
  }

  ghost function MarkedIds(s: State): set<Oid>
    requires s.marked <= s.ids.Keys
  {
    set a | a in s.marked :: s.ids[a]
  }

  lemma StartClearing(s: State)
    requires Common(s) && InMark(s, {}) && s.stack == []
    ensures Clearing(s) && s.marked <= s.ids.Keys
    ensures StrongClosed(s.spec, MarkedIds(s))
  {
    hide Placed, Bounded, WeakShape, SnapshotKept;
    MarkingComplete(s.heap, s.live, s.roots, s.locals, s.marked, s.registry);
    hide Needed;
    MarkedClosed(s);
  }

  /** The identities of the marked objects form a closed set: whatever the program can strongly
    * reach is marked. */
  lemma MarkedClosed(s: State)
    requires Coupled(s.heap, s.ids, s.live, s.roots, s.locals, s.spec) && Clearing(s)
    ensures s.marked <= s.ids.Keys && StrongClosed(s.spec, MarkedIds(s))
  {
    var c := MarkedIds(s);
    forall i | 0 <= i < |s.spec.roots| && s.spec.roots[i].ARef?
      ensures s.spec.roots[i].oid in c
    {
      assert s.spec.roots[i] == Abs(s.ids, s.roots[i]);
      assert In(s.roots[i], s.marked);
    }
    forall id | id in c && id in s.spec.objs && s.spec.objs[id].kind != Weak
      ensures RefsIn(s.spec.objs[id].fields, c)
    {
      var a :| a in s.marked && s.ids[a] == id;
      assert Canonical(s.heap, a);
      assert AllIn(s.heap[a].fields, s.marked);
      forall i | 0 <= i < |s.spec.objs[id].fields| && s.spec.objs[id].fields[i].ARef?
        ensures s.spec.objs[id].fields[i].oid in c
      {
        assert s.spec.objs[id].fields[i] == Abs(s.ids, s.heap[a].fields[i]);
        assert In(s.heap[a].fields[i], s.marked);
      }
    }
  }

  /** The weak reference keeps its target, or never had one to lose. */
  lemma WeakKept(s: State, w: Addr, rest: seq<Addr>)
    requires Common(s) && Clearing(s) && s.registry == rest + [w] && w in s.heap && |s.heap[w].fields| == 1
    requires In(s.heap[w].fields[0], s.marked)
    ensures Common(s.(registry := rest)) && Clearing(s.(registry := rest))
  {
    hide Placed, Bounded, Coupled;
    assert s.registry[|rest|] == w;
    forall k | 0 <= k < |rest|
      ensures rest[k] == s.registry[k]
    {
    }
    forall m | m in s.marked && m in s.heap && !(s.heap[m].kind == Weak && m in rest)
      ensures AllIn(s.heap[m].fields, s.marked)
    {
      if m != w {
        assert m !in s.registry || s.heap[m].kind != Weak;
      }
    }
  }

  /** Clearing a weak reference whose target was not marked: the target was not strongly reachable. */
  lemma WeakDropped(s: State, spec0: Spec, w: Addr, rest: seq<Addr>, o: AObj)
    requires Common(s) && Clearing(s) && s.registry == rest + [w] && w in s.heap && |s.heap[w].fields| == 1
    requires s.heap[w].fields[0].Ptr? && s.heap[w].fields[0].addr !in s.marked
    requires s.marked <= s.ids.Keys && StrongClosed(spec0, MarkedIds(s)) && WeakCleared(spec0, s.spec)
    requires w in s.live && w in s.ids && s.heap[w].kind == Weak && o == AObj(Weak, [ANull])
    ensures var s' := s.(heap := WithField(s.heap, w, 0, Null), registry := rest,
                         spec := s.spec.(objs := s.spec.objs[s.ids[w] := o]));
            Common(s') && Clearing(s') && WeakCleared(spec0, s'.spec)
  {
    hide Placed, Bounded, Needed, Reachable, Denotes, WeakCleared, Coupled;
    assert s.registry[|rest|] == w;
    assert forall k :: 0 <= k < |rest| ==> rest[k] == s.registry[k];
    StoreCoupled(s, w, 0, Null);
    WeakMeaning(s, w);
    assert s.spec.objs[s.ids[w]].fields[0 := Abs(s.ids, Null)] == [ANull];
    PlacedSameShape(s.parts, s.heap, WithField(s.heap, w, 0, Null));
    BoundedSameShape(s.heap, WithField(s.heap, w, 0, Null), s.it.number);
    NeededWithoutTarget(s, w, rest);
    UnmarkedUnreachable(s, spec0, s.heap[w].fields[0].addr);
    ClearedStep(spec0, s.spec, s.ids[w], o);
  }

  lemma WeakMeaning(s: State, w: Addr)
    requires Common(s) && Clearing(s) && w in s.live && s.heap[w].kind == Weak && |s.heap[w].fields| == 1
    requires s.heap[w].fields[0].Ptr?
    ensures w in s.ids && s.ids[w] in s.spec.objs && Canonical(s.heap, w)
    ensures var t := s.heap[w].fields[0].addr;
            t in s.live && t in s.ids && s.spec.objs[s.ids[w]] == AObj(Weak, [ARef(s.ids[t])])
  {
    hide Placed, Bounded, Needed;
    assert Canonical(s.heap, w);
    assert In(s.heap[w].fields[0], s.live);
  }

  lemma ClearedStep(spec0: Spec, spec: Spec, id: Oid, o: AObj)
    requires WeakCleared(spec0, spec) && id in spec.objs && o == AObj(Weak, [ANull])
    requires spec.objs[id].kind == Weak && |spec.objs[id].fields| == 1 && spec.objs[id].fields[0].ARef?
    requires !Reachable(spec0, spec.objs[id].fields[0].oid)
    ensures WeakCleared(spec0, spec.(objs := spec.objs[id := o]))
  {
    hide Reachable;
  }

  lemma NeededWithoutTarget(s: State, w: Addr, rest: seq<Addr>)
    requires Clearing(s) && WeakShape(s.heap) && s.registry == rest + [w]
    ensures w in s.heap && |s.heap[w].fields| == 1
    ensures Needed(WithField(s.heap, w, 0, Null), s.roots, s.locals, s.marked, rest, s.marked)
  {
    assert s.registry[|rest|] == w;
    var heap' := WithField(s.heap, w, 0, Null);
    forall k | 0 <= k < |rest|
      ensures rest[k] == s.registry[k]
    {
    }
    forall m | m in s.marked && m in heap' && !(heap'[m].kind == Weak && m in rest)
      ensures AllIn(heap'[m].fields, s.marked)
    {
      if m != w {
        assert AllIn(s.heap[m].fields, s.marked);
      }
    }
  }

  lemma UnmarkedUnreachable(s: State, spec0: Spec, t: Addr)
    requires Common(s) && Plainly(s.heap) && s.marked <= s.live && t in s.live && t !in s.marked
    requires s.marked <= s.ids.Keys && t in s.ids && StrongClosed(spec0, MarkedIds(s))
    ensures !Reachable(spec0, s.ids[t])
  {
    hide Placed, Bounded, StrongClosed, WeakShape;
    var c := MarkedIds(s);
    forall a | a in s.marked
      ensures s.ids[a] != s.ids[t]
    {
      assert s.heap[a].forward == a && s.heap[t].forward == t;
    }
    assert s.ids[t] !in c;
  }

  // ---------------------------------------------------------------- mark to evacuate

  /** The iterator is new: nothing lies before it. */
  ghost predicate Fresh(heap: Heap, marked: set<Addr>, it: Iterator) {
    && it.pending == PendingAt(marked, it.index, it.number)
    && forall a :: a in heap ==> it.index <= Part(a) < it.number
  }

  function Flagged(parts: seq<Partition>, chosen: set<nat>): (r: seq<Partition>)
    ensures |r| == |parts|
  {
    seq(|parts|, p requires 0 <= p < |parts| => parts[p].(evacuate := p in chosen))
  }

  /** Candidates hold ordinary objects and are known to the iterator. */
  predicate Candidates(parts: seq<Partition>, number: nat, chosen: set<nat>) {
    forall p :: p in chosen ==> p < number && p < |parts| && !parts[p].free && !parts[p].large && !parts[p].temporary
  }

  lemma FlaggedPlaced(parts: seq<Partition>, heap: Heap, chosen: set<nat>, it: Iterator)
    requires Placed(parts, heap) && Positioned(parts, heap, it) && NoFlags(parts)
    requires Candidates(parts, it.number, chosen)
    ensures Placed(Flagged(parts, chosen), heap) && Positioned(Flagged(parts, chosen), heap, it)
    ensures EvacuatesSmall(Flagged(parts, chosen), chosen != {})
    ensures forall p :: 0 <= p < |parts| && Flagged(parts, chosen)[p].evacuate ==> p < it.number
    ensures forall p :: 0 <= p < |parts| ==> !Flagged(parts, chosen)[p].update
  {
    hide Part, Span, Continues;
  }

  /** The live objects are now the marked ones, and nothing is copied yet. */
  lemma StartEvacuating(s: State, chosen: set<nat>, it: Iterator)
    requires Common(s) && Clearing(s) && s.registry == [] && s.locals == []
    requires Positioned(s.parts, s.heap, it) && it.number == |s.parts| && Bounded(s.heap, it.number)
    requires Fresh(s.heap, s.marked, it) && Candidates(s.parts, it.number, chosen)
    ensures var s' := s.(phase := Evacuate, parts := Flagged(s.parts, chosen), live := s.marked, it := it,
                         evacuating := chosen != {});
            Common(s') && InEvacuation(s')
  {
    hide Placed, Bounded, Positioned, EvacuatesSmall, Evacuated;
    FlaggedPlaced(s.parts, s.heap, chosen, it);
    assert AllIn(s.roots, s.marked);
    forall a | a in s.marked
      ensures AllIn(s.heap[a].fields, s.marked) && s.heap[a].forward in s.marked
    {
    }
    CoupledRestrict(s.heap, s.ids, s.live, s.roots, s.locals, s.spec, s.heap, s.marked);
    forall a | a in s.heap
      ensures Canonical(s.heap, s.heap[a].forward) && s.heap[a].forward == a
    {
    }
    forall a | a in s.marked
      ensures !Passed(it, a)
    {
    }
  }

  // ---------------------------------------------------------------- evacuate to update

  /** Evacuation is finished and the iterator of the update phase has been created. */
  ghost predicate Collecting(s: State) {
    && s.live == s.marked && s.marked <= s.heap.Keys
    && Relocated(s.parts, s.heap, s.marked)
    && EvacuatesSmall(s.parts, s.evacuating)
    && NoSlices(s.heap)
    && Parked(s.parts, s.heap, s.it)
    && s.it.number == |s.parts|
    && Fresh(s.heap, s.marked, s.it)
    && (forall a :: a in s.marked && Evacuated(s.parts, a) ==> s.heap[a].forward != a)
  }

  lemma StartCollecting(s: State, it: Iterator)
    requires Common(s) && InEvacuation(s) && s.it.index == s.it.number
    requires Positioned(s.parts, s.heap, it) && it.number == |s.parts| && Bounded(s.heap, it.number)
    requires Fresh(s.heap, s.marked, it)
    ensures Common(s.(it := it)) && Collecting(s.(it := it))
  {
    hide Placed, Bounded, Coupled, Relocated, EvacuatesSmall, WeakShape;
    EvacuationComplete(s.parts, s.heap, s.live, s.marked, s.evacuating, s.it);
  }

  function FreedRange(parts: seq<Partition>, lo: nat, hi: nat): (r: seq<Partition>)
    ensures |r| == |parts|
  {
    seq(|parts|, p requires 0 <= p < |parts| =>
      if lo <= p < hi then Partition(true, false, false, parts[p].pinned, false, false) else parts[p])
  }

  function Without(heap: Heap, x: Addr): Heap {
    map a | a in heap && a != x :: heap[a]
  }

  /** An unmarked large object and its partitions are released. */
  lemma FreeLarge(s: State, x: Addr)
    requires Common(s) && Collecting(s) && x in s.heap && x !in s.marked && Span(s.heap[x]) > 1
    ensures var s' := s.(heap := Without(s.heap, x), parts := FreedRange(s.parts, Part(x), Part(x) + Span(s.heap[x])));
            Common(s') && Collecting(s')
  {
    hide Part, Span, Placed, Bounded, Coupled, Relocated, EvacuatesSmall, Parked, WeakShape;
    var parts', heap' := FreedRange(s.parts, Part(x), Part(x) + Span(s.heap[x])), Without(s.heap, x);
    FreeLargePlaced(s.parts, s.heap, x);
    FreeLargeFlags(s.parts, s.heap, x, s.evacuating);
    FreeLargeParked(s.parts, s.heap, x, s.it);
    FreeLargeRelocated(s.parts, s.heap, s.marked, x, parts');
    FreeLargeCoupled(s, x);
    BoundedSubset(s.heap, heap', s.it.number);
  }

  lemma BoundedSubset(heap: Heap, heap': Heap, bound: nat)
    requires Bounded(heap, bound) && heap'.Keys <= heap.Keys && forall a :: a in heap' ==> heap'[a] == heap[a]
    ensures Bounded(heap', bound)
  {
    hide Part, Span;
  }

  lemma FreeLargeCoupled(s: State, x: Addr)
    requires Common(s) && s.live <= s.heap.Keys && x !in s.live
    ensures Coupled(Without(s.heap, x), s.ids, s.live, s.roots, s.locals, s.spec) && WeakShape(Without(s.heap, x))
  {
    hide Placed, Bounded, Denotes;
    CoupledRestrict(s.heap, s.ids, s.live, s.roots, s.locals, s.spec, Without(s.heap, x), s.live);
  }

  lemma FreeLargePlaced(parts: seq<Partition>, heap: Heap, x: Addr)
    requires Placed(parts, heap) && x in heap && Span(heap[x]) > 1
    ensures Placed(FreedRange(parts, Part(x), Part(x) + Span(heap[x])), Without(heap, x))
    ensures forall a :: a in heap && a != x ==> !(Part(x) <= Part(a) < Part(x) + Span(heap[x]))
  {
    hide Part, Span;
    var lo, hi := Part(x), Part(x) + Span(heap[x]);
    var parts', heap' := FreedRange(parts, lo, hi), Without(heap, x);
    forall a | a in heap && a != x
      ensures !(lo <= Part(a) < hi)
      ensures Part(a) + Span(heap[a]) <= lo || hi <= Part(a)
    {
      if Part(a) < lo {
        assert Span(heap[a]) == 1 || Part(a) + Span(heap[a]) <= lo;
      }
    }
    FreeLargeHeld(parts, heap, x);
  }

  lemma FreeLargeHeld(parts: seq<Partition>, heap: Heap, x: Addr)
    requires LargeHeld(parts, heap) && x in heap && x == Part(x) * PARTITION_SIZE
    ensures LargeHeld(FreedRange(parts, Part(x), Part(x) + Span(heap[x])), Without(heap, x))
  {
    hide Part, Span;
    var lo, hi := Part(x), Part(x) + Span(heap[x]);
    var parts', heap' := FreedRange(parts, lo, hi), Without(heap, x);
    forall q | 0 <= q < |parts'| && parts'[q].large
      ensures q * PARTITION_SIZE in heap' || Continues(heap', q)
    {
      assert !(lo <= q < hi) && parts[q].large;
      if q * PARTITION_SIZE in heap {
        assert q != lo;
      } else {
        var b :| b in heap && Part(b) < q < Part(b) + Span(heap[b]);
        assert b != x;
        assert b in heap' && Part(b) < q < Part(b) + Span(heap'[b]);
      }
    }
  }

  lemma FreeLargeFlags(parts: seq<Partition>, heap: Heap, x: Addr, evacuating: bool)
    requires Placed(parts, heap) && x in heap && Span(heap[x]) > 1 && EvacuatesSmall(parts, evacuating)
    ensures var parts' := FreedRange(parts, Part(x), Part(x) + Span(heap[x]));
            && EvacuatesSmall(parts', evacuating)
            && (forall p :: 0 <= p < |parts'| ==> parts'[p].evacuate == parts[p].evacuate)
            && (forall a :: Evacuated(parts', a) == Evacuated(parts, a))
  {
    hide Part, Span, LargeHeld, LargeAlone;
  }

  lemma FreeLargeParked(parts: seq<Partition>, heap: Heap, x: Addr, it: Iterator)
    requires Parked(parts, heap, it) && x in heap
    ensures Parked(FreedRange(parts, Part(x), Part(x) + Span(heap[x])), Without(heap, x), it)
  {
    hide Part, Span;
    var heap' := Without(heap, x);
    forall a | a in heap'
      ensures !(Part(a) < it.index < Part(a) + Span(heap'[a]))
    {
      assert heap'[a] == heap[a];
    }
  }

  lemma FreeLargeRelocated(parts: seq<Partition>, heap: Heap, marked: set<Addr>, x: Addr, parts': seq<Partition>)
    requires Relocated(parts, heap, marked) && x in heap && x !in marked
    requires forall a :: Evacuated(parts', a) == Evacuated(parts, a)
    ensures Relocated(parts', Without(heap, x), marked)
  {
    hide Evacuated;
    var heap' := Without(heap, x);
    forall a | a in heap'
      ensures Canonical(heap', heap'[a].forward)
    {
      assert Canonical(heap, heap[a].forward);
    }
  }

  function UpdatePlan(parts: seq<Partition>): (r: seq<Partition>)
    ensures |r| == |parts|
  {
    seq(|parts|, p requires 0 <= p < |parts| => parts[p].(update := !parts[p].free && !parts[p].evacuate))
  }

  lemma PlanPlaced(parts: seq<Partition>, heap: Heap, it: Iterator, evacuating: bool)
    requires Placed(parts, heap) && Parked(parts, heap, it) && EvacuatesSmall(parts, evacuating)
    ensures Placed(UpdatePlan(parts), heap) && Parked(UpdatePlan(parts), heap, it)
    ensures EvacuatesSmall(UpdatePlan(parts), evacuating)
    ensures forall a :: Evacuated(UpdatePlan(parts), a) == Evacuated(parts, a)
  {
    hide Part, Span, Continues;
  }

  /** All marked objects outside the evacuated partitions await the update pass. */
  lemma StartUpdating(s: State)
    requires Common(s) && Collecting(s) && AllClean(s.parts, s.roots)
    ensures var s' := s.(phase := Update, parts := UpdatePlan(s.parts));
            Common(s') && InUpdate(s')
  {
    hide Placed, Bounded, Coupled, EvacuatesSmall, Parked, WeakShape, Relocated, Clean;
    assert InUse(s.parts, s.heap) by {
      PlacedInUse(s.parts, s.heap);
    }
    PlanPlaced(s.parts, s.heap, s.it, s.evacuating);
    assert s.live <= s.heap.Keys;
    PlanSchedules(s);
    PlanRelocated(s, UpdatePlan(s.parts));
  }

  lemma PlacedInUse(parts: seq<Partition>, heap: Heap)
    requires Placed(parts, heap)
    ensures InUse(parts, heap)
  {
  }

  lemma PlanSchedules(s: State)
    requires InUse(s.parts, s.heap) && EvacuatesSmall(s.parts, s.evacuating)
    requires s.marked <= s.heap.Keys && Fresh(s.heap, s.marked, s.it) && NoSlices(s.heap)
    ensures Scheduled(UpdatePlan(s.parts), s.marked, s.it)
    ensures SlicedAwaiting(UpdatePlan(s.parts), s.heap, s.it)
  {
    hide Span, Part;
  }

  lemma PlanRelocated(s: State, parts': seq<Partition>)
    requires s.live == s.marked && s.marked <= s.heap.Keys && Fresh(s.heap, s.marked, s.it)
    requires Relocated(s.parts, s.heap, s.marked) && AllClean(s.parts, s.roots)
    requires NoSlices(s.heap)
    requires forall a :: a in s.marked && Evacuated(s.parts, a) ==> s.heap[a].forward != a
    requires forall a :: Evacuated(parts', a) == Evacuated(s.parts, a)
    ensures Relocated(parts', s.heap, s.marked) && AllClean(parts', s.roots)
    ensures StaleAwaiting(parts', s.heap, s.live, s.marked, s.it) && PendingHere(s.marked, s.it)
  {
    hide Evacuated, Part;
    forall a | a in s.marked
      ensures Awaiting(s.marked, s.it, a)
    {
    }
  }

  // ---------------------------------------------------------------- update to pause

  function Released(parts: seq<Partition>): (r: seq<Partition>)
    ensures |r| == |parts|
  {
    seq(|parts|, p requires 0 <= p < |parts| =>
      if parts[p].evacuate || parts[p].temporary then Partition(true, false, false, parts[p].pinned, false, false)
      else parts[p].(update := false))
  }

  function Retained(parts: seq<Partition>, heap: Heap): Heap {
    map a | a in heap && !Evacuated(parts, a) :: heap[a]
  }

  /** No root and no field of a live object points into an evacuated partition any more. */
  lemma UpdatesComplete(s: State)
    requires Common(s) && InUpdate(s) && s.it.index == s.it.number
    ensures s.live <= s.heap.Keys
    ensures AllClean(s.parts, s.roots)
    ensures forall a :: a in s.live && !Evacuated(s.parts, a) ==> AllClean(s.parts, s.heap[a].fields) && Canonical(s.heap, a)
    ensures forall a, i :: a in s.live && !Evacuated(s.parts, a) && 0 <= i < |s.heap[a].fields| && s.heap[a].fields[i].Ptr? ==>
              var t := s.heap[a].fields[i].addr; t in s.live && Canonical(s.heap, t)
  {
    hide Placed, Bounded, Parked, EvacuatesSmall, WeakShape, Denotes;
    forall a | a in s.live && !Evacuated(s.parts, a)
      ensures AllClean(s.parts, s.heap[a].fields) && Canonical(s.heap, a)
    {
      assert !Awaiting(s.marked, s.it, a);
      UnevacuatedCanonical(s.parts, s.heap, s.marked, a);
    }
    forall a, i | a in s.live && !Evacuated(s.parts, a) && 0 <= i < |s.heap[a].fields| && s.heap[a].fields[i].Ptr?
      ensures s.heap[a].fields[i].addr in s.live && Canonical(s.heap, s.heap[a].fields[i].addr)
    {
      assert In(s.heap[a].fields[i], s.live) && Clean(s.parts, s.heap[a].fields[i]);
      UnevacuatedCanonical(s.parts, s.heap, s.marked, s.heap[a].fields[i].addr);
    }
  }

  lemma ReleasedPlaced(parts: seq<Partition>, heap: Heap, evacuating: bool)
    requires Placed(parts, heap) && EvacuatesSmall(parts, evacuating)
    ensures Placed(Released(parts), Retained(parts, heap)) && NoFlags(Released(parts))
  {
    hide Part, Span;
    var parts', heap' := Released(parts), Retained(parts, heap);
    forall a | a in heap'
      ensures Part(a) < |parts| && !parts[Part(a)].evacuate && parts'[Part(a)] == parts[Part(a)].(update := false)
    {
    }
    forall a, q | a in heap' && Span(heap'[a]) > 1 && Part(a) <= q < Part(a) + Span(heap'[a])
      ensures parts'[q].large && parts'[q].HasDynamicSpace()
    {
      assert parts[q].large && parts[q].HasDynamicSpace() && !parts[q].evacuate;
    }
    assert LargeAlone(heap') by {
      forall a, b | a in heap' && b in heap' && a != b && Part(a) <= Part(b)
        ensures Span(heap'[a]) == 1 || Part(a) + Span(heap'[a]) <= Part(b)
      {
        assert heap'[a] == heap[a];
      }
    }
    ReleasedHeld(parts, heap, evacuating);
  }

  lemma ReleasedHeld(parts: seq<Partition>, heap: Heap, evacuating: bool)
    requires Placed(parts, heap) && EvacuatesSmall(parts, evacuating)
    ensures LargeHeld(Released(parts), Retained(parts, heap))
  {
    hide Part, Span, LargeAlone;
    var parts', heap' := Released(parts), Retained(parts, heap);
    forall q | 0 <= q < |parts'| && parts'[q].large
      ensures q * PARTITION_SIZE in heap' || Continues(heap', q)
    {
      assert parts[q].large && !parts[q].evacuate;
      if q * PARTITION_SIZE in heap {
        PartOfStart(q);
      } else {
        var b :| b in heap && Part(b) < q < Part(b) + Span(heap[b]);
        assert parts[Part(b)].large;
        assert b in heap' && Part(b) < q < Part(b) + Span(heap'[b]);
      }
    }
  }

  /** The evacuated partitions are released, and nothing that is still live lies in them. */
  lemma CompleteRun(s: State)
    requires Common(s) && InUpdate(s) && s.it.index == s.it.number && s.locals == []
    ensures Sound(s.(phase := Pause, parts := Released(s.parts), heap := Retained(s.parts, s.heap), marked := {},
                     evacuating := false, live := set a | a in s.live && !Evacuated(s.parts, a)))
  {
    hide Placed, Bounded, Parked, EvacuatesSmall, Denotes, Evacuated, Part;
    ReleasedPlaced(s.parts, s.heap, s.evacuating);
    BoundedSubset(s.heap, Retained(s.parts, s.heap), s.it.number);
    UpdatesComplete(s);
    var heap' := Retained(s.parts, s.heap);
    var live' := set a | a in s.live && !Evacuated(s.parts, a);
    forall i | 0 <= i < |s.roots|
      ensures In(s.roots[i], live')
    {
      assert In(s.roots[i], s.live) && Clean(s.parts, s.roots[i]);
    }
    forall a | a in live'
      ensures AllIn(s.heap[a].fields, live') && s.heap[a].forward in live'
    {
      forall i | 0 <= i < |s.heap[a].fields|
        ensures In(s.heap[a].fields[i], live')
      {
        assert Clean(s.parts, s.heap[a].fields[i]);
      }
    }
    CoupledRestrict(s.heap, s.ids, s.live, s.roots, s.locals, s.spec, heap', live');
    RetainedPlain(s);
  }

  lemma RetainedPlain(s: State)
    requires Common(s) && InUpdate(s) && s.it.index == s.it.number
    ensures Plainly(Retained(s.parts, s.heap)) && NoSlices(Retained(s.parts, s.heap)) && WeakShape(Retained(s.parts, s.heap))
  {
    hide Placed, Bounded, Parked, EvacuatesSmall, Coupled, StaleAwaiting, AllClean;
    forall a | a in s.heap && !Evacuated(s.parts, a)
      ensures s.heap[a].forward == a && s.heap[a].slice == 0
    {
      UnevacuatedCanonical(s.parts, s.heap, s.marked, a);
      assert s.heap[a].slice > 0 ==> a in s.it.pending && a in s.marked;
    }
  }
}
