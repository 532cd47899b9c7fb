/** The incremental collector and the barriers through which the program uses the heap. */
module GcCollector {
  import opened GcModel
  import opened GcMarking
  import opened GcRelocation
  import opened GcMachine
  import opened GcPhases
  import opened GcCycle
  import opened GcPrecision

  const USIZE_MAX: nat := 0xffff_ffff_ffff_ffff
  const INCREMENT_BASE_LIMIT: nat := 5_000_000
  const INCREMENT_ALLOCATION_FACTOR: nat := 50
  const SLICE_INCREMENT: nat := 128
  const WEAK_REF_SIZE: nat := 24

  type usize = n: nat | n <= USIZE_MAX

  function SaturatingAdd(a: usize, b: nat): usize {
    if a + b <= USIZE_MAX then a + b else USIZE_MAX
  }

  function SaturatingMul(a: usize, b: nat): usize {
    if a * b <= USIZE_MAX then a * b else USIZE_MAX
  }

  /** The lowest address: bitmap iteration visits the marked objects of a partition in this order. */
  method Least(s: set<Addr>) returns (x: Addr)
    requires s != {}
    ensures x in s && forall y :: y in s ==> x <= y
  {
    ghost var lowest := LowestExists(s);
    x :| Lowest(s, x);
    assert Lowest(s, x);
  }

  // The partitions that the partitioned heap selects for evacuation when these objects are marked.
  type Plan = (seq<Partition>, set<Addr>) -> set<nat>

  /** Chosen are those of the plan that are candidates. */
  ghost predicate Follows(plan: Plan, parts: seq<Partition>, marked: set<Addr>, chosen: set<nat>) {
    forall p :: p in chosen <==> p in plan(parts, marked) && Candidates(parts, |parts|, {p})
  }

  class Collector {
    // The persistent state of the collector, with the heap it works on.
    var phase: Phase
    var heap: Heap
    var parts: seq<Partition>
    var roots: seq<Value>
    var evacuating: bool
    var allocationCount: usize
    var marked: set<Addr>
    var markStack: seq<Addr>
    var registry: seq<Addr>
    var complete: bool
    var position: Iterator
    const plan: Plan

    // The values on the program's call stack.
    var locals: seq<Value>

    // The time of the running increment, and how many objects or slices were begun when it was over.
    var steps: usize
    var limit: usize
    ghost var late: nat

    // What the values mean to the program.
    ghost var live: set<Addr>
    ghost var ids: Ids
    ghost var spec: Spec
    ghost var nextId: Oid
    // The running collection.
    ghost var trace: Trace

    ghost function View(): State
      reads this
    {
      State(phase, parts, heap, roots, locals, marked, markStack, registry, evacuating, position, live, ids, spec, nextId)
    }

    ghost predicate Valid()
      reads this
    {
      Sound(View()) && !complete && Traced(View(), trace)
    }

    /** An empty heap with `n` uninitialised roots. */
    constructor (n: nat, plan: Plan)
      ensures Valid() && locals == [] && phase == Pause
      ensures spec == Spec(map[], seq(n, _ => ANull), []) && this.plan == plan
    {
      this.plan := plan;
      phase := Pause;
      heap := map[];
      parts := [];
      roots := seq(n, _ => Null);
      evacuating := false;
      allocationCount := 0;
      marked, markStack, registry, complete := {}, [], [], false;
      position := Iterator(0, 0, {});
      locals := [];
      steps, limit, late := 0, 0, 0;
      live, ids, spec, nextId := {}, map[], Spec(map[], seq(n, _ => ANull), []), 0;
      trace := Trace(Spec(map[], [], []), {}, {});
    }

    // -------------------------------------------------------------- bounded time

    method Advance(amount: nat)
      modifies this`steps
      ensures steps == SaturatingAdd(old(steps), amount)
    {
      steps := SaturatingAdd(steps, amount);
    }

    predicate TimeIsOver()
      reads this`steps, this`limit
    {
      steps >= limit
    }

    // -------------------------------------------------------------- allocation

    /** New space: the allocator may pick any block that keeps its promise. */
    method AllocWords(size: nat) returns (address: Addr)
      requires Placed(parts, heap) && position.number <= |parts|
      modifies this`parts
      ensures Granted(old(parts), heap, position.number, size, parts, address)
    {
      ghost var p, a := GrantExists(parts, heap, position.number, size);
      var grant: (seq<Partition>, Addr) :| Granted(parts, heap, position.number, size, grant.0, grant.1) by {
        assert Granted(parts, heap, position.number, size, (p, a).0, (p, a).1);
      }
      parts, address := grant.0, grant.1;
    }

    // -------------------------------------------------------------- mark phase

    /** Marks the object, pushes it, and registers it when it is a weak reference. */
    method MarkObject(value: Addr, ghost work: set<Addr>)
      requires InMark(View(), work + {value}) && value in live && value in heap
      requires MarkTraced(View(), trace, work + {value})
      modifies this`marked, this`markStack, this`registry, this`steps
      ensures InMark(View(), work) && MarkTraced(View(), trace, work)
      ensures value in old(marked) ==> markStack == old(markStack)
      ensures old(marked) <= marked && value in marked
      ensures marked == old(marked) + {value}
    {
      hide Marking, Precise;
      Advance(1);
      NotForwarded(View(), work + {value}, value);
      StackMarked(View(), work + {value});
      PreciseWork(View(), trace, work, value);
      var obj := heap[value].forward;
      if obj !in marked {
        MarkKeeps(heap, live, roots, locals, marked, markStack, registry, work, value,
                  if heap[value].kind == Weak then registry + [value] else registry);
        marked := marked + {obj};
        markStack := markStack + [value];
        if heap[value].kind == Weak {
          registry := registry + [value];
        }
      } else {
        SkipKeeps(heap, live, roots, locals, marked, markStack, registry, work, value);
      }
    }

    /** Marks the targets of the pointers among `values[lo..hi]`. */
    method MarkValues(values: seq<Value>, lo: nat, hi: nat)
      requires lo <= hi <= |values| && AllIn(values, live) && live <= heap.Keys
      requires InMark(View(), Targets(values, lo, hi)) && MarkTraced(View(), trace, Targets(values, lo, hi))
      modifies this`marked, this`markStack, this`registry, this`steps
      ensures InMark(View(), {}) && MarkTraced(View(), trace, {})
      ensures old(marked) <= marked && (marked == old(marked) ==> markStack == old(markStack))
    {
      hide Marking;
      var i := lo;
      while i < hi
        invariant lo <= i <= hi
        invariant InMark(View(), Targets(values, i, hi)) && MarkTraced(View(), trace, Targets(values, i, hi))
        invariant old(marked) <= marked && (marked == old(marked) ==> markStack == old(markStack))
      {
        assert In(values[i], live);
        if values[i].Ptr? {
          assert Targets(values, i, hi) == Targets(values, i + 1, hi) + {values[i].addr};
          MarkObject(values[i].addr, Targets(values, i + 1, hi));
        } else {
          assert Targets(values, i, hi) == Targets(values, i + 1, hi);
        }
        i := i + 1;
      }
      assert Targets(values, hi, hi) == {};
    }

    /** Records in the array header where the next slice starts. */
    method SliceArray(x: Addr) returns (stop: nat)
      requires x in heap && heap[x].slice <= |heap[x].fields|
      modifies this`heap
      ensures old(heap)[x].slice <= stop <= |old(heap)[x].fields|
      ensures stop == if |old(heap)[x].fields| - old(heap)[x].slice > SLICE_INCREMENT
                      then old(heap)[x].slice + SLICE_INCREMENT else |old(heap)[x].fields|
      ensures heap == WithSlice(old(heap), x, if stop < |old(heap)[x].fields| then stop else 0)
    {
      var start := heap[x].slice;
      if |heap[x].fields| - start > SLICE_INCREMENT {
        stop := start + SLICE_INCREMENT;
        heap := WithSlice(heap, x, stop);
      } else {
        stop := |heap[x].fields|;
        heap := WithSlice(heap, x, 0);
      }
    }

    /** Scans the popped object `x`; a weak target is not followed. */
    method MarkFields(x: Addr)
      requires Common(View()) && x in heap
      requires InMark(View().(stack := markStack + [x]), {}) && MarkTraced(View().(stack := markStack + [x]), trace, {})
      modifies this`heap, this`marked, this`markStack, this`registry, this`steps
      ensures Common(View()) && InMark(View(), {}) && MarkTraced(View(), trace, {})
      // An object has been marked, or less is to be scanned.
      ensures old(marked) < marked
              || (marked == old(marked) && ToVisit(heap, markStack) < ToVisit(old(heap), old(markStack) + [x]))
    {
      hide HeapRight, Marking, NoFlags, Targets, Precise, Distinct, ToVisit;
      StackInHeap(View().(stack := markStack + [x]), markStack, x);
      if heap[x].kind == Weak {
        DistinctRest(markStack, x);
        PopWeakKeeps(heap, live, roots, locals, marked, markStack, registry, x);
        SliceUnset(heap, x);
        ToVisitLess(heap, markStack, x, 0);
      } else {
        MarkSlice(x);
      }
    }

    /** Scans an object, or a slice of an array, which goes back onto the stack if there are more. */
    method MarkSlice(x: Addr)
      requires Common(View()) && x in heap && heap[x].kind != Weak
      requires InMark(View().(stack := markStack + [x]), {}) && MarkTraced(View().(stack := markStack + [x]), trace, {})
      modifies this`heap, this`marked, this`markStack, this`registry, this`steps
      ensures Common(View()) && InMark(View(), {}) && MarkTraced(View(), trace, {})
      ensures old(marked) < marked
              || (marked == old(marked) && ToVisit(heap, markStack) < ToVisit(old(heap), old(markStack) + [x]))
    {
      hide HeapRight, Marking, NoFlags, Targets, Precise, Distinct, ToVisit;
      StackInHeap(View().(stack := markStack + [x]), markStack, x);
      StackTop(View().(stack := markStack + [x]), markStack, x);
      DistinctRest(markStack, x);
      var start := heap[x].slice;
      var fields := heap[x].fields;
      var stop := |fields|;
      ghost var s := View();
      ghost var stack := markStack;
      if heap[x].kind == Array {
        stop := SliceArray(x);
        if heap[x].slice > 0 {
          markStack := markStack + [x];
        }
        Advance(1 + stop - start);
      }
      assert heap == WithSlice(s.heap, x, if stop < |fields| then stop else 0);
      SliceCommon(s, x, if stop < |fields| then stop else 0);
      PopKeeps(s.heap, live, roots, locals, marked, stack, registry, x, stop, heap, markStack);
      PreciseFields(s, trace, x, start, stop);
      MarkValues(fields, start, stop);
      ToVisitLess(s.heap, stack, x, stop);
    }

    /** Every weak reference to an unmarked object is set to null. */
    method CompleteMarking()
      requires Common(View()) && InMark(View(), {}) && markStack == [] && !complete
      modifies this`heap, this`registry, this`complete, this`spec
      ensures complete && registry == []
      ensures Common(View()) && Clearing(View()) && AllTargetsMarked(heap, marked)
      ensures WeakCleared(old(spec), spec)
    {
      hide AllTargetsMarked, HeapRight, InMark, Clearing, WeakCleared, StrongClosed;
      complete := true;
      StartClearing(View());
      ghost var spec0 := spec;
      WeakClearedReflexive(spec);
      while registry != []
        invariant complete && Common(View()) && Clearing(View()) && marked <= ids.Keys
        invariant WeakCleared(spec0, spec) && StrongClosed(spec0, MarkedIds(View()))
        decreases |registry|
      {
        ClearNext(spec0);
      }
      TargetsMarked(View());
    }

    /** Takes the next weak reference from the registry. */
    method ClearNext(ghost spec0: Spec)
      requires registry != [] && marked <= ids.Keys && Common(View()) && Clearing(View())
      requires WeakCleared(spec0, spec) && StrongClosed(spec0, MarkedIds(View()))
      modifies this`heap, this`registry, this`spec
      ensures Common(View()) && Clearing(View()) && WeakCleared(spec0, spec) && |registry| < |old(registry)|
    {
      hide Common, Clearing, WeakCleared, StrongClosed, WithField;
      var w := registry[|registry| - 1];
      var rest := registry[..|registry| - 1];
      assert registry == rest + [w];
      RegisteredWeak(View(), w);
      var target := heap[w].fields[0];
      if target.Ptr? && target.addr !in marked {
        WeakDropped(View(), spec0, w, rest, AObj(Weak, [ANull]));
        heap := WithField(heap, w, 0, Null);
        spec := spec.(objs := spec.objs[ids[w] := AObj(Weak, [ANull])]);
      } else {
        WeakKept(View(), w, rest);
      }
      registry := rest;
    }

    /** Scans from the stack until it is empty or the time is over. */
    method MarkRun()
      requires Common(View()) && InMark(View(), {}) && !complete && phase == Mark && MarkTraced(View(), trace, {})
      modifies this`heap, this`marked, this`markStack, this`registry, this`steps, this`complete, this`spec, this`late
      ensures Common(View()) && WeakCleared(old(spec), spec) && MarkTraced(View(), trace, {})
      ensures complete ==> Clearing(View()) && registry == []
      ensures !complete ==> InMark(View(), {}) && spec == old(spec) && TimeIsOver() && Closer(old(View()), View())
      ensures late <= old(late) + if old(TimeIsOver()) then 1 else 0
    {
      hide Common, InMark, Clearing, WeakCleared, MarkTraced, ToVisit, Closer;
      WeakClearedReflexive(spec);
      while true
        invariant Common(View()) && InMark(View(), {}) && !complete && spec == old(spec) && MarkTraced(View(), trace, {})
        invariant View() == old(View()) || Closer(old(View()), View())
        invariant late <= old(late) + (if old(TimeIsOver()) then 1 else 0)
        invariant TimeIsOver() ==> steps == old(steps) && late <= old(late)
        decreases live - marked, ToVisit(heap, markStack)
      {
        ghost var s := View();
        if markStack == [] {
          CompleteMarking();
          MarksCleared(s, View(), trace);
          return;
        }
        MarkNext();
        if s != old(View()) {
          CloserThen(old(View()), s, View());
        }
        if TimeIsOver() {
          return;
        }
      }
    }

    /** Takes the next object from the stack. */
    method MarkNext()
      requires Common(View()) && InMark(View(), {}) && phase == Mark && MarkTraced(View(), trace, {}) && markStack != []
      modifies this`heap, this`marked, this`markStack, this`registry, this`steps, this`late
      ensures Common(View()) && InMark(View(), {}) && MarkTraced(View(), trace, {})
      ensures Closer(old(View()), View())
      ensures live - marked < old(live - marked)
              || (live - marked == old(live - marked) && ToVisit(heap, markStack) < old(ToVisit(heap, markStack)))
      ensures late == old(late) + if old(TimeIsOver()) then 1 else 0
    {
      hide HeapRight, Marking, MarkTraced, ToVisit, Closer;
      late := late + if TimeIsOver() then 1 else 0;
      ghost var s := View();
      var x := markStack[|markStack| - 1];
      markStack := markStack[..|markStack| - 1];
      assert markStack + [x] == s.stack && View().(stack := markStack + [x]) == s;
      StackInHeap(s, markStack, x);
      MarkFields(x);
      Advance(1);
      MarkCloser(s, View());
    }

    // -------------------------------------------------------------- partition iteration

    /** The next partition from `start` on that holds dynamic space. */
    method SkipEmptyPartitions(start: nat, number: nat) returns (index: nat)
      requires InUse(parts, heap) && start <= number <= |parts| && !Continues(heap, start)
      ensures start <= index <= number && !Continues(heap, index)
      ensures index < number ==> parts[index].HasDynamicSpace()
      ensures forall a :: a in heap ==> !(start <= Part(a) < index)
    {
      hide Part, Span;
      index := start;
      while index != number && !parts[index].HasDynamicSpace()
        invariant start <= index <= number && !Continues(heap, index)
        invariant forall a :: a in heap ==> !(start <= Part(a) < index)
      {
        forall a | a in heap
          ensures Part(a) != index && !(Part(a) < index + 1 < Part(a) + Span(heap[a]))
        {
          assert parts[Part(a)].HasDynamicSpace();
        }
        index := index + 1;
      }
    }

    method NewIterator() returns (it: Iterator)
      requires InUse(parts, heap)
      ensures Positioned(parts, heap, it) && Fresh(heap, marked, it)
      ensures it.number == |parts| && Bounded(heap, it.number)
    {
      forall a | a in heap
        ensures Part(a) < |parts|
      {
      }
      var index := SkipEmptyPartitions(0, |parts|);
      it := Iterator(index, |parts|, PendingAt(marked, index, |parts|));
    }

    method NextPartition()
      requires Placed(parts, heap) && Parked(parts, heap, position) && Bounded(heap, position.number)
      requires position.index < position.number
      modifies this`position
      ensures Positioned(parts, heap, position)
      ensures position.number == old(position.number) && old(position.index) < position.index
      ensures forall a :: a in heap ==> !(old(position.index) < Part(a) < position.index)
      ensures position.pending == PendingAt(marked, position.index, position.number)
    {
      LargeAtIndex(parts, heap, position);
      var length := if parts[position.index].large then Span(heap[position.index * PARTITION_SIZE]) else 1;
      var index := SkipEmptyPartitions(position.index + length, position.number);
      position := Iterator(index, position.number, PendingAt(marked, index, position.number));
    }

    // -------------------------------------------------------------- evacuation phase

    /** Partitions to be evacuated are chosen among those with ordinary objects. How they are ranked
      * and limited is the business of the partitioned heap. */
    method PlanEvacuations() returns (chosen: set<nat>)
      ensures Candidates(parts, |parts|, chosen) && Follows(plan, parts, marked, chosen)
    {
      chosen := set p | p in plan(parts, marked) && Candidates(parts, |parts|, {p});
      forall p | p in chosen
        ensures Candidates(parts, |parts|, {p})
      {
      }
    }

    method StartEvacuation()
      requires Common(View()) && Clearing(View()) && registry == [] && locals == [] && complete && MarkTraced(View(), trace, {})
      modifies this`phase, this`parts, this`position, this`evacuating, this`complete, this`live, this`trace
      ensures Common(View()) && InEvacuation(View()) && MoveTraced(View(), trace) && phase == Evacuate && !complete
      ensures trace == old(trace).(chosen := trace.chosen) && Follows(plan, old(parts), old(marked), trace.chosen)
    {
      hide Follows, Common, MarkTraced, MoveTraced, Clearing, Positioned, Fresh, InUse, Bounded, Candidates, InEvacuation, Flagged;
      ghost var s := View();
      CommonPlaced(s);
      var it := NewIterator();
      var chosen := PlanEvacuations();
      EvacuationStarts(s, chosen, it, trace);
      FlagPartitions(chosen);
      EnterEvacuation(chosen, it);
    }

    method FlagPartitions(chosen: set<nat>)
      modifies this`phase, this`parts, this`evacuating, this`complete
      ensures View() == old(View()).(phase := Evacuate, parts := Flagged(old(parts), chosen), evacuating := chosen != {})
      ensures !complete
    {
      hide Flagged;
      complete := false;
      phase := Evacuate;
      parts := Flagged(parts, chosen);
      evacuating := chosen != {};
    }

    method EnterEvacuation(chosen: set<nat>, it: Iterator)
      modifies this`position, this`live, this`trace
      ensures View() == old(View()).(live := marked, it := it)
      ensures trace == old(trace).(chosen := chosen)
    {
      position := it;
      live := marked;
      trace := trace.(chosen := chosen);
    }

    /** Copies one object out of its partition and forwards the original to the copy. */
    method EvacuateObject(original: Addr) returns (copy: Addr)
      requires Common(View()) && InEvacuation(View().(it := position.(pending := position.pending + {original})))
      requires original !in position.pending && original in live && original in heap && Evacuated(parts, original)
      requires MoveTraced(View(), trace)
      modifies this`heap, this`parts, this`marked, this`live, this`ids, this`steps
      ensures Common(View()) && InEvacuation(View()) && MoveTraced(View(), trace)
      ensures Extends(old(parts), parts)
      ensures copy !in old(heap) && heap == WithCopy(old(heap), original, copy)
      ensures copy in marked && !Evacuated(parts, copy)
    {
      hide HeapRight, Placed, Granted, InEvacuation, Evacuated, Extends, WithCopy, MoveTraced;
      ghost var s := View().(it := position.(pending := position.pending + {original}));
      CommonPlaced(View());
      MoveTracedSame(View(), s, trace);
      copy := AllocWords(heap[original].size);
      CopyTo(original, copy, s);
      var cost := EvacuationCost();
      Advance(cost);
    }

    /** Copies the object to new space, forwards the original and marks the copy, so that the
      * update phase sees it. */
    method CopyTo(original: Addr, copy: Addr, ghost s: State)
      requires s == View().(parts := s.parts, it := position.(pending := position.pending + {original}))
      requires Common(s) && InEvacuation(s) && MoveTraced(s, trace) && original !in position.pending
      requires original in s.live && original in s.heap && Evacuated(s.parts, original)
      requires Granted(s.parts, s.heap, s.it.number, s.heap[original].size, parts, copy)
      modifies this`heap, this`marked, this`live, this`ids
      ensures Common(View()) && InEvacuation(View()) && MoveTraced(View(), trace) && Extends(s.parts, parts)
      ensures copy !in old(heap) && heap == WithCopy(old(heap), original, copy)
      ensures copy in marked && !Evacuated(parts, copy)
    {
      hide Common, Placed, Granted, InEvacuation, Evacuated, Extends, WithCopy, Precise, ChosenFlagged;
      assert s.it.(pending := s.it.pending - {original}) == position;
      EvacuateStep(s, original, parts, copy);
      CommonPlaced(s);
      PreciseCopy(trace, spec, ids, live, original, copy);
      ChosenExtends(s.parts, parts, trace.chosen);
      heap := WithCopy(heap, original, copy);
      marked := marked + {copy};
      live := live + {copy};
      ids := ids[copy := ids[original]];
    }

    /** The time that a copy takes grows with the object; only that it takes some matters. */
    method EvacuationCost() returns (cost: nat)
      ensures cost >= 1
    {
      cost :| cost >= 1;
    }

    /** Copies the next object of the partition. */
    method EvacuateNext()
      requires Common(View()) && InEvacuation(View()) && MoveTraced(View(), trace) && position.index < |parts|
      requires parts[position.index].evacuate && position.pending != {}
      modifies this`heap, this`parts, this`marked, this`live, this`ids, this`steps, this`position, this`late
      ensures Common(View()) && InEvacuation(View()) && MoveTraced(View(), trace)
      ensures position.index == old(position.index) && position.number == old(position.number)
      ensures position.index < |parts| && parts[position.index].evacuate
      ensures position.pending < old(position.pending)
      ensures late == old(late) + if old(TimeIsOver()) then 1 else 0
    {
      hide HeapRight, Evacuating, Positioned, Evacuated, WithCopy, MoveTraced, Extends;
      late := late + if TimeIsOver() then 1 else 0;
      var x := Least(position.pending);
      ghost var s := View();
      PendingObject(s, x);
      position := position.(pending := position.pending - {x});
      assert position.pending + {x} == s.it.pending;
      assert View().(it := position.(pending := position.pending + {x})) == s;
      MoveTracedSame(s, View(), trace);
      var copy := EvacuateObject(x);
      ExtendsLength(s.parts, parts);
    }

    method EvacuatePartition()
      requires Common(View()) && InEvacuation(View()) && MoveTraced(View(), trace) && position.index < position.number
      requires parts[position.index].evacuate
      modifies this`heap, this`parts, this`marked, this`live, this`ids, this`steps, this`position, this`late
      ensures Common(View()) && InEvacuation(View()) && MoveTraced(View(), trace)
      ensures position.index == old(position.index) && position.number == old(position.number)
      ensures position.index < |parts| && parts[position.index].evacuate
      ensures !TimeIsOver() ==> position.pending == {}
      ensures position.pending < old(position.pending) || (position.pending == old(position.pending) && steps == old(steps))
      ensures late <= old(late)
    {
      hide HeapRight, Evacuating, Positioned, MoveTraced;
      PositionInRange(View());
      while position.pending != {} && !TimeIsOver()
        invariant Common(View()) && InEvacuation(View()) && MoveTraced(View(), trace)
        invariant position.pending < old(position.pending) || (position.pending == old(position.pending) && steps == old(steps))
        invariant position.index == old(position.index) && position.number == old(position.number) && late <= old(late)
        invariant position.index < |parts| && parts[position.index].evacuate
        decreases position.pending
      {
        EvacuateNext();
      }
    }

    method EvacuationRun()
      requires Common(View()) && InEvacuation(View()) && MoveTraced(View(), trace) && phase == Evacuate
      modifies this`heap, this`parts, this`marked, this`live, this`ids, this`steps, this`position, this`late
      ensures Common(View()) && InEvacuation(View()) && MoveTraced(View(), trace)
      ensures position.index != position.number ==> TimeIsOver() && (old(TimeIsOver()) || Closer(old(View()), View()))
      ensures late <= old(late)
    {
      hide HeapRight, Evacuating, Positioned, MoveTraced, Closer;
      while position.index < position.number
        invariant Common(View()) && InEvacuation(View()) && MoveTraced(View(), trace) && late <= old(late)
        invariant Further(old(position), position) || (position == old(position) && steps == old(steps))
        decreases position.number - position.index
      {
        PositionInRange(View());
        if parts[position.index].evacuate {
          EvacuatePartition();
          if TimeIsOver() {
            break;
          }
        }
        ghost var s := View();
        EvacuationParked(s);
        CommonPlaced(s);
        NextPartition();
        EvacuationNext(s, position);
        MoveTracedSame(s, View(), trace);
      }
      PositionInRange(View());
      FurtherCloser(old(View()), View());
    }

    // -------------------------------------------------------------- update phase

    method FreeLargeObject(x: Addr)
      requires Common(View()) && Collecting(View()) && x in heap && x !in marked && Span(heap[x]) > 1
      modifies this`heap, this`parts
      ensures heap == Without(old(heap), x)
      ensures parts == FreedRange(old(parts), Part(x), Part(x) + Span(old(heap)[x]))
      ensures Common(View()) && Collecting(View()) && SameEvacuation(old(parts), parts)
    {
      hide Common, Collecting, Part, Span, SameEvacuation;
      FreeLarge(View(), x);
      FreedSame(View(), x);
      ghost var s := View();
      ObjectFits(s, x);
      var lo, hi := Part(x), Part(x) + Span(heap[x]);
      var index := lo;
      while index < hi
        invariant lo <= index <= hi && parts == FreedRange(s.parts, lo, index)
        invariant heap == s.heap
      {
        parts := parts[index := Partition(true, false, false, parts[index].pinned, false, false)];
        index := index + 1;
      }
      heap := Without(heap, x);
    }

    /** Releases every large object that is not marked. */
    method CollectLargeObjects()
      requires Common(View()) && Collecting(View())
      modifies this`heap, this`parts
      ensures Common(View()) && Collecting(View())
      ensures heap == LargeCollected(old(heap), marked, |parts|)
      ensures SameEvacuation(old(parts), parts)
    {
      hide HeapRight, Collecting, LargeCollected, Continues, FreedRange, Without, SameEvacuation;
      var index: nat := 0;
      ghost var h0, parts0 := heap, parts;
      CollectedNone(heap, marked);
      SameEvacuationThen(parts, parts, parts);
      while index < |parts|
        invariant Common(View()) && Collecting(View()) && SameEvacuation(parts0, parts)
        invariant index <= |parts| && !Continues(heap, index)
        invariant heap == LargeCollected(h0, marked, index)
      {
        CommonPlaced(View());
        LargeAtIndex(parts, heap, Iterator(index, |parts|, {}));
        var length: nat := 1;
        ghost var before, large := heap, parts[index].large;
        if parts[index].large {
          var x := index * PARTITION_SIZE;
          length := Span(heap[x]);
          if x !in marked {
            ghost var parts1 := parts;
            FreeLargeObject(x);
            SameEvacuationThen(parts0, parts1, parts);
          }
        }
        CollectedStep(h0, marked, index, length, large, heap);
        FewerContinue(before, heap, index + length);
        index := index + length;
      }
    }

    method PlanUpdates()
      modifies this`parts
      ensures parts == UpdatePlan(old(parts))
    {
      ghost var before := parts;
      var index := 0;
      while index < |parts|
        invariant index <= |parts| == |before|
        invariant forall p :: 0 <= p < index ==> parts[p] == before[p].(update := !before[p].free && !before[p].evacuate)
        invariant forall p :: index <= p < |parts| ==> parts[p] == before[p]
      {
        parts := parts[index := parts[index].(update := !parts[index].free && !parts[index].evacuate)];
        index := index + 1;
      }
      assert parts == UpdatePlan(before);
    }

    /** Every root that points to a forwarded object is redirected. `s` is the state before the
      * partitions were flagged for the update. */
    method UpdateRoots(ghost s: State)
      requires Common(s) && Collecting(s) && s.heap == heap && s.roots == roots
      modifies this`roots, this`steps
      ensures Common(s.(roots := roots)) && Collecting(s.(roots := roots))
      ensures AllClean(s.parts, roots) && roots == ResolveAll(heap, old(roots))
    {
      hide Common, Collecting, Clean, Resolve;
      var i := 0;
      while i < |roots|
        invariant i <= |roots| == |old(roots)|
        invariant Common(s.(roots := roots)) && Collecting(s.(roots := roots))
        invariant forall k :: 0 <= k < i ==> roots[k] == Resolve(heap, old(roots)[k]) && Clean(s.parts, roots[k])
        invariant forall k :: i <= k < |roots| ==> roots[k] == old(roots)[k]
      {
        RootRedirected(s.(roots := roots), i);
        roots := roots[i := Resolve(heap, roots[i])];
        Advance(1);
        i := i + 1;
      }
    }

    method StartUpdating()
      requires Common(View()) && InEvacuation(View()) && position.index == position.number && MoveTraced(View(), trace)
      modifies this`phase, this`parts, this`heap, this`position, this`roots, this`steps
      ensures Common(View()) && InUpdate(View()) && phase == Update
      ensures MoveTraced(View(), trace) && LargeLive(heap, live)
    {
      hide Common, Collecting, InEvacuation, InUpdate, Positioned, Fresh, InUse, Bounded, Clean, UpdatePlan, Precise, ChosenFlagged;
      hide LargeLive, LargeCollected, SameEvacuation;
      ghost var parts0 := parts;
      EnterUpdate();
      CollectLargeObjects();
      ghost var s := View();
      LargeGone(s, trace, parts0);
      PlanUpdates();
      UpdateRoots(s);
      GcCycle.StartUpdating(s.(roots := roots));
      ChosenPlanned(s.parts, trace.chosen);
    }

    method EnterUpdate()
      requires Common(View()) && InEvacuation(View()) && position.index == position.number
      modifies this`phase, this`position
      ensures Common(View()) && Collecting(View()) && phase == Update
    {
      hide Common, Collecting, InEvacuation, Positioned, Fresh, InUse, Bounded;
      ghost var s := View();
      CommonPlaced(s);
      phase := Update;
      var it := NewIterator();
      StartCollecting(s, it);
      position := it;
      CollectingSame(s.(it := it), View());
    }

    /** Resolves the pointers of the next slice of `x`, of all fields when `x` is no array. */
    method UpdateSlice(x: Addr)
      requires Common(View()) && InUpdate(View()) && ToUpdate(View(), x) && evacuating
      modifies this`heap, this`steps, this`late
      ensures Common(View()) && InUpdate(View()) && ToUpdate(View(), x)
      ensures heap[x].slice == 0 ==> AllClean(parts, heap[x].fields)
      ensures heap[x].slice > 0 ==> x in old(heap) && old(heap)[x].slice < heap[x].slice
      ensures x in old(heap) && |heap[x].fields| == |old(heap)[x].fields|
      ensures heap[x].slice <= |heap[x].fields|
      ensures SameShape(old(heap), heap)
      ensures late == old(late) + if old(TimeIsOver()) then 1 else 0
    {
      hide Common, InUpdate, Resolve, Clean, WithField, WithSlice, SameShape;
      late := late + if TimeIsOver() then 1 else 0;
      ghost var s := View();
      ShapeItself(heap);
      SliceInRange(s, x);
      var start := heap[x].slice;
      var stop := |heap[x].fields|;
      ghost var g: Heap := heap;
      ghost var next: nat := 0;
      if heap[x].kind == Array {
        stop := SliceArray(x);
        next := if stop < |g[x].fields| then stop else 0;
        Advance(1 + stop - start);
      } else {
        SliceUnset(heap, x);
      }
      var i := start;
      while i < stop
        invariant ToUpdate(s.(heap := g), x) && late == old(late) + if old(TimeIsOver()) then 1 else 0
        invariant start <= i <= stop <= |g[x].fields| && heap == WithSlice(g, x, next) && g[x].kind == s.heap[x].kind
        invariant |g[x].fields| == |s.heap[x].fields| && SameShape(s.heap, g)
        invariant Common(s.(heap := g)) && InUpdate(s.(heap := g))
        invariant forall k :: 0 <= k < i ==> Clean(parts, g[x].fields[k])
      {
        SlicedUpdate(g, x, next, i);
        UpdateFieldStep(s.(heap := g), x, i);
        ShapeKept(s.heap, g, x, i, Resolve(g, g[x].fields[i]));
        g := WithField(g, x, i, Resolve(g, g[x].fields[i]));
        heap := WithField(heap, x, i, Resolve(heap, heap[x].fields[i]));
        Advance(1);
        i := i + 1;
      }
      ShapeSliced(s.heap, g, x, next);
      UpdateSliceEnd(s.(heap := g), x, next);
    }

    /** Updates slice after slice until the object is done or the time is over. */
    method UpdateFields(x: Addr)
      requires Common(View()) && InUpdate(View()) && ToUpdate(View(), x) && evacuating
      modifies this`heap, this`steps, this`late
      ensures Common(View()) && InUpdate(View()) && ToUpdate(View(), x)
      ensures heap[x].slice == 0 ==> AllClean(parts, heap[x].fields)
      ensures heap[x].slice > 0 ==> TimeIsOver()
      ensures SameShape(old(heap), heap) && NextSlice(old(heap), heap, x)
      ensures late <= old(late) + if old(TimeIsOver()) then 1 else 0
    {
      hide Common, InUpdate, Clean;
      SliceInRange(View(), x);
      while true
        invariant SameShape(old(heap), heap) && (heap == old(heap) || NextSlice(old(heap), heap, x))
        invariant late <= old(late) + (if old(TimeIsOver()) then 1 else 0)
        invariant TimeIsOver() ==> steps == old(steps) && late <= old(late)
        invariant Common(View()) && InUpdate(View()) && ToUpdate(View(), x) && heap[x].slice <= |heap[x].fields|
        decreases |heap[x].fields| - heap[x].slice
      {
        UpdateSlice(x);
        if heap[x].slice == 0 || TimeIsOver() {
          return;
        }
      }
    }

    method UpdateObject(x: Addr)
      requires Common(View()) && InUpdate(View()) && ToUpdate(View(), x)
      modifies this`heap, this`steps, this`late
      ensures Common(View()) && InUpdate(View()) && ToUpdate(View(), x)
      ensures heap[x].slice == 0 ==> AllClean(parts, heap[x].fields)
      ensures heap[x].slice > 0 ==> TimeIsOver()
      ensures SameShape(old(heap), heap) && NextSlice(old(heap), heap, x)
      ensures late <= old(late) + if old(TimeIsOver()) then 1 else 0
    {
      hide Common, InUpdate, Clean, AllClean;
      if evacuating {
        UpdateFields(x);
      } else {
        NothingStale(View(), x);
      }
      if TimeIsOver() {
        return;
      }
      Advance(1);
    }

    /** Updates the next object of the partition, which is not done if it is an array and the time is over. */
    method UpdateNextObject() returns (done: bool)
      requires position.index < |parts| && parts[position.index].update && position.pending != {}
      requires Common(View()) && InUpdate(View())
      modifies this`heap, this`steps, this`position, this`late
      ensures position.index == old(position.index) && position.number == old(position.number)
      ensures done ==> position.pending < old(position.pending)
      ensures !done ==> TimeIsOver() && position == old(position)
      ensures !done ==> ToUpdateNext(heap, position.pending) < old(ToUpdateNext(heap, position.pending))
      ensures late <= old(late) + if old(TimeIsOver()) then 1 else 0
      ensures Common(View()) && InUpdate(View()) && SameShape(old(heap), heap)
    {
      hide Common, InUpdate, Clean, AllClean, ToUpdateNext, SameShape;
      var x := Least(position.pending);
      PendingUpdate(View(), x);
      ghost var before := heap;
      UpdateObject(x);
      if TimeIsOver() && heap[x].slice > 0 {
        SliceNext(before, heap, position.pending, x);
        return false;
      }
      ObjectUpdated(View(), x);
      position := position.(pending := position.pending - {x});
      done := true;
    }

    method UpdatePartition()
      requires Common(View()) && InUpdate(View()) && position.index < |parts| && parts[position.index].update
      modifies this`heap, this`steps, this`position, this`late
      ensures Common(View()) && InUpdate(View()) && SameShape(old(heap), heap)
      ensures position.index == old(position.index) && position.number == old(position.number)
      ensures !TimeIsOver() ==> position.pending == {}
      ensures position.pending < old(position.pending)
              || (position.pending == old(position.pending)
                  && (steps == old(steps) || ToUpdateNext(heap, position.pending) < old(ToUpdateNext(heap, position.pending))))
      ensures late <= old(late)
    {
      hide Common, InUpdate, ToUpdateNext;
      while position.pending != {} && !TimeIsOver()
        invariant Common(View()) && InUpdate(View()) && SameShape(old(heap), heap)
        invariant position.pending < old(position.pending)
                  || (position.pending == old(position.pending) && steps == old(steps) && heap == old(heap))
        invariant position.index == old(position.index) && position.number == old(position.number) && late <= old(late)
        decreases position.pending
      {
        var done := UpdateNextObject();
        if !done {
          break;
        }
      }
    }

    method UpdateRun()
      requires Common(View()) && InUpdate(View()) && phase == Update
      modifies this`heap, this`steps, this`position, this`late
      ensures Sound(View()) && SameShape(old(heap), heap)
      ensures position.index != position.number ==> TimeIsOver() && (old(TimeIsOver()) || Closer(old(View()), View()))
      ensures late <= old(late)
    {
      hide Common, InUpdate, Positioned, Closer, ToUpdateNext;
      while position.index < position.number
        invariant Common(View()) && InUpdate(View()) && phase == Update && SameShape(old(heap), heap) && late <= old(late)
        invariant Further(old(position), position) || (position == old(position) && steps == old(steps) && heap == old(heap))
        decreases position.number - position.index
      {
        UpdateInRange(View());
        if parts[position.index].update {
          UpdatePartition();
          if TimeIsOver() {
            UpdateInRange(View());
            FurtherCloser(old(View()), View());
            SliceCloser(old(View()), View());
            return;
          }
        }
        ghost var s := View();
        CommonPlaced(s);
        UpdateInRange(s);
        NextPartition();
        UpdateNext(s, position);
      }
      UpdateInRange(View());
    }

    // -------------------------------------------------------------- end of the run

    /** Releases the evacuated partitions, and those that held the mark bitmaps. */
    method CompleteCollection()
      modifies this`parts, this`heap, this`evacuating, this`marked
      ensures parts == Released(old(parts)) && heap == Retained(old(parts), old(heap))
      ensures !evacuating && marked == {}
    {
      ghost var before := parts;
      heap := Retained(parts, heap);
      var index := 0;
      while index < |parts|
        invariant index <= |parts| == |before| && heap == Retained(before, old(heap))
        invariant forall p :: 0 <= p < index ==> parts[p] == Released(before)[p]
        invariant forall p :: index <= p < |parts| ==> parts[p] == before[p]
      {
        if parts[index].evacuate || parts[index].temporary {
          parts := parts[index := Partition(true, false, false, parts[index].pinned, false, false)];
        } else {
          parts := parts[index := parts[index].(update := false)];
        }
        index := index + 1;
      }
      assert parts == Released(before);
      evacuating := false;
      marked := {};
    }

    method CompleteRun()
      requires Sound(View()) && phase == Update && position.index == position.number && locals == []
      requires MoveTraced(View(), trace) && LargeLive(heap, live)
      modifies this`phase, this`parts, this`heap, this`evacuating, this`marked, this`live
      ensures Sound(View()) && phase == Pause && Collected(View(), trace)
      // What is still live survives, at its address and unaltered.
      ensures live == set a | a in old(live) && !Evacuated(old(parts), a)
      ensures forall a :: a in live ==> a in old(heap) && a in heap && heap[a] == old(heap)[a]
    {
      hide Common, InUpdate, InPause, Released, Retained, Collected, MoveTraced, LargeLive;
      RunCompleted(View(), trace);
      FinishRun();
    }

    method FinishRun()
      modifies this`phase, this`parts, this`heap, this`evacuating, this`marked, this`live
      ensures View() == AtPause(old(View()))
    {
      hide Released, Retained;
      live := set a | a in live && !Evacuated(parts, a);
      CompleteCollection();
      phase := Pause;
    }

    // -------------------------------------------------------------- start of a run

    /** Free partitions, or new ones at the end, are put aside for the mark bitmaps. */
    method ReserveBitmaps()
      modifies this`parts
      ensures BitmapsReserved(old(parts), parts)
    {
      var reserved: seq<Partition> :| BitmapsReserved(parts, reserved) by {
        assert BitmapsReserved(parts, parts);
      }
      parts := reserved;
    }

    method MarkRoots()
      requires AllIn(roots, live) && live <= heap.Keys
      requires InMark(View(), Targets(roots, 0, |roots|)) && MarkTraced(View(), trace, Targets(roots, 0, |roots|))
      modifies this`marked, this`markStack, this`registry, this`steps
      ensures InMark(View(), {}) && MarkTraced(View(), trace, {})
    {
      hide Marking, MarkTraced;
      var i := 0;
      while i < |roots|
        invariant i <= |roots| && InMark(View(), Targets(roots, i, |roots|))
        invariant MarkTraced(View(), trace, Targets(roots, i, |roots|))
      {
        assert In(roots[i], live);
        if roots[i].Ptr? {
          assert Targets(roots, i, |roots|) == Targets(roots, i + 1, |roots|) + {roots[i].addr};
          MarkObject(roots[i].addr, Targets(roots, i + 1, |roots|));
          Advance(1);
        } else {
          assert Targets(roots, i, |roots|) == Targets(roots, i + 1, |roots|);
        }
        i := i + 1;
      }
      assert Targets(roots, |roots|, |roots|) == {};
    }

    method EnterMarking()
      modifies this`phase, this`complete, this`trace
      ensures View() == old(View()).(phase := Mark)
      ensures trace == Trace(spec, {}, {}) && !complete
    {
      phase := Mark;
      complete := false;
      trace := Trace(spec, {}, {});
    }

    method ClearMarks()
      modifies this`marked, this`markStack, this`registry
      ensures View() == old(View()).(marked := {}, stack := [], registry := [])
    {
      marked, markStack, registry := {}, [], [];
    }

    method BeginMarking()
      modifies this`phase, this`marked, this`markStack, this`registry, this`complete, this`trace
      ensures View() == old(View()).(phase := Mark, marked := {}, stack := [], registry := [])
      ensures trace == Trace(spec, {}, {}) && !complete
    {
      EnterMarking();
      ClearMarks();
    }

    method StartMarking()
      requires Sound(View()) && phase == Pause && locals == []
      modifies this`phase, this`parts, this`marked, this`markStack, this`registry, this`complete, this`steps, this`trace
      ensures Common(View()) && InMark(View(), {}) && MarkTraced(View(), trace, {}) && phase == Mark && !complete
      ensures trace == Trace(spec, {}, {})
    {
      hide HeapRight, InPause, InMark, BitmapsReserved, Targets, MarkTraced, Sound;
      ghost var s := View();
      ReserveBitmaps();
      MarkingStarts(s, parts);
      BeginMarking();
      MarkRoots();
    }

    /** One increment of the collector on an empty call stack. Whatever the collector does, the
      * program observes at most that weak references to unreachable objects become null. A collection
      * is started or gets on, and is completed unless the time is over; then nothing is kept that was not
      * reachable when it started, or has been allocated or loaded from a weak reference since. */
    method EmptyCallStackIncrement()
      requires Valid() && locals == []
      modifies this
      ensures Valid() && locals == []
      ensures WeakCleared(old(spec), spec)
      // It stops before the end only when the time is over, and then begins at most one more object or slice.
      ensures (phase == Pause || TimeIsOver()) && late <= 1
      // The time grows with the allocations since the last increment.
      ensures var time := INCREMENT_BASE_LIMIT + old(allocationCount) * INCREMENT_ALLOCATION_FACTOR;
              limit == (if time > USIZE_MAX then USIZE_MAX else time) && allocationCount == 0
      ensures phase == Pause ==> Collected(View(), trace)
      ensures old(phase) == Pause ==> trace.origin == old(spec) && trace.entered == {}
      ensures old(phase) != Pause ==>
                && trace.origin == old(trace).origin && trace.entered == old(trace).entered
                && (phase == Pause || Closer(old(View()), View()))
    {
      hide Common, InPause, InMark, InEvacuation, InUpdate, WeakCleared, Positioned, Closer, Collected, MarkTraced, MoveTraced, LargeLive;
      limit := SaturatingAdd(INCREMENT_BASE_LIMIT, SaturatingMul(allocationCount, INCREMENT_ALLOCATION_FACTOR));
      allocationCount, steps, late := 0, 0, 0;
      MarkAndEvacuate();
      ghost var s := View();
      RelocateAndUpdate();
      Onward(old(View()), s, View());
    }

    /** The part of an increment up to the start of the evacuation: weak references may be cleared. */
    method MarkAndEvacuate()
      requires Valid() && locals == []
      modifies this
      ensures Common(View()) && locals == [] && !complete && limit == old(limit) && allocationCount == old(allocationCount)
      ensures phase == Mark ==> InMark(View(), {}) && MarkTraced(View(), trace, {}) && TimeIsOver()
      ensures phase == Evacuate ==> InEvacuation(View()) && MoveTraced(View(), trace)
      ensures phase == Update ==> InUpdate(View()) && Positioned(parts, heap, position) && MoveTraced(View(), trace) && LargeLive(heap, live)
      ensures phase != Pause && phase != Stop && WeakCleared(old(spec), spec)
      ensures old(phase) == Pause ==> trace.origin == old(spec) && trace.entered == {}
      ensures old(phase) != Pause ==> trace.origin == old(trace).origin && trace.entered == old(trace).entered
      ensures old(phase) == Mark ==> Closer(old(View()), View())
      ensures old(phase) == Evacuate || old(phase) == Update ==> View() == old(View()) && steps == old(steps)
      ensures late <= old(late) + 1
    {
      hide Common, InPause, InMark, InEvacuation, InUpdate, Clearing, WeakCleared, Positioned, Closer, MarkTraced, MoveTraced, LargeLive;
      WeakClearedReflexive(spec);
      if phase == Pause {
        StartMarking();
      }
      if phase == Mark {
        MarkRun();
        if complete {
          StartEvacuation();
          RankCloser(old(View()), View());
        }
      }
    }

    /** The part of an increment that moves objects: the program observes nothing of it. */
    method RelocateAndUpdate()
      requires Common(View()) && locals == [] && !complete
      requires phase == Mark ==> InMark(View(), {}) && MarkTraced(View(), trace, {}) && TimeIsOver()
      requires phase == Evacuate ==> InEvacuation(View()) && MoveTraced(View(), trace)
      requires phase == Update ==> InUpdate(View()) && Positioned(parts, heap, position) && MoveTraced(View(), trace) && LargeLive(heap, live)
      requires phase != Pause && phase != Stop
      modifies this
      ensures Valid() && locals == [] && spec == old(spec) && trace == old(trace)
      ensures limit == old(limit) && allocationCount == old(allocationCount)
      ensures phase == Pause || TimeIsOver()
      ensures phase == Pause ==> Collected(View(), trace)
      ensures old(phase) == Mark ==> View() == old(View())
      ensures Rank(phase) <= Rank(old(phase))
      ensures old(phase) != Mark && !old(TimeIsOver()) ==> phase == Pause || Closer(old(View()), View())
      ensures late <= old(late)
    {
      hide Common, InPause, InMark, InEvacuation, InUpdate, Positioned, Closer, Collected, MarkTraced, MoveTraced, LargeLive, SameShape;
      if phase == Evacuate {
        EvacuationRun();
      }
      if phase == Evacuate && position.index == position.number {
        StartUpdating();
      }
      if phase == Update {
        FinishUpdate();
      }
      RankCloser(old(View()), View());
    }

    /** The update phase, and the end of the collection if it is finished. */
    method FinishUpdate()
      requires Common(View()) && InUpdate(View()) && phase == Update && locals == [] && !complete
      requires MoveTraced(View(), trace) && LargeLive(heap, live)
      modifies this`heap, this`steps, this`position, this`phase, this`parts, this`evacuating, this`marked, this`live, this`late
      ensures Valid() && (phase == Update || phase == Pause)
      ensures phase == Pause || TimeIsOver()
      ensures phase == Pause ==> Collected(View(), trace)
      ensures phase == Pause || old(TimeIsOver()) || Closer(old(View()), View())
      ensures late <= old(late)
    {
      hide Common, InPause, InUpdate, Positioned, Closer, Collected, MoveTraced, LargeLive;
      ghost var s := View();
      UpdateRun();
      MoveKept(s, View(), trace);
      if position.index == position.number {
        CompleteRun();
      }
    }

    /** Increments without a step of the program in between. Started in a pause, they leave exactly what was
      * reachable, and weak references to nothing else. */
    method CollectGarbage()
      requires Valid() && locals == []
      modifies this
      ensures Valid() && locals == [] && phase == Pause
      ensures WeakCleared(old(spec), spec) && Collected(View(), trace)
      ensures old(phase) == Pause ==> ExactlyReachable(old(spec), View())
    {
      hide Common, InPause, InMark, InEvacuation, InUpdate, Positioned, Traced, WeakCleared, Collected, Unmarked, Distance, Waiting, Slice;
      EmptyCallStackIncrement();
      while phase != Pause
        invariant Valid() && locals == [] && WeakCleared(old(spec), spec)
        invariant phase == Pause ==> Collected(View(), trace)
        invariant old(phase) == Pause ==> trace.origin == old(spec) && trace.entered == {}
        decreases Rank(phase), Unmarked(View()), Distance(View()), Waiting(View()), Slice(View())
      {
        ghost var s := View();
        EmptyCallStackIncrement();
        WeakClearedThen(old(spec), s.spec, spec);
      }
      if old(phase) == Pause {
        OnlyReachableKept(View(), trace);
      }
    }

    // -------------------------------------------------------------- barriers

    /** The common part of the barriers before an overwrite and after the load of a weak reference:
      * in the mark phase the value's target gets marked. */
    method SnapshotBarrier(value: Value)
      requires Valid() && In(value, live)
      requires phase == Mark && value.Ptr? && value.addr in ids ==> Needful(trace, ids[value.addr])
      modifies this`marked, this`markStack, this`registry, this`steps
      ensures Valid()
      ensures phase == Mark ==> In(value, marked)
      ensures phase != Mark || !value.Ptr? ==> marked == old(marked)
    {
      hide HeapRight, InPause, InMark, InEvacuation, InUpdate, Positioned, MarkTraced, MoveTraced, Needful;
      if phase == Mark && value.Ptr? {
        BarrierWork(View(), value.addr);
        BarrierTraced(View(), trace, value.addr);
        MarkObject(value.addr, {});
      }
    }

    /** Overwrites field `i` of `x`. */
    method WriteWithBarrier(x: Addr, i: nat, value: Value)
      requires Valid() && x in heap && i < |heap[x].fields| && In(heap[x].fields[i], live)
      requires var v := heap[x].fields[i]; phase == Mark && v.Ptr? && v.addr in ids ==> Needful(trace, ids[v.addr])
      modifies this`heap, this`marked, this`markStack, this`registry, this`steps
      ensures !complete && Sound(View().(heap := old(heap))) && Traced(View().(heap := old(heap)), trace)
      ensures phase == Mark ==> In(old(heap)[x].fields[i], marked)
      ensures heap == WithField(old(heap), x, i, Resolve(old(heap), value))
    {
      hide Common, InPause, InMark, InEvacuation, InUpdate, Positioned, Resolve, Traced, Needful;
      SnapshotBarrier(heap[x].fields[i]);
      heap := WithField(heap, x, i, Resolve(heap, value));
    }

    /** Resolves the forwarding of all pointers in the new object `x`. */
    method UpdateNewAllocation(x: Addr)
      requires x in heap
      modifies this`heap
      ensures heap == old(heap)[x := old(heap)[x].(fields := ResolveAll(old(heap), old(heap)[x].fields))]
    {
      hide Resolve;
      var before := heap;
      var i := 0;
      while i < |before[x].fields|
        invariant i <= |before[x].fields| && x in heap && |heap[x].fields| == |before[x].fields|
        invariant heap == before[x := before[x].(fields := heap[x].fields)]
        invariant forall k :: 0 <= k < i ==> heap[x].fields[k] == Resolve(before, before[x].fields[k])
        invariant forall k :: i <= k < |before[x].fields| ==> heap[x].fields[k] == before[x].fields[k]
      {
        ResolveOther(before, heap, x, before[x].fields[i]);
        heap := WithField(heap, x, i, Resolve(heap, heap[x].fields[i]));
        i := i + 1;
      }
      assert heap[x].fields == ResolveAll(before, before[x].fields);
    }

    /** Marks a new object, or resolves its fields, as the phase demands. */
    method AllocationBarrier(x: Addr)
      requires x in heap
      modifies this`heap, this`marked, this`allocationCount
      ensures marked == MarksAfterBarrier(phase, old(marked), x)
      ensures heap == HeapAfterBarrier(phase, evacuating, old(heap), x)
      ensures allocationCount == if phase == Pause then old(allocationCount) else (old(allocationCount) + 1) % (USIZE_MAX + 1)
    {
      if phase != Pause {
        if phase == Mark || phase == Evacuate {
          marked := marked + {x};
        } else if phase == Update {
          if evacuating {
            UpdateNewAllocation(x);
          }
        }
        allocationCount := (allocationCount + 1) % (USIZE_MAX + 1);
      }
    }

    // -------------------------------------------------------------- the program

    /** Local `l` points to an object, weak or not as asked. */
    predicate Holds(l: nat, weak: bool)
      reads this`locals, this`heap
    {
      && l < |locals| && locals[l].Ptr? && locals[l].addr in heap
      && heap[locals[l].addr].forward in heap
      && (heap[heap[locals[l].addr].forward].kind == Weak <==> weak)
    }

    /** The current address of the object that a local points to. */
    function ObjectOf(l: nat): (x: Addr)
      requires l < |locals| && locals[l].Ptr? && locals[l].addr in heap
      reads this`locals, this`heap
    {
      heap[locals[l].addr].forward
    }

    method PushScalar(raw: nat)
      requires Valid()
      modifies this`locals, this`spec
      ensures Valid() && Step(old(spec), Action.PushScalar(raw), spec)
    {
      hide Common, InPause, InMark, InEvacuation, InUpdate, Positioned, Traced;
      ghost var s := View();
      PushScalarKeeps(View(), raw);
      locals := locals + [Scalar(raw)];
      spec := Push(spec, AScalar(raw));
      TracedStep(s, trace, Action.PushScalar(raw), View());
    }

    method ReadRoot(r: nat)
      requires Valid()
      modifies this`locals, this`spec
      ensures Valid() && Step(old(spec), Action.ReadRoot(r), spec)
    {
      hide Common, InPause, InMark, InEvacuation, InUpdate, Positioned, Traced;
      RootCount(View());
      if r < |roots| {
        ghost var s := View();
        ReadRootKeeps(View(), r);
        locals := locals + [roots[r]];
        spec := Push(spec, spec.roots[r]);
        TracedStep(s, trace, Action.ReadRoot(r), View());
      }
    }

    method WriteRoot(r: nat, m: nat)
      requires Valid()
      modifies this`roots, this`marked, this`markStack, this`registry, this`steps, this`spec
      ensures Valid() && Step(old(spec), Action.WriteRoot(r, m), spec)
    {
      hide Common, InPause, InMark, InEvacuation, InUpdate, Positioned, Resolve, Traced, Needful;
      RootCount(View());
      LocalCount(View());
      if r < |roots| && m < |locals| {
        RootTraced(View(), trace, r);
        SnapshotBarrier(roots[r]);
        ghost var s := View();
        WriteRootKeeps(View(), r, m);
        roots := roots[r := Resolve(heap, locals[m])];
        spec := spec.(roots := spec.roots[r := spec.locals[m]]);
        TracedStep(s, trace, Action.WriteRoot(r, m), View());
      }
    }

    method ReadField(l: nat, i: nat)
      requires Valid()
      modifies this`locals, this`spec
      ensures Valid() && Step(old(spec), Action.ReadField(l, i), spec)
    {
      hide Common, InPause, InMark, InEvacuation, InUpdate, Positioned, Traced;
      HoldsExactly(View(), l, false);
      if Holds(l, false) && i < |heap[ObjectOf(l)].fields| {
        ghost var s := View();
        ReadFieldKeeps(View(), l, ObjectOf(l), i);
        locals := locals + [heap[ObjectOf(l)].fields[i]];
        spec := Push(spec, spec.objs[spec.locals[l].oid].fields[i]);
        TracedStep(s, trace, Action.ReadField(l, i), View());
      }
    }

    method WriteField(l: nat, i: nat, m: nat)
      requires Valid()
      modifies this`heap, this`marked, this`markStack, this`registry, this`steps, this`spec
      ensures Valid() && Step(old(spec), Action.WriteField(l, i, m), spec)
    {
      hide Common, InPause, InMark, InEvacuation, InUpdate, Positioned, Resolve, Traced, Needful;
      HoldsExactly(View(), l, false);
      LocalCount(View());
      if Holds(l, false) && i < |heap[ObjectOf(l)].fields| && m < |locals| {
        var x := ObjectOf(l);
        FieldLive(View(), l, i);
        FieldTraced(View(), trace, l, i);
        WriteWithBarrier(x, i, locals[m]);
        ghost var s := View().(heap := old(heap));
        WriteShape(old(heap), x, i, Resolve(old(heap), locals[m]));
        WriteFieldKeeps(View().(heap := old(heap)), l, x, i, m);
        spec := Store(spec, l, i, spec.locals[m]);
        TracedStep(s, trace, Action.WriteField(l, i, m), View());
      }
    }

    /** The target of a weak reference that is loaded enters the running collection. */
    ghost method Admit(value: Value)
      requires Valid() && In(value, live)
      modifies this`trace
      ensures Valid() && (value.Ptr? ==> value.addr in ids && Needful(trace, ids[value.addr]))
      ensures trace == old(trace).(entered := if value.Ptr? && value.addr in ids then old(trace).entered + {ids[value.addr]}
                                              else old(trace).entered)
    {
      hide Common, InPause, InMark, InEvacuation, InUpdate, Positioned, Traced, Needful;
      if value.Ptr? {
        LiveNamed(View(), value);
        TracedEntered(View(), trace, ids[value.addr]);
        trace := trace.(entered := trace.entered + {ids[value.addr]});
      }
    }

    /** The loaded target becomes a local. */
    method PushTarget(l: nat, x: Addr)
      requires l < |locals| && locals[l].Ptr? && locals[l].addr in heap && heap[locals[l].addr].forward == x
      requires x in heap && heap[x].kind == Weak && |heap[x].fields| == 1
      requires phase == Mark ==> In(heap[x].fields[0], marked)
      requires heap[x].fields[0].Ptr? ==> heap[x].fields[0].addr in ids && Needful(trace, ids[heap[x].fields[0].addr])
      requires Valid()
      modifies this`locals, this`spec
      ensures LocalObject(old(spec), l, true) && |old(spec).objs[old(spec).locals[l].oid].fields| == 1
      ensures spec == Push(old(spec), old(spec).objs[old(spec).locals[l].oid].fields[0])
      ensures spec == Push(old(spec), Abs(ids, heap[x].fields[0]))
      ensures Valid()
    {
      hide Common, InPause, InMark, InEvacuation, InUpdate, Positioned, Traced, Needful;
      ReadWeakKeeps(View(), l, x);
      WeakTarget(View(), l, x);
      TracedPush(View(), trace, heap[x].fields[0]);
      locals := locals + [heap[x].fields[0]];
      spec := Push(spec, spec.objs[spec.locals[l].oid].fields[0]);
    }

    method ReadWeak(l: nat)
      requires Valid()
      modifies this`locals, this`marked, this`markStack, this`registry, this`steps, this`spec, this`trace
      ensures Valid() && Step(old(spec), Action.ReadWeak(l), spec)
      ensures Enters(Action.ReadWeak(l), old(spec), spec, old(trace), trace)
    {
      hide Common, InPause, InMark, InEvacuation, InUpdate, Positioned, Traced, Needful;
      HoldsExactly(View(), l, true);
      if Holds(l, true) && |heap[ObjectOf(l)].fields| == 1 {
        var x := ObjectOf(l);
        var value := heap[x].fields[0];
        FieldLive(View(), l, 0);
        Admit(value);
        SnapshotBarrier(value);
        PushTarget(l, x);
      }
    }

    method Return()
      requires Valid()
      modifies this`locals, this`spec
      ensures Valid() && Step(old(spec), Action.Return, spec)
    {
      hide Common, InPause, InMark, InEvacuation, InUpdate, Positioned, Traced;
      ghost var s := View();
      ReturnKeeps(View());
      locals := [];
      spec := spec.(locals := []);
      TracedStep(s, trace, Action.Return, View());
    }

    /** Allocates an object and initialises it from locals. */
    method New(kind: Kind, size: nat, values: seq<nat>)
      requires Valid() && (kind == Weak ==> |values| == 1)
      requires forall k :: 0 <= k < |values| ==> values[k] < |locals|
      modifies this
      ensures Valid() && HasLocals(old(spec), values)
      ensures spec == Create(old(spec), old(nextId), AObj(kind, LocalValues(old(spec), values)))
      ensures old(nextId) !in old(spec).objs
      ensures trace == old(trace).(entered := old(trace).entered + {old(nextId)})
    {
      hide Common, InPause, InMark, InEvacuation, InUpdate, Positioned, Granted, Placed, Create, Sound, Traced;
      SoundPlaced(View());
      ghost var s := View();
      var x := AllocWords(size);
      var stack := locals;
      Publish(Obj(kind, size, seq(|values|, k requires 0 <= k < |values| => stack[values[k]]), x, 0), s, values);
    }

    /** The initialised object passes the allocation barrier and becomes a local. */
    method Publish(o: Obj, ghost s: State, ghost values: seq<nat>)
      requires s == View().(parts := s.parts) && Sound(s) && Traced(s, trace) && !complete
      requires Granted(s.parts, s.heap, s.it.number, o.size, parts, o.forward) && Initialised(s, o, values)
      modifies this`heap, this`marked, this`allocationCount, this`locals, this`live, this`ids, this`spec, this`nextId, this`trace
      ensures Valid() && HasLocals(s.spec, values) && s.nextId !in s.spec.objs
      ensures spec == Create(s.spec, s.nextId, AObj(o.kind, LocalValues(s.spec, values)))
      ensures trace == old(trace).(entered := old(trace).entered + {s.nextId})
    {
      hide Common, InPause, InMark, InEvacuation, InUpdate, Positioned, Granted, Resolve, Create, Sound;
      hide Initialised, MarksAfterBarrier, HeapAfterBarrier, HasLocals, LocalValues, Evacuated, Placed, Extends, Traced;
      var x := o.forward;
      heap := heap[x := o];
      AllocationBarrier(x);
      ghost var t := NewObject(s, parts, x, o, values, heap);
      NewTraced(s, trace, parts, x, o, values, t);
      Record(x, t);
      trace := trace.(entered := trace.entered + {s.nextId});
    }

    /** The new object becomes a local and gets an identity. */
    method Record(x: Addr, ghost t: State)
      requires t == View().(locals := locals + [Ptr(x)], live := t.live, ids := t.ids, spec := t.spec, nextId := t.nextId)
      modifies this`locals, this`live, this`ids, this`spec, this`nextId
      ensures View() == t
    {
      locals := locals + [Ptr(x)];
      live, ids, spec, nextId := t.live, t.ids, t.spec, t.nextId;
    }

    method Allocate(isArray: bool, size: nat, values: seq<nat>)
      requires Valid()
      modifies this
      ensures Valid() && Step(old(spec), Action.Allocate(isArray, size, values), spec)
      ensures Enters(Action.Allocate(isArray, size, values), old(spec), spec, old(trace), trace)
    {
      hide Common, InPause, InMark, InEvacuation, InUpdate, Positioned, Create;
      LocalCount(View());
      if forall k :: 0 <= k < |values| ==> values[k] < |locals| {
        New(if isArray then Array else Plain, size, values);
        CreateEnters(old(spec), old(nextId), AObj(if isArray then Array else Plain, LocalValues(old(spec), values)));
      }
    }

    method AllocateWeak(m: nat)
      requires Valid()
      modifies this
      ensures Valid() && Step(old(spec), Action.AllocateWeak(m), spec)
      ensures Enters(Action.AllocateWeak(m), old(spec), spec, old(trace), trace)
    {
      hide Common, InPause, InMark, InEvacuation, InUpdate, Positioned, Create;
      LocalCount(View());
      if m < |locals| {
        New(Weak, WEAK_REF_SIZE, [m]);
        CreateEnters(old(spec), old(nextId), AObj(Weak, LocalValues(old(spec), [m])));
        assert LocalValues(old(spec), [m]) == [old(spec).locals[m]];
      }
    }

    // -------------------------------------------------------------- runs

    method Perform(action: Action)
      requires Valid()
      modifies this
      ensures Valid() && Step(old(spec), action, spec)
      // Nothing else enters the running collection than what is allocated or loaded from a weak reference.
      ensures !action.Collect? ==> Enters(action, old(spec), spec, old(trace), trace)
    {
      hide Valid, Step;
      match action {
        case PushScalar(raw) => PushScalar(raw);
        case ReadRoot(r) => ReadRoot(r);
        case WriteRoot(r, m) => WriteRoot(r, m);
        case ReadField(l, i) => ReadField(l, i);
        case WriteField(l, i, m) => WriteField(l, i, m);
        case Allocate(isArray, size, values) => Allocate(isArray, size, values);
        case AllocateWeak(m) => AllocateWeak(m);
        case ReadWeak(l) => ReadWeak(l);
        case Return => Return();
        case Collect => Collect();
      }
    }

    /** A scheduling point: nothing happens unless the call stack is empty. */
    method Collect()
      requires Valid()
      modifies this
      ensures Valid() && Step(old(spec), Action.Collect, spec)
    {
      hide Common, InPause, InMark, InEvacuation, InUpdate, Positioned, WeakCleared;
      LocalCount(View());
      if locals == [] {
        EmptyCallStackIncrement();
      }
    }

    /** Every interleaving of program steps and collector increments, from any sound state, is a run
      * of the machine that reclaims nothing. */
    method Run(actions: seq<Action>) returns (ghost trace: seq<Spec>)
      requires Valid()
      modifies this
      ensures Valid()
      ensures GcMachine.Run(actions, trace) && trace[0] == old(spec) && trace[|actions|] == spec
    {
      hide Valid, Step;
      trace := [spec];
      var k := 0;
      while k < |actions|
        invariant k <= |actions| && Valid()
        invariant GcMachine.Run(actions[..k], trace) && trace[0] == old(spec) && trace[k] == spec
      {
        Perform(actions[k]);
        trace := trace + [spec];
        k := k + 1;
      }
      assert actions[..k] == actions;
    }
  }

  // ---------------------------------------------------------------- collection of large objects

  /** The heap without the unmarked large objects that start before partition `index`. */
  function LargeCollected(heap: Heap, marked: set<Addr>, index: nat): Heap {
    map a | a in heap && (index <= Part(a) || Span(heap[a]) == 1 || a in marked) :: heap[a]
  }

  lemma CollectedNone(heap: Heap, marked: set<Addr>)
    ensures heap == LargeCollected(heap, marked, 0) && !Continues(heap, 0)
  {
  }

  lemma CollectedStep(heap: Heap, marked: set<Addr>, index: nat, length: nat, large: bool, heap': Heap)
    requires var x := index * PARTITION_SIZE;
             var h := LargeCollected(heap, marked, index);
             && Part(x) == index
             && (large ==> x in h && Span(h[x]) > 1)
             && (forall a :: a in h ==> !(index < Part(a) < index + length))
             && (forall a :: a in h && Part(a) == index ==> if large then a == x else Span(h[a]) == 1)
             && heap' == if large && x !in marked then Without(h, x) else h
    requires length >= 1
    ensures heap' == LargeCollected(heap, marked, index + length)
    ensures heap'.Keys <= LargeCollected(heap, marked, index).Keys
    ensures forall a :: a in heap' ==> heap'[a] == LargeCollected(heap, marked, index)[a]
  {
    hide Part, Span;
    forall a | a in heap
      ensures a in heap' <==> a in LargeCollected(heap, marked, index + length)
    {
    }
  }

  // ---------------------------------------------------------------- facts about single objects

  lemma NotForwarded(s: State, work: set<Addr>, x: Addr)
    requires InMark(s, work) && x in s.heap
    ensures s.heap[x].forward == x
  {
  }

  /** The mark stack holds live objects; only an array is sliced. */
  lemma StackInHeap(s: State, stack: seq<Addr>, x: Addr)
    requires Common(s) && InMark(s, {}) && s.stack == stack + [x]
    ensures x in s.live && x in s.heap && s.heap[x].slice <= |s.heap[x].fields|
    ensures s.heap[x].kind != Array ==> s.heap[x].slice == 0
    ensures s.live <= s.heap.Keys && AllIn(s.heap[x].fields, s.live)
  {
    hide Placed, Bounded, Denotes, SnapshotKept;
    assert s.stack[|stack|] == x;
    assert Canonical(s.heap, x);
  }

  lemma StackMarked(s: State, work: set<Addr>)
    requires InMark(s, work)
    ensures s.marked <= s.live && forall k :: 0 <= k < |s.stack| ==> s.stack[k] in s.marked
  {
  }

  /** What is to be marked may be marked. */
  lemma PreciseWork(s: State, t: Trace, work: set<Addr>, x: Addr)
    requires Precise(t, s.spec, s.ids, s.marked) && Precise(t, s.spec, s.ids, work + {x})
    ensures Precise(t, s.spec, s.ids, s.marked + {x}) && Precise(t, s.spec, s.ids, work)
  {
    hide Precise, Needful;
    PreciseFewer(t, s.spec, s.ids, work + {x}, work);
    if x in s.ids {
      PreciseNeedful(t, s.spec, s.ids, work + {x}, x);
    }
    PreciseMore(t, s.spec, s.ids, s.marked, x);
  }

  lemma StackTop(s: State, stack: seq<Addr>, x: Addr)
    requires InMark(s, {}) && s.stack == stack + [x] && x in s.heap
    ensures x in s.marked && Canonical(s.heap, x)
  {
    hide Sliced, SnapshotKept;
    assert s.stack[|stack|] == x;
  }

  lemma LiveRoots(s: State)
    requires Common(s)
    ensures s.live <= s.heap.Keys && AllIn(s.roots, s.live)
  {
    LiveInHeap(s);
  }

  lemma MarkingStarts(s: State, parts: seq<Partition>)
    requires Sound(s) && s.phase == Pause && s.locals == [] && BitmapsReserved(s.parts, parts)
    ensures s.live <= s.heap.Keys && AllIn(s.roots, s.live)
    ensures var s' := s.(phase := Mark, parts := parts, marked := {}, stack := [], registry := []);
            && Common(s') && InMark(s', Targets(s.roots, 0, |s.roots|))
            && MarkTraced(s', Trace(s.spec, {}, {}), Targets(s.roots, 0, |s.roots|))
  {
    hide Common, InMark, BitmapsReserved, MarkTraced, Targets;
    var s' := s.(phase := Mark, parts := parts, marked := {}, stack := [], registry := []);
    GcCycle.StartMarking(s, parts);
    LiveRoots(s');
    MarksAtStart(s');
  }

  lemma MarksAtStart(s: State)
    requires Common(s) && s.locals == [] && s.marked == {} && s.stack == []
    ensures MarkTraced(s, Trace(s.spec, {}, {}), Targets(s.roots, 0, |s.roots|))
  {
    hide Common, Precise;
    PreciseStart(s);
  }

  lemma EvacuationStarts(s: State, chosen: set<nat>, it: Iterator, t: Trace)
    requires Common(s) && Clearing(s) && s.registry == [] && s.locals == []
    requires Positioned(s.parts, s.heap, it) && it.number == |s.parts| && Bounded(s.heap, it.number)
    requires Fresh(s.heap, s.marked, it) && Candidates(s.parts, it.number, chosen) && MarkTraced(s, t, {})
    ensures var s' := s.(phase := Evacuate, parts := Flagged(s.parts, chosen), live := s.marked, it := it,
                         evacuating := chosen != {});
            Common(s') && InEvacuation(s') && MoveTraced(s', t.(chosen := chosen))
  {
    hide Common, Clearing, Positioned, Fresh, Bounded, Candidates, InEvacuation, Flagged, Precise, ChosenFlagged;
    StartEvacuating(s, chosen, it);
    ChosenOf(s.parts, it.number, chosen);
    PreciseChosen(t, chosen, s.spec, s.ids, s.marked);
  }

  lemma ChosenOf(parts: seq<Partition>, number: nat, chosen: set<nat>)
    requires Candidates(parts, number, chosen)
    ensures ChosenFlagged(Flagged(parts, chosen), chosen)
  {
  }

  lemma PreciseChosen(t: Trace, chosen: set<nat>, spec: Spec, ids: Ids, kept: set<Addr>)
    requires Precise(t, spec, ids, kept)
    ensures Precise(t.(chosen := chosen), spec, ids, kept)
  {
    forall c: set<Oid> | Enough(t.(chosen := chosen), c)
      ensures Enough(t, c)
    {
    }
  }

  lemma ChosenExtends(parts: seq<Partition>, parts': seq<Partition>, chosen: set<nat>)
    requires ChosenFlagged(parts, chosen) && Extends(parts, parts')
    ensures ChosenFlagged(parts', chosen)
  {
  }

  lemma MoveTracedSame(s: State, s': State, t: Trace)
    requires MoveTraced(s, t) && s' == s.(it := s'.it)
    ensures MoveTraced(s', t)
  {
    hide Precise, ChosenFlagged;
  }

  /** The same partitions, and more, are to be evacuated or not. */
  ghost predicate SameEvacuation(parts: seq<Partition>, parts': seq<Partition>) {
    |parts'| == |parts| && forall p :: 0 <= p < |parts| ==> parts'[p].evacuate == parts[p].evacuate
  }

  ghost function AtPause(s: State): State {
    s.(phase := Pause, parts := Released(s.parts), heap := Retained(s.parts, s.heap), marked := {},
       evacuating := false, live := set a | a in s.live && !Evacuated(s.parts, a))
  }

  lemma RunCompleted(s: State, t: Trace)
    requires Sound(s) && s.phase == Update && s.it.index == s.it.number && s.locals == []
    requires MoveTraced(s, t) && LargeLive(s.heap, s.live)
    ensures Sound(AtPause(s)) && Collected(AtPause(s), t)
    ensures var s' := AtPause(s);
            forall a :: a in s'.live ==> a in s.heap && a in s'.heap && s'.heap[a] == s.heap[a]
  {
    hide Common, InUpdate, InPause, Released, Precise, WeakSettled;
    GcCycle.CompleteRun(s);
    CommonPlaced(s);
    var s' := AtPause(s);
    PreciseFewer(t, s.spec, s.ids, s.live, s'.live);
    SettledAtEnd(s', t);
  }

  lemma SameEvacuationThen(parts: seq<Partition>, parts': seq<Partition>, parts'': seq<Partition>)
    ensures SameEvacuation(parts, parts)
    ensures SameEvacuation(parts, parts') && SameEvacuation(parts', parts'') ==> SameEvacuation(parts, parts'')
  {
  }

  lemma FreedSame(s: State, x: Addr)
    requires Common(s) && Collecting(s) && x in s.heap && Span(s.heap[x]) > 1
    ensures SameEvacuation(s.parts, FreedRange(s.parts, Part(x), Part(x) + Span(s.heap[x])))
  {
    hide Coupled, WeakShape, Relocated, Parked, NoSlices, Bounded;
    FreeLargeFlags(s.parts, s.heap, x, s.evacuating);
  }

  /** Every large object that is left is live. */
  lemma LargeGone(s: State, t: Trace, parts0: seq<Partition>)
    requires Common(s) && Collecting(s) && SameEvacuation(parts0, s.parts) && ChosenFlagged(parts0, t.chosen)
    requires exists h: Heap :: s.heap == LargeCollected(h, s.marked, |s.parts|)
    ensures LargeLive(s.heap, s.live) && ChosenFlagged(s.parts, t.chosen)
  {
    hide Relocated, EvacuatesSmall, NoSlices, Parked, Fresh, Part, Span;
    CommonPlaced(s);
  }

  lemma ChosenPlanned(parts: seq<Partition>, chosen: set<nat>)
    requires ChosenFlagged(parts, chosen)
    ensures ChosenFlagged(UpdatePlan(parts), chosen)
  {
  }

  /** What is live is what was reachable; weak references that can be reached are null or refer to that; and
    * no large object is left of all others. */
  ghost predicate ExactlyReachable(spec0: Spec, s: State) {
    && s.live <= s.ids.Keys
    && (forall id :: id in LiveIds(s) <==> Reachable(spec0, id))
    && LargeLive(s.heap, s.live)
    && (forall id :: id in s.spec.objs && Reachable(spec0, id) && s.spec.objs[id].kind == Weak ==>
          forall i :: 0 <= i < |s.spec.objs[id].fields| && s.spec.objs[id].fields[i].ARef? ==>
            Reachable(spec0, s.spec.objs[id].fields[i].oid))
  }

  lemma OnlyReachableKept(s: State, t: Trace)
    requires Common(s) && Collected(s, t) && t.entered == {} && WeakCleared(t.origin, s.spec)
    ensures ExactlyReachable(t.origin, s)
  {
    hide Common, Precise, LargeLive, WeakCleared, Needful, Reachable;
    LiveClosed(s);
    forall id
      ensures Reachable(s.spec, id) <==> Reachable(t.origin, id)
      ensures Needful(t, id) <==> Reachable(t.origin, id)
    {
      ReachableAfterClearing(t.origin, s.spec, id);
      NeedfulReachable(t, id);
    }
    forall id | id in LiveIds(s)
      ensures Needful(t, id)
    {
      var a :| a in s.live && s.ids[a] == id;
      PreciseNeedful(t, s.spec, s.ids, s.live, a);
    }
  }

  lemma WeakClearedThen(s: Spec, s': Spec, s'': Spec)
    requires WeakCleared(s, s') && WeakCleared(s', s'')
    ensures WeakCleared(s, s'')
  {
    hide Reachable;
    forall id
      ensures Reachable(s', id) <==> Reachable(s, id)
    {
      ReachableAfterClearing(s, s', id);
    }
  }

  lemma RankCloser(s: State, s': State)
    ensures Rank(s'.phase) < Rank(s.phase) ==> Closer(s, s')
  {
  }

  /** From an increment that began in the mark phase, or did nothing there. */
  lemma Onward(s: State, s1: State, s2: State)
    ensures s.phase == Mark && Closer(s, s1) && (s1.phase == Mark ==> s2 == s1) && Rank(s2.phase) <= Rank(s1.phase) ==> Closer(s, s2)
  {
    hide Unmarked, Distance, Waiting, Slice;
  }

  lemma MoveKept(s: State, s': State, t: Trace)
    requires MoveTraced(s, t) && LargeLive(s.heap, s.live) && SameShape(s.heap, s'.heap)
    requires s'.spec == s.spec && s'.ids == s.ids && s'.live == s.live && s'.parts == s.parts
    ensures MoveTraced(s', t) && LargeLive(s'.heap, s'.live)
  {
    hide Precise;
  }

  /** The iterator has got on. */
  ghost predicate Further(it: Iterator, it': Iterator) {
    it'.number == it.number && (it.index < it'.index || (it'.index == it.index && it'.pending < it.pending))
  }

  /** If the header of `x` still holds a slice start, it is a later one. */
  ghost predicate NextSlice(heap: Heap, heap': Heap, x: Addr) {
    && x in heap && x in heap' && |heap'[x].fields| == |heap[x].fields| && heap'[x].slice <= |heap'[x].fields|
    && (heap'[x].slice > 0 ==> heap[x].slice < heap'[x].slice)
  }

  lemma ShapeKept(heap: Heap, g: Heap, x: Addr, i: nat, v: Value)
    requires SameShape(heap, g) && x in g && i < |g[x].fields|
    ensures SameShape(heap, WithField(g, x, i, v))
  {
  }

  lemma ShapeItself(heap: Heap)
    ensures SameShape(heap, heap)
  {
  }

  lemma ShapeSliced(heap: Heap, g: Heap, x: Addr, slice: nat)
    requires SameShape(heap, g) && x in g
    ensures SameShape(heap, WithSlice(g, x, slice))
  {
  }

  lemma SliceNext(heap: Heap, heap': Heap, pending: set<Addr>, x: Addr)
    requires Lowest(pending, x) && NextSlice(heap, heap', x) && heap'[x].slice > 0
    ensures ToUpdateNext(heap', pending) < ToUpdateNext(heap, pending)
  {
    assert First(pending) == x;
  }

  lemma SliceCloser(s: State, s': State)
    requires s'.phase == s.phase == Update
    ensures s'.it == s.it && ToUpdateNext(s'.heap, s.it.pending) < ToUpdateNext(s.heap, s.it.pending) ==> Closer(s, s')
  {
  }

  lemma FurtherCloser(s: State, s': State)
    requires s'.phase == s.phase && (s.phase == Evacuate || s.phase == Update) && s'.it.index <= s'.it.number
    ensures Further(s.it, s'.it) ==> Closer(s, s')
  {
  }

  lemma MarksCleared(s: State, s': State, t: Trace)
    requires MarkTraced(s, t, {}) && s' == s.(heap := s'.heap, registry := s'.registry, spec := s'.spec) && WeakCleared(s.spec, s'.spec)
    ensures MarkTraced(s', t, {})
  {
    hide Precise, WeakCleared;
    PreciseCleared(t, s.spec, s'.spec, s.ids, s.marked);
    PreciseCleared(t, s.spec, s'.spec, s.ids, {});
  }

  lemma DistinctRest(stack: seq<Addr>, x: Addr)
    requires Distinct(stack + [x])
    ensures Distinct(stack)
  {
    forall j, k | 0 <= j < k < |stack|
      ensures stack[j] != stack[k]
    {
      assert (stack + [x])[j] == stack[j] && (stack + [x])[k] == stack[k];
    }
  }

  /** More is marked, or less is to be scanned. */
  lemma MarkCloser(s: State, s': State)
    requires s.phase == s'.phase == Mark && s'.live == s.live && InMark(s', {})
    requires s.marked < s'.marked || (s'.marked == s.marked && ToVisit(s'.heap, s'.stack) < ToVisit(s.heap, s.stack))
    ensures Closer(s, s')
    ensures s'.live - s'.marked < s.live - s.marked || (s'.marked == s.marked && ToVisit(s'.heap, s'.stack) < ToVisit(s.heap, s.stack))
  {
    hide ToVisit;
    StackMarked(s', {});
    if s.marked < s'.marked {
      var a :| a in s'.marked && a !in s.marked;
      assert a in Unmarked(s) && a !in Unmarked(s');
    }
  }

  /** A registered weak reference has one field. */
  lemma RegisteredWeak(s: State, w: Addr)
    requires Common(s) && Clearing(s) && s.registry != [] && w == s.registry[|s.registry| - 1]
    ensures w in s.live && w in s.heap && w in s.ids && s.heap[w].kind == Weak && |s.heap[w].fields| == 1
    ensures s.heap[w].fields[0].Ptr? ==> s.heap[w].fields[0].addr in s.live
    ensures !(s.heap[w].fields[0].Ptr? && s.heap[w].fields[0].addr !in s.marked) ==> In(s.heap[w].fields[0], s.marked)
  {
    hide Placed, Bounded, Denotes, Needed;
    assert Canonical(s.heap, w);
    assert In(s.heap[w].fields[0], s.live);
  }

  /** Changing a slice start does not disturb what holds in every phase. */
  lemma SliceCommon(s: State, x: Addr, slice: nat)
    requires Common(s) && x in s.heap
    ensures Common(s.(heap := WithSlice(s.heap, x, slice)))
  {
    hide Placed, Bounded, Coupled;
    PlacedSameShape(s.parts, s.heap, WithSlice(s.heap, x, slice));
    BoundedSameShape(s.heap, WithSlice(s.heap, x, slice), s.it.number);
    CoupledSlice(s.heap, s.ids, s.live, s.roots, s.locals, s.spec, x, slice);
  }

  /** Strong or weak, a field of a marked object is null or points to a marked object. */
  ghost predicate AllTargetsMarked(heap: Heap, marked: set<Addr>) {
    forall m :: m in marked && m in heap ==> AllIn(heap[m].fields, marked)
  }

  lemma TargetsMarked(s: State)
    requires Clearing(s) && s.registry == []
    ensures AllTargetsMarked(s.heap, s.marked)
  {
    hide Plainly, NoSlices;
  }

  lemma WeakClearedReflexive(s: Spec)
    ensures WeakCleared(s, s)
  {
  }

  // ---------------------------------------------------------------- facts about the iteration

  /** A partition flagged as large, where no object continues, starts a large object. */
  lemma LargeAtIndex(parts: seq<Partition>, heap: Heap, it: Iterator)
    requires Placed(parts, heap) && it.index < it.number <= |parts| && !Continues(heap, it.index)
    ensures Part(it.index * PARTITION_SIZE) == it.index
    ensures parts[it.index].large ==> it.index * PARTITION_SIZE in heap && Span(heap[it.index * PARTITION_SIZE]) > 1
    ensures var n := if parts[it.index].large then Span(heap[it.index * PARTITION_SIZE]) else 1;
            && !Continues(heap, it.index + n)
            && it.index + n <= |parts|
            && (Bounded(heap, it.number) ==> it.index + n <= it.number)
            && forall a :: a in heap ==> !(it.index < Part(a) < it.index + n)
    ensures forall a :: a in heap && Part(a) == it.index ==>
              if parts[it.index].large then a == it.index * PARTITION_SIZE else Span(heap[a]) == 1
  {
    hide Part, Span;
    PartOfStart(it.index);
    var n := if parts[it.index].large then Span(heap[it.index * PARTITION_SIZE]) else 1;
    forall a | a in heap
      ensures !(Part(a) < it.index + n < Part(a) + Span(heap[a]))
      ensures !(it.index < Part(a) < it.index + n)
    {
      if Part(a) < it.index {
        assert !(Part(a) < it.index < Part(a) + Span(heap[a]));
      }
    }
  }

  lemma FewerContinue(heap: Heap, heap': Heap, q: nat)
    requires !Continues(heap, q) && heap'.Keys <= heap.Keys && forall a :: a in heap' ==> heap'[a] == heap[a]
    ensures !Continues(heap', q)
  {
    hide Part, Span;
    forall a | a in heap'
      ensures !(Part(a) < q < Part(a) + Span(heap'[a]))
    {
      assert heap'[a] == heap[a];
    }
  }

  lemma ObjectFits(s: State, x: Addr)
    requires Common(s) && x in s.heap
    ensures Part(x) + Span(s.heap[x]) <= |s.parts|
  {
    PlacedInUse(s.parts, s.heap);
  }

  /** The mark state and the pending objects play no part in `Common`. */
  lemma CommonSame(s: State, s': State)
    requires Common(s) && s' == s.(phase := s'.phase, marked := s'.marked, stack := s'.stack, registry := s'.registry,
                                   evacuating := s'.evacuating, it := s'.it) && s'.it.number == s.it.number
    ensures Common(s')
  {
    hide Placed, Coupled, WeakShape;
  }

  lemma CommonPlaced(s: State)
    requires Common(s)
    ensures Placed(s.parts, s.heap) && InUse(s.parts, s.heap) && Bounded(s.heap, s.it.number)
    ensures s.it.number <= |s.parts|
    ensures s.live <= s.heap.Keys && s.live <= s.ids.Keys
  {
    PlacedInUse(s.parts, s.heap);
    hide Placed, Bounded, WeakShape;
  }

  lemma SoundPlaced(s: State)
    requires Sound(s)
    ensures Placed(s.parts, s.heap) && s.it.number <= |s.parts|
  {
    hide Placed, InPause, InMark, InEvacuation, InUpdate;
  }

  lemma PositionInRange(s: State)
    requires InEvacuation(s)
    ensures s.it.index <= s.it.number <= |s.parts|
  {
  }

  lemma EvacuationParked(s: State)
    requires InEvacuation(s)
    ensures Parked(s.parts, s.heap, s.it)
  {
  }

  lemma EvacuationNext(s: State, it: Iterator)
    requires Common(s) && InEvacuation(s) && s.it.index < s.it.number <= |s.parts|
    requires s.parts[s.it.index].evacuate ==> s.it.pending == {}
    requires it.number == s.it.number && s.it.index < it.index && Positioned(s.parts, s.heap, it)
    requires forall a :: a in s.heap ==> !(s.it.index < Part(a) < it.index)
    requires it.pending == PendingAt(s.marked, it.index, it.number)
    ensures Common(s.(it := it)) && InEvacuation(s.(it := it))
  {
    hide Placed, Coupled, WeakShape, Bounded, Evacuating, Positioned;
    NextKeeps(s.parts, s.heap, s.live, s.marked, s.evacuating, s.it, it);
  }

  lemma PendingObject(s: State, x: Addr)
    requires InEvacuation(s) && x in s.it.pending && s.it.index < |s.parts| && s.parts[s.it.index].evacuate
    ensures x in s.live && x in s.heap && Evacuated(s.parts, x)
  {
    hide Relocated, EvacuatesSmall, Positioned, CopiedBehind, NoSlices;
  }

  /** The pending object `x` is copied to a granted block. */
  lemma EvacuateStep(s: State, x: Addr, parts': seq<Partition>, copy: Addr)
    requires Common(s) && InEvacuation(s) && x in s.it.pending && x in s.live && x in s.heap && Evacuated(s.parts, x)
    requires Granted(s.parts, s.heap, s.it.number, s.heap[x].size, parts', copy)
    ensures x in s.ids && s.heap[x].forward == x && copy !in s.heap && !Evacuated(parts', copy) && Extends(s.parts, parts')
    ensures var s' := s.(heap := WithCopy(s.heap, x, copy), parts := parts', marked := s.marked + {copy},
                         live := s.live + {copy}, ids := s.ids[copy := s.ids[x]],
                         it := s.it.(pending := s.it.pending - {x}));
            Common(s') && InEvacuation(s')
  {
    hide Placed, Bounded, Coupled, WeakShape, Evacuating, Granted, Extends, Evacuated;
    CopyKeeps(s.parts, s.heap, s.live, s.marked, s.evacuating, s.it, x, parts', copy);
    GrantFlags(s.parts, s.heap, s.it.number, s.heap[x].size, parts', copy);
    ExtendsLength(s.parts, parts');
    CopyCoupled(s, x, copy);
    var o := s.heap[x].(forward := copy);
    GrantBounded(s.parts, s.heap, s.it.number, s.heap[x].size, parts', copy, o);
    BoundedSameShape(s.heap[copy := o], WithCopy(s.heap, x, copy), s.it.number);
  }

  lemma CopyCoupled(s: State, x: Addr, copy: Addr)
    requires Coupled(s.heap, s.ids, s.live, s.roots, s.locals, s.spec) && WeakShape(s.heap)
    requires x in s.live && Canonical(s.heap, x) && copy !in s.heap
    requires forall a :: a in s.heap && a != x ==> s.heap[a].forward != x
    ensures x in s.ids
    ensures Coupled(WithCopy(s.heap, x, copy), s.ids[copy := s.ids[x]], s.live + {copy}, s.roots, s.locals, s.spec)
    ensures WeakShape(WithCopy(s.heap, x, copy))
  {
    hide Denotes;
    CoupledCopy(s.heap, s.ids, s.live, s.roots, s.locals, s.spec, x, copy);
  }

  // ---------------------------------------------------------------- facts about the update pass

  /** The phase plays no part in what holds while large objects are collected. */
  lemma CollectingSame(s: State, s': State)
    requires Common(s) && Collecting(s) && s' == s.(phase := s'.phase)
    ensures Common(s') && Collecting(s')
  {
    hide Placed, Bounded, Coupled, WeakShape, Relocated, EvacuatesSmall, NoSlices, Parked;
  }

  lemma RootRedirected(s: State, i: nat)
    requires Common(s) && Collecting(s) && i < |s.roots|
    ensures var s' := s.(roots := s.roots[i := Resolve(s.heap, s.roots[i])]); Common(s') && Collecting(s')
    ensures Clean(s.parts, Resolve(s.heap, s.roots[i]))
  {
    hide Placed, Bounded, Coupled, WeakShape, EvacuatesSmall, NoSlices, Parked;
    RootMeaning(s, i);
    RootCoupled(s, i, Resolve(s.heap, s.roots[i]));
    assert s.spec.(roots := s.spec.roots[i := s.spec.roots[i]]) == s.spec;
  }

  lemma RootMeaning(s: State, i: nat)
    requires Coupled(s.heap, s.ids, s.live, s.roots, s.locals, s.spec) && i < |s.roots|
    ensures |s.spec.roots| == |s.roots|
    ensures In(s.roots[i], s.live) && s.live <= s.heap.Keys && In(Resolve(s.heap, s.roots[i]), s.live)
    ensures Abs(s.ids, Resolve(s.heap, s.roots[i])) == s.spec.roots[i]
  {
    hide Resolve;
    ResolveDenotes(s.heap, s.ids, s.live, s.roots[i]);
  }

  /** The iterator has to visit `x`, in a partition flagged for the update. */
  ghost predicate ToUpdate(s: State, x: Addr) {
    x in s.it.pending && x in s.heap && s.it.index < |s.parts| && s.parts[s.it.index].update
  }

  lemma PendingUpdate(s: State, x: Addr)
    requires InUpdate(s) && x in s.it.pending && s.it.index < |s.parts| && s.parts[s.it.index].update
    ensures ToUpdate(s, x)
  {
  }

  /** An object that is to be updated is live, not forwarded, and outside the evacuated partitions. */
  lemma UpdatedObject(s: State, x: Addr)
    requires InUpdate(s) && ToUpdate(s, x)
    ensures x in s.live && Canonical(s.heap, x) && !Evacuated(s.parts, x)
  {
    hide EvacuatesSmall, SlicedAwaiting, StaleAwaiting, Parked, NoSlices;
    UnevacuatedCanonical(s.parts, s.heap, s.marked, x);
  }

  lemma SliceInRange(s: State, x: Addr)
    requires InUpdate(s) && ToUpdate(s, x)
    ensures s.heap[x].slice <= |s.heap[x].fields| && (s.heap[x].slice > 0 ==> s.heap[x].kind == Array)
    ensures forall k :: 0 <= k < s.heap[x].slice ==> Clean(s.parts, s.heap[x].fields[k])
  {
    hide EvacuatesSmall, Relocated, Parked, NoSlices, Clean;
    UpdatedObject(s, x);
  }

  lemma SliceUnset(heap: Heap, x: Addr)
    requires x in heap && heap[x].slice == 0
    ensures heap == WithSlice(heap, x, 0)
  {
  }

  /** Recording a slice start and updating a field commute. */
  lemma SlicedUpdate(g: Heap, x: Addr, next: nat, i: nat)
    requires x in g && i < |g[x].fields|
    ensures var heap := WithSlice(g, x, next);
            && x in heap && heap[x].fields == g[x].fields
            && WithField(heap, x, i, Resolve(heap, heap[x].fields[i]))
               == WithSlice(WithField(g, x, i, Resolve(g, g[x].fields[i])), x, next)
  {
    var heap := WithSlice(g, x, next);
    assert Resolve(heap, heap[x].fields[i]) == Resolve(g, g[x].fields[i]);
  }

  lemma UpdateFieldStep(s: State, x: Addr, i: nat)
    requires Common(s) && InUpdate(s) && ToUpdate(s, x) && i < |s.heap[x].fields|
    ensures var s' := s.(heap := WithField(s.heap, x, i, Resolve(s.heap, s.heap[x].fields[i])));
            && Common(s') && InUpdate(s') && ToUpdate(s', x)
            && s'.heap[x].fields == s.heap[x].fields[i := Resolve(s.heap, s.heap[x].fields[i])]
            && s'.heap[x].kind == s.heap[x].kind
    ensures Clean(s.parts, Resolve(s.heap, s.heap[x].fields[i]))
  {
    hide Placed, Bounded, Coupled, Updating, Resolve, Clean;
    UpdatedObject(s, x);
    LiveInHeap(s);
    assert In(s.heap[x].fields[i], s.live);
    var v := Resolve(s.heap, s.heap[x].fields[i]);
    ResolveClean(s.parts, s.heap, s.live, s.roots, s.marked, s.evacuating, s.it, s.heap[x].fields[i]);
    CoupledUpdate(s.heap, s.ids, s.live, s.roots, s.locals, s.spec, x, i);
    PlacedSameShape(s.parts, s.heap, WithField(s.heap, x, i, v));
    BoundedSameShape(s.heap, WithField(s.heap, x, i, v), s.it.number);
    UpdatingWrite(s.parts, s.heap, s.live, s.roots, s.marked, s.evacuating, s.it, x, i, v);
  }

  lemma UpdateSliceEnd(s: State, x: Addr, next: nat)
    requires Common(s) && InUpdate(s) && ToUpdate(s, x) && next <= |s.heap[x].fields|
    requires next > 0 ==> s.evacuating && s.heap[x].kind == Array
    requires forall k :: 0 <= k < (if next > 0 then next else |s.heap[x].fields|) ==> Clean(s.parts, s.heap[x].fields[k])
    ensures var s' := s.(heap := WithSlice(s.heap, x, next));
            && Common(s') && InUpdate(s') && ToUpdate(s', x)
            && s'.heap[x].fields == s.heap[x].fields && s'.heap[x].slice == next
    ensures next == 0 ==> AllClean(s.parts, s.heap[x].fields)
  {
    hide Common, Updating, Clean;
    SliceCommon(s, x, next);
    UpdatedObject(s, x);
    SliceKeeps(s.parts, s.heap, s.live, s.roots, s.marked, s.evacuating, s.it, x, next);
  }

  /** Without evacuated partitions no pointer is stale and no array is visited piecewise. */
  lemma NothingStale(s: State, x: Addr)
    requires InUpdate(s) && !s.evacuating && x in s.heap
    ensures s.heap[x].slice == 0 && AllClean(s.parts, s.heap[x].fields)
  {
    hide Relocated, SlicedAwaiting, StaleAwaiting, Parked;
  }

  lemma ObjectUpdated(s: State, x: Addr)
    requires Common(s) && InUpdate(s) && ToUpdate(s, x) && s.heap[x].slice == 0 && AllClean(s.parts, s.heap[x].fields)
    ensures var s' := s.(it := s.it.(pending := s.it.pending - {x})); Common(s') && InUpdate(s')
  {
    hide Common, Updating, AllClean;
    CommonSame(s, s.(it := s.it.(pending := s.it.pending - {x})));
    PassKeeps(s.parts, s.heap, s.live, s.roots, s.marked, s.evacuating, s.it, x);
  }

  lemma UpdateInRange(s: State)
    requires InUpdate(s)
    ensures s.it.index <= s.it.number <= |s.parts| && Parked(s.parts, s.heap, s.it)
    ensures s.it.index < s.it.number && s.parts[s.it.index].update ==> Positioned(s.parts, s.heap, s.it)
    ensures s.it.index == s.it.number ==> Positioned(s.parts, s.heap, s.it)
  {
    hide Relocated, EvacuatesSmall, SlicedAwaiting, StaleAwaiting, Continues;
  }

  lemma UpdateNext(s: State, it: Iterator)
    requires Common(s) && InUpdate(s) && s.it.index < s.it.number <= |s.parts|
    requires s.parts[s.it.index].update ==> s.it.pending == {}
    requires it.number == s.it.number && s.it.index < it.index && Positioned(s.parts, s.heap, it)
    requires forall a :: a in s.heap ==> !(s.it.index < Part(a) < it.index)
    requires it.pending == PendingAt(s.marked, it.index, it.number)
    ensures Common(s.(it := it)) && InUpdate(s.(it := it))
  {
    hide Common, Updating, Positioned;
    CommonSame(s, s.(it := it));
    UpdatingNext(s.parts, s.heap, s.live, s.roots, s.marked, s.evacuating, s.it, it);
  }

  // ---------------------------------------------------------------- facts about program steps

  /** What the step of the program adds to the running collection. */
  ghost predicate Enters(action: Action, spec: Spec, spec': Spec, t: Trace, t': Trace) {
    && t' == t.(entered := t'.entered) && t.entered <= t'.entered
    && forall id :: id in t'.entered && id !in t.entered ==>
         || (id !in spec.objs && id in spec'.objs)
         || (action.ReadWeak? && spec' == Push(spec, ARef(id)))
  }

  lemma CreateEnters(spec: Spec, id: Oid, o: AObj)
    ensures id in Create(spec, id, o).objs
  {
  }

  lemma BarrierTraced(s: State, t: Trace, x: Addr)
    requires MarkTraced(s, t, {}) && (x in s.ids ==> Needful(t, s.ids[x]))
    ensures MarkTraced(s, t, {} + {x})
  {
    hide Precise, Needful, Distinct;
    PreciseMore(t, s.spec, s.ids, {}, x);
  }

  /** A step of the program that neither allocates nor loads a weak reference. */
  lemma TracedStep(s: State, t: Trace, action: Action, s': State)
    requires Traced(s, t) && Step(s.spec, action, s'.spec)
    requires !action.Allocate? && !action.AllocateWeak? && !action.ReadWeak? && !action.Collect?
    requires s'.phase == s.phase && s'.parts == s.parts && s'.ids == s.ids && s'.marked == s.marked && s'.stack == s.stack
    requires s'.live == s.live && (s'.heap == s.heap || SameShape(s.heap, s'.heap))
    ensures Traced(s', t)
  {
    hide Precise, Distinct, ChosenFlagged, Step;
    if s.phase == Mark {
      PreciseStep(t, s.spec, action, s'.spec, s.ids, s.marked);
      PreciseStep(t, s.spec, action, s'.spec, s.ids, {});
    } else if s.phase == Evacuate || s.phase == Update {
      PreciseStep(t, s.spec, action, s'.spec, s.ids, s.live);
    }
  }

  lemma TracedEntered(s: State, t: Trace, id: Oid)
    requires Traced(s, t)
    ensures var t' := t.(entered := t.entered + {id}); Traced(s, t') && Needful(t', id)
  {
    hide Distinct, ChosenFlagged, LargeLive;
    var t' := t.(entered := t.entered + {id});
    forall c: set<Oid> | Enough(t', c)
      ensures Enough(t, c)
    {
    }
  }

  /** A local gets the value of a weak reference. */
  lemma TracedPush(s: State, t: Trace, v: Value)
    requires Traced(s, t) && (v.Ptr? ==> v.addr in s.ids && Needful(t, s.ids[v.addr]))
    ensures Traced(s.(locals := s.locals + [v], spec := Push(s.spec, Abs(s.ids, v))), t)
  {
    hide Precise, Distinct, ChosenFlagged, Needful, LargeLive;
    var a := Abs(s.ids, v);
    if s.phase == Mark {
      PrecisePush(t, s.spec, a, s.ids, s.marked);
      PrecisePush(t, s.spec, a, s.ids, {});
    } else if s.phase == Evacuate || s.phase == Update {
      PrecisePush(t, s.spec, a, s.ids, s.live);
    }
  }

  lemma LiveNamed(s: State, v: Value)
    requires Sound(s) && In(v, s.live)
    ensures v.Ptr? ==> v.addr in s.ids
  {
    hide Common, InPause, InMark, InEvacuation, InUpdate, Positioned;
    CommonPlaced(s);
  }

  lemma WeakTarget(s: State, l: nat, x: Addr)
    requires Sound(s) && l < |s.locals| && s.locals[l].Ptr? && s.locals[l].addr in s.heap
    requires x == s.heap[s.locals[l].addr].forward && x in s.heap && |s.heap[x].fields| == 1
    ensures LocalObject(s.spec, l, s.heap[x].kind == Weak) && |s.spec.objs[s.spec.locals[l].oid].fields| == 1
    ensures s.spec.objs[s.spec.locals[l].oid].fields[0] == Abs(s.ids, s.heap[x].fields[0])
  {
    hide Common, InPause, InMark, InEvacuation, InUpdate, Positioned;
    LocalCanonical(s, l);
  }

  lemma RootTraced(s: State, t: Trace, r: nat)
    requires Sound(s) && Traced(s, t) && r < |s.roots|
    ensures s.phase == Mark && s.roots[r].Ptr? && s.roots[r].addr in s.ids ==> Needful(t, s.ids[s.roots[r].addr])
  {
    hide Common, InPause, InMark, InEvacuation, InUpdate, Positioned, Precise, Needful;
    if s.phase == Mark && s.roots[r].Ptr? {
      RootNeedful(s, t, r);
    }
  }

  lemma FieldTraced(s: State, t: Trace, l: nat, i: nat)
    requires Sound(s) && Traced(s, t) && l < |s.locals| && s.locals[l].Ptr? && s.locals[l].addr in s.heap
    requires var x := s.heap[s.locals[l].addr].forward;
             x in s.heap && s.heap[x].kind != Weak && i < |s.heap[x].fields|
    ensures var v := s.heap[s.heap[s.locals[l].addr].forward].fields[i];
            s.phase == Mark && v.Ptr? && v.addr in s.ids ==> Needful(t, s.ids[v.addr])
  {
    hide Sound, Precise, Needful;
    if s.phase == Mark && s.heap[s.heap[s.locals[l].addr].forward].fields[i].Ptr? {
      FieldNeedful(s, t, l, i);
    }
  }

  lemma WriteShape(heap: Heap, x: Addr, i: nat, v: Value)
    requires x in heap && i < |heap[x].fields|
    ensures SameShape(heap, WithField(heap, x, i, v))
  {
  }

  lemma BarrierWork(s: State, x: Addr)
    requires Common(s) && InMark(s, {}) && x in s.live
    ensures InMark(s, {} + {x}) && x in s.heap
  {
    hide Placed, Bounded, WeakShape, Marking, Denotes;
    WorkKeeps(s.heap, s.live, s.roots, s.locals, s.marked, s.stack, s.registry, {}, {} + {x});
  }

  lemma ResolveOther(before: Heap, heap: Heap, x: Addr, v: Value)
    requires x in before && x in heap && heap == before[x := before[x].(fields := heap[x].fields)]
    ensures Resolve(heap, v) == Resolve(before, v)
  {
  }

  lemma RootCount(s: State)
    requires Sound(s)
    ensures |s.spec.roots| == |s.roots| && AllIn(s.roots, s.live)
  {
    hide Placed, Bounded, WeakShape, Forwards;
  }

  lemma LocalCount(s: State)
    requires Sound(s)
    ensures |s.spec.locals| == |s.locals|
  {
    hide Placed, Bounded, WeakShape, Forwards;
  }

  /** The program's view of a local and the machine's agree on what it points to. */
  lemma HoldsExactly(s: State, l: nat, weak: bool)
    requires Sound(s)
    ensures LocalObject(s.spec, l, weak) <==>
              && l < |s.locals| && s.locals[l].Ptr? && s.locals[l].addr in s.heap
              && s.heap[s.locals[l].addr].forward in s.heap
              && (s.heap[s.heap[s.locals[l].addr].forward].kind == Weak <==> weak)
    ensures LocalObject(s.spec, l, weak) ==>
              |s.heap[s.heap[s.locals[l].addr].forward].fields| == |s.spec.objs[s.spec.locals[l].oid].fields|
  {
    LocalCount(s);
    hide Common, InPause, InMark, InEvacuation, InUpdate, Positioned;
    if l < |s.locals| {
      LocalCanonical(s, l);
    }
  }

  lemma FieldLive(s: State, l: nat, i: nat)
    requires Sound(s) && l < |s.locals| && s.locals[l].Ptr? && s.locals[l].addr in s.heap
    requires s.heap[s.locals[l].addr].forward in s.heap && i < |s.heap[s.heap[s.locals[l].addr].forward].fields|
    ensures In(s.heap[s.heap[s.locals[l].addr].forward].fields[i], s.live)
  {
    hide Common, InPause, InMark, InEvacuation, InUpdate, Positioned;
    LocalCanonical(s, l);
  }

  /** The allocation barrier marks a new object in the mark and evacuation phases. */
  function MarksAfterBarrier(phase: Phase, marked: set<Addr>, x: Addr): set<Addr> {
    if phase == Mark || phase == Evacuate then marked + {x} else marked
  }

  /** In the update phase it resolves the fields of the new object. */
  function HeapAfterBarrier(phase: Phase, evacuating: bool, heap: Heap, x: Addr): Heap
    requires x in heap
  {
    if phase == Update && evacuating then heap[x := heap[x].(fields := ResolveAll(heap, heap[x].fields))] else heap
  }

  /** The fields of a new object are copies of locals. */
  ghost predicate Initialised(s: State, o: Obj, values: seq<nat>) {
    && o.slice == 0 && |o.fields| == |values| && (o.kind == Weak ==> |values| == 1)
    && (forall k :: 0 <= k < |values| ==> values[k] < |s.locals| && o.fields[k] == s.locals[values[k]])
  }

  /** The new object as the allocation barrier leaves it. */
  lemma NewObject(s: State, parts': seq<Partition>, x: Addr, o: Obj, values: seq<nat>, heap': Heap) returns (t: State)
    requires Sound(s) && Granted(s.parts, s.heap, s.it.number, o.size, parts', x)
    requires o.forward == x && Initialised(s, o, values)
    requires heap' == HeapAfterBarrier(s.phase, s.evacuating, s.heap[x := o], x)
    ensures HasLocals(s.spec, values) && s.nextId !in s.spec.objs
    ensures t == s.(parts := parts', heap := heap', locals := s.locals + [Ptr(x)],
                    marked := MarksAfterBarrier(s.phase, s.marked, x), live := s.live + {x},
                    ids := s.ids[x := s.nextId], nextId := s.nextId + 1,
                    spec := Create(s.spec, s.nextId, AObj(o.kind, LocalValues(s.spec, values))))
    ensures Sound(t)
  {
    hide Common, InPause, InMark, InEvacuation, InUpdate, Positioned, Granted, Resolve;
    var o' := heap'[x];
    CommonPlaced(s);
    GrantFlags(s.parts, s.heap, s.it.number, o.size, parts', x);
    forall k | 0 <= k < |values|
      ensures o'.fields[k] == if s.phase == Update && s.evacuating then Resolve(s.heap, s.locals[values[k]])
                              else s.locals[values[k]]
    {
      NewFieldResolved(s, x, o, values[k]);
    }
    if s.phase == Update {
      NewFieldsClean(s, values, o'.fields);
    }
    AllocateStep(s, parts', x, o', values);
    assert heap' == s.heap[x := o'];
    t := s.(parts := parts', heap := heap', locals := s.locals + [Ptr(x)],
            marked := MarksAfterBarrier(s.phase, s.marked, x), live := s.live + {x},
            ids := s.ids[x := s.nextId], nextId := s.nextId + 1,
            spec := Create(s.spec, s.nextId, AObj(o.kind, LocalValues(s.spec, values))));
  }

  /** The new object has entered. */
  lemma NewTraced(s: State, t: Trace, parts': seq<Partition>, x: Addr, o: Obj, values: seq<nat>, s': State)
    requires Sound(s) && Traced(s, t) && Granted(s.parts, s.heap, s.it.number, o.size, parts', x) && HasLocals(s.spec, values)
    requires s.nextId !in s.spec.objs && o.forward == x
    requires s' == s.(parts := parts', heap := HeapAfterBarrier(s.phase, s.evacuating, s.heap[x := o], x), locals := s.locals + [Ptr(x)],
                      marked := MarksAfterBarrier(s.phase, s.marked, x), live := s.live + {x},
                      ids := s.ids[x := s.nextId], nextId := s.nextId + 1,
                      spec := Create(s.spec, s.nextId, AObj(o.kind, LocalValues(s.spec, values))))
    ensures Traced(s', t.(entered := t.entered + {s.nextId}))
  {
    hide Common, InPause, InEvacuation, InUpdate, Positioned, Precise, Distinct, Create, Extends, Placed, Marking;
    SoundLive(s);
    var ao := AObj(o.kind, LocalValues(s.spec, values));
    if s.phase == Mark {
      MarksLive(s);
      PreciseCreate(t, s.spec, s.ids, s.marked, s.marked + {x}, x, s.nextId, ao, values);
      PreciseCreate(t, s.spec, s.ids, {}, {}, x, s.nextId, ao, values);
    } else if s.phase == Evacuate || s.phase == Update {
      PreciseCreate(t, s.spec, s.ids, s.live, s.live + {x}, x, s.nextId, ao, values);
      ChosenExtends(s.parts, parts', t.chosen);
    }
  }

  lemma SoundLive(s: State)
    requires Sound(s)
    ensures s.live <= s.heap.Keys
  {
    hide Common, InPause, InMark, InEvacuation, InUpdate, Positioned;
    CommonPlaced(s);
  }

  lemma MarksLive(s: State)
    requires Sound(s) && s.phase == Mark
    ensures s.marked <= s.live
  {
    hide Common, Placed, InPause, InEvacuation, InUpdate, Positioned;
    StackMarked(s, {});
  }

  lemma NewFieldResolved(s: State, x: Addr, o: Obj, m: nat)
    requires Sound(s) && m < |s.locals|
    ensures x !in s.heap ==> Resolve(s.heap[x := o], s.locals[m]) == Resolve(s.heap, s.locals[m])
  {
    hide Positioned, InPause, InMark, InEvacuation, InUpdate;
    LiveInHeap(s);
    LocalResolved(s, m);
  }

  lemma NewFieldsClean(s: State, values: seq<nat>, fields: seq<Value>)
    requires Sound(s) && s.phase == Update && |fields| == |values|
    requires forall k :: 0 <= k < |values| ==> values[k] < |s.locals|
    requires s.evacuating ==> forall k :: 0 <= k < |values| ==> fields[k] == Resolve(s.heap, s.locals[values[k]])
    ensures AllClean(s.parts, fields)
  {
    hide Common, Relocated, StaleAwaiting, SlicedAwaiting, Parked, Resolve;
    forall k | 0 <= k < |fields|
      ensures Clean(s.parts, fields[k])
    {
      if s.evacuating {
        LocalResolved(s, values[k]);
        ResolveClean(s.parts, s.heap, s.live, s.roots, s.marked, s.evacuating, s.it, s.locals[values[k]]);
      }
    }
  }
}
