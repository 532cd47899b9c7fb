/** The state between two steps of program and collector, phase by phase, and what the steps of the
  * program keep. `Sound` is the invariant of every run.
  */
module GcPhases {
  import opened GcModel
  import opened GcMarking
  import opened GcRelocation
  import opened GcMachine

  // `live`, `ids`, `spec` and `nextId` are bookkeeping that the runtime system does not have.
  datatype State = State(phase: Phase, parts: seq<Partition>, heap: Heap, roots: seq<Value>, locals: seq<Value>,
                         marked: set<Addr>, stack: seq<Addr>, registry: seq<Addr>, evacuating: bool, it: Iterator,
                         live: set<Addr>, ids: Ids, spec: Spec, nextId: Oid)

  ghost predicate WeakShape(heap: Heap) {
    forall a :: a in heap && heap[a].kind == Weak ==> |heap[a].fields| == 1
  }

  ghost predicate NoFlags(parts: seq<Partition>) {
    forall p :: 0 <= p < |parts| ==> !parts[p].evacuate && !parts[p].update
  }

  ghost predicate HeapRight(parts: seq<Partition>, heap: Heap, roots: seq<Value>, locals: seq<Value>, number: nat,
                            live: set<Addr>, ids: Ids, spec: Spec, nextId: Oid) {
    && Placed(parts, heap)
    && Coupled(heap, ids, live, roots, locals, spec)
    && WeakShape(heap)
    && (forall id :: id in spec.objs ==> id < nextId)
    && number <= |parts| && Bounded(heap, number)
  }

  /** What holds in every phase; the mark state and the pending objects play no part in it. */
  ghost predicate Common(s: State) {
    HeapRight(s.parts, s.heap, s.roots, s.locals, s.it.number, s.live, s.ids, s.spec, s.nextId)
  }

  ghost predicate InPause(s: State) {
    Plainly(s.heap) && NoSlices(s.heap) && NoFlags(s.parts) && !s.evacuating
  }

  ghost predicate InMark(s: State, work: set<Addr>) {
    && NoFlags(s.parts) && !s.evacuating
    && Marking(s.heap, s.live, s.roots, s.locals, s.marked, s.stack, s.registry, work)
  }

  ghost predicate InEvacuation(s: State) {
    Evacuating(s.parts, s.heap, s.live, s.marked, s.evacuating, s.it)
  }

  ghost predicate InUpdate(s: State) {
    Updating(s.parts, s.heap, s.live, s.roots, s.marked, s.evacuating, s.it)
  }

  ghost predicate Sound(s: State) {
    && Common(s)
    && match s.phase
       case Stop => false
       case Pause => InPause(s)
       case Mark => InMark(s, {})
       case Evacuate => InEvacuation(s)
       case Update => InUpdate(s) && Positioned(s.parts, s.heap, s.it)
  }

  // ---------------------------------------------------------------- locals and roots

  /** A live value becomes a local. In the mark phase it must be in every closed set. */
  lemma PushKeeps(s: State, v: Value)
    requires Sound(s) && In(v, s.live)
    requires s.phase == Mark ==>
      Marking(s.heap, s.live, s.roots, s.locals + [v], s.marked, s.stack, s.registry, {})
    ensures Sound(s.(locals := s.locals + [v], spec := Push(s.spec, Abs(s.ids, v))))
  {
    hide Placed, Bounded, Forwards, Marking, Evacuating, Updating, Positioned, WeakShape;
  }

  lemma PushScalarKeeps(s: State, raw: nat)
    requires Sound(s)
    ensures Sound(s.(locals := s.locals + [Scalar(raw)], spec := Push(s.spec, AScalar(raw))))
  {
    hide Placed, Bounded, Coupled, Marking, Evacuating, Updating, Positioned, WeakShape;
    if s.phase == Mark {
      HandOverKeeps(s.heap, s.live, s.roots, s.locals, s.marked, s.stack, s.registry, s.roots, s.locals + [Scalar(raw)]);
    }
    PushKeeps(s, Scalar(raw));
  }

  lemma ReadRootKeeps(s: State, r: nat)
    requires Sound(s) && r < |s.roots|
    ensures r < |s.spec.roots|
    ensures Sound(s.(locals := s.locals + [s.roots[r]], spec := Push(s.spec, s.spec.roots[r])))
  {
    hide Placed, Bounded, Forwards, Marking, Evacuating, Updating, Positioned, WeakShape;
    assert In(s.roots[r], s.live);
    if s.phase == Mark {
      HandOverKeeps(s.heap, s.live, s.roots, s.locals, s.marked, s.stack, s.registry, s.roots, s.locals + [s.roots[r]]);
    }
    PushKeeps(s, s.roots[r]);
  }

  lemma ReturnKeeps(s: State)
    requires Sound(s)
    ensures Sound(s.(locals := [], spec := s.spec.(locals := [])))
  {
    hide Placed, Bounded, Forwards, Marking, Evacuating, Updating, Positioned, WeakShape;
    if s.phase == Mark {
      HandOverKeeps(s.heap, s.live, s.roots, s.locals, s.marked, s.stack, s.registry, s.roots, []);
    }
  }

  // ---------------------------------------------------------------- accesses through locals

  /** The object that a local denotes, at its current address. */
  lemma LocalCanonical(s: State, l: nat)
    requires Sound(s) && l < |s.locals|
    ensures l < |s.spec.locals|
    ensures s.locals[l].Ptr? ==>
      var a := s.locals[l].addr;
      && a in s.heap && a in s.live && a in s.ids
      && s.heap[a].forward in s.live && Canonical(s.heap, s.heap[a].forward)
      && s.heap[a].forward in s.ids
      && s.spec.locals[l] == ARef(s.ids[s.heap[a].forward])
      && s.ids[s.heap[a].forward] in s.spec.objs
      && s.spec.objs[s.ids[s.heap[a].forward]].kind == s.heap[s.heap[a].forward].kind
      && Denotes(s.ids, s.heap[s.heap[a].forward].fields, s.spec.objs[s.ids[s.heap[a].forward]].fields)
      && AllIn(s.heap[s.heap[a].forward].fields, s.live)
    ensures !s.locals[l].Ptr? ==> !s.spec.locals[l].ARef?
  {
    hide Placed, Bounded, Marking, Evacuating, Updating, Positioned, WeakShape;
    assert In(s.locals[l], s.live);
  }

  lemma ReadFieldKeeps(s: State, l: nat, x: Addr, i: nat)
    requires Sound(s) && l < |s.locals| && s.locals[l].Ptr? && s.locals[l].addr in s.heap
    requires x == s.heap[s.locals[l].addr].forward && x in s.heap && s.heap[x].kind != Weak && i < |s.heap[x].fields|
    ensures HasField(s.spec, l, i)
    ensures Sound(s.(locals := s.locals + [s.heap[x].fields[i]],
                     spec := Push(s.spec, s.spec.objs[s.spec.locals[l].oid].fields[i])))
  {
    LocalCanonical(s, l);
    hide Placed, Bounded, Coupled, Evacuating, Updating, Positioned, WeakShape;
    assert In(s.heap[x].fields[i], s.live);
    if s.phase == Mark {
      assert Ptr(x) in s.locals;
      ReadKeeps(s.heap, s.live, s.roots, s.locals, s.marked, s.stack, s.registry, x, i);
    }
    PushKeeps(s, s.heap[x].fields[i]);
  }

  /** Before the program gets hold of it, the target of a weak reference has been marked. */
  lemma ReadWeakKeeps(s: State, l: nat, x: Addr)
    requires Sound(s) && l < |s.locals| && s.locals[l].Ptr? && s.locals[l].addr in s.heap
    requires x == s.heap[s.locals[l].addr].forward && x in s.heap && s.heap[x].kind == Weak
    requires |s.heap[x].fields| == 1
    requires s.phase == Mark ==> In(s.heap[x].fields[0], s.marked)
    ensures LocalObject(s.spec, l, true) && |s.spec.objs[s.spec.locals[l].oid].fields| == 1
    ensures Sound(s.(locals := s.locals + [s.heap[x].fields[0]],
                     spec := Push(s.spec, s.spec.objs[s.spec.locals[l].oid].fields[0])))
  {
    LocalCanonical(s, l);
    hide Placed, Bounded, Coupled, Marking, Evacuating, Updating, Positioned, WeakShape;
    assert In(s.heap[x].fields[0], s.live);
    if s.phase == Mark {
      HandOverKeeps(s.heap, s.live, s.roots, s.locals, s.marked, s.stack, s.registry, s.roots,
                s.locals + [s.heap[x].fields[0]]);
    }
    PushKeeps(s, s.heap[x].fields[0]);
  }

  /** The barrier has marked the overwritten target if it had to; the new value is resolved. */
  lemma WriteFieldKeeps(s: State, l: nat, x: Addr, i: nat, m: nat)
    requires Sound(s) && l < |s.locals| && m < |s.locals| && s.locals[l].Ptr? && s.locals[l].addr in s.heap
    requires x == s.heap[s.locals[l].addr].forward && x in s.heap && s.heap[x].kind != Weak && i < |s.heap[x].fields|
    requires s.phase == Mark ==> In(s.heap[x].fields[i], s.marked)
    ensures HasField(s.spec, l, i) && m < |s.spec.locals|
    ensures Sound(s.(heap := WithField(s.heap, x, i, Resolve(s.heap, s.locals[m])),
                     spec := Store(s.spec, l, i, s.spec.locals[m])))
  {
    hide Placed, Bounded, Coupled, Marking, Evacuating, Updating, Positioned, Canonical, Resolve;
    LocalCanonical(s, l);
    LocalResolved(s, m);
    var v := Resolve(s.heap, s.locals[m]);
    StoreCoupled(s, x, i, v);
    PlacedSameShape(s.parts, s.heap, WithField(s.heap, x, i, v));
    BoundedSameShape(s.heap, WithField(s.heap, x, i, v), s.it.number);
    WriteFieldPhase(s, x, i, m);
  }

  lemma WriteFieldPhase(s: State, x: Addr, i: nat, m: nat)
    requires Sound(s) && m < |s.locals| && x in s.heap && s.heap[x].kind != Weak && i < |s.heap[x].fields|
    requires s.phase == Mark ==> In(s.heap[x].fields[i], s.marked)
    ensures var s' := s.(heap := WithField(s.heap, x, i, Resolve(s.heap, s.locals[m])));
            match s.phase
            case Stop => true
            case Pause => InPause(s')
            case Mark => InMark(s', {})
            case Evacuate => InEvacuation(s')
            case Update => InUpdate(s') && Positioned(s'.parts, s'.heap, s'.it)
  {
    hide Placed, Bounded, Coupled, Marking, Evacuating, Updating, Positioned, WeakShape, Resolve;
    LocalResolved(s, m);
    var v := Resolve(s.heap, s.locals[m]);
    match s.phase {
      case Mark =>
        WriteKeeps(s.heap, s.live, s.roots, s.locals, s.marked, s.stack, s.registry, x, i, v);
      case Evacuate =>
        EvacuatingWrite(s.parts, s.heap, s.live, s.marked, s.evacuating, s.it, WithField(s.heap, x, i, v));
      case Update =>
        UpdatingPosition(s.parts, s.heap, WithField(s.heap, x, i, v), s.live, s.roots, s.marked, s.evacuating, s.it);
        ResolveClean(s.parts, s.heap, s.live, s.roots, s.marked, s.evacuating, s.it, s.locals[m]);
        UpdatingWrite(s.parts, s.heap, s.live, s.roots, s.marked, s.evacuating, s.it, x, i, v);
      case Pause =>
      case Stop =>
    }
  }

  lemma UpdatingPosition(parts: seq<Partition>, heap: Heap, heap': Heap, live: set<Addr>, roots: seq<Value>,
                         marked: set<Addr>, evacuating: bool, it: Iterator)
    requires Updating(parts, heap, live, roots, marked, evacuating, it) && Positioned(parts, heap, it)
    requires SameShape(heap, heap')
    ensures Positioned(parts, heap', it)
  {
    PositionedSameShape(parts, heap, heap', it);
  }

  lemma StoreCoupled(s: State, x: Addr, i: nat, v: Value)
    requires Coupled(s.heap, s.ids, s.live, s.roots, s.locals, s.spec) && In(v, s.live)
    requires x in s.live && Canonical(s.heap, x) && i < |s.heap[x].fields|
    ensures x in s.ids && s.ids[x] in s.spec.objs && i < |s.spec.objs[s.ids[x]].fields|
    ensures var o := s.spec.objs[s.ids[x]];
            Coupled(WithField(s.heap, x, i, v), s.ids, s.live, s.roots, s.locals,
                    s.spec.(objs := s.spec.objs[s.ids[x] := o.(fields := o.fields[i := Abs(s.ids, v)])]))
  {
    var o := s.spec.objs[s.ids[x]];
    CoupledWrite(s.heap, s.ids, s.live, s.roots, s.locals, s.spec, x, i, v, o.(fields := o.fields[i := Abs(s.ids, v)]));
  }

  lemma LocalResolved(s: State, m: nat)
    requires Sound(s) && m < |s.locals|
    ensures m < |s.spec.locals|
    ensures In(s.locals[m], s.live) && In(Resolve(s.heap, s.locals[m]), s.live)
    ensures Abs(s.ids, Resolve(s.heap, s.locals[m])) == s.spec.locals[m]
    ensures s.phase == Mark || s.phase == Pause ==> Resolve(s.heap, s.locals[m]) == s.locals[m]
  {
    hide Placed, Bounded, Evacuating, Updating, Positioned, WeakShape;
    assert In(s.locals[m], s.live);
    ResolveDenotes(s.heap, s.ids, s.live, s.locals[m]);
  }

  lemma WriteRootKeeps(s: State, r: nat, m: nat)
    requires Sound(s) && r < |s.roots| && m < |s.locals|
    ensures r < |s.spec.roots| && m < |s.spec.locals|
    ensures Sound(s.(roots := s.roots[r := Resolve(s.heap, s.locals[m])],
                     spec := s.spec.(roots := s.spec.roots[r := s.spec.locals[m]])))
  {
    LocalResolved(s, m);
    var v := Resolve(s.heap, s.locals[m]);
    var roots' := s.roots[r := v];
    RootCoupled(s, r, v);
    hide Placed, Bounded, Coupled, Evacuating, Marking, Positioned, WeakShape;
    match s.phase {
      case Mark =>
        HandOverKeeps(s.heap, s.live, s.roots, s.locals, s.marked, s.stack, s.registry, roots', s.locals);
      case Update =>
        ResolveClean(s.parts, s.heap, s.live, s.roots, s.marked, s.evacuating, s.it, s.locals[m]);
      case Evacuate =>
      case Pause =>
      case Stop =>
    }
  }

  lemma RootCoupled(s: State, r: nat, v: Value)
    requires Coupled(s.heap, s.ids, s.live, s.roots, s.locals, s.spec) && In(v, s.live) && r < |s.roots|
    ensures |s.spec.roots| == |s.roots|
    ensures Coupled(s.heap, s.ids, s.live, s.roots[r := v], s.locals, s.spec.(roots := s.spec.roots[r := Abs(s.ids, v)]))
  {
    hide Forwards;
    var roots' := s.roots[r := v];
    forall j | 0 <= j < |roots'|
      ensures In(roots'[j], s.live)
    {
      assert In(s.roots[j], s.live);
    }
  }

  // ---------------------------------------------------------------- allocation

  /** `o` takes its field values from locals, possibly resolved. */
  ghost predicate FromLocals(s: State, o: Obj, values: seq<nat>) {
    && |o.fields| == |values|
    && (forall k :: 0 <= k < |values| ==>
          && values[k] < |s.locals|
          && (o.fields[k] == s.locals[values[k]] || o.fields[k] == Resolve(s.heap, s.locals[values[k]])))
  }

  /** A new object: marked while the mark bits matter, free of stale pointers in the update phase. */
  lemma AllocateStep(s: State, parts': seq<Partition>, x: Addr, o: Obj, values: seq<nat>)
    requires Sound(s) && Granted(s.parts, s.heap, s.it.number, o.size, parts', x)
    requires o.forward == x && o.slice == 0 && (o.kind == Weak ==> |o.fields| == 1)
    requires FromLocals(s, o, values)
    requires s.phase == Update ==> AllClean(s.parts, o.fields)
    ensures HasLocals(s.spec, values) && s.nextId !in s.spec.objs
    ensures Sound(s.(parts := parts', heap := s.heap[x := o], locals := s.locals + [Ptr(x)],
                     marked := if s.phase == Mark || s.phase == Evacuate then s.marked + {x} else s.marked,
                     live := s.live + {x}, ids := s.ids[x := s.nextId], nextId := s.nextId + 1,
                     spec := Create(s.spec, s.nextId, AObj(o.kind, LocalValues(s.spec, values)))))
  {
    hide Placed, Bounded, Coupled, Granted, Marking, Evacuating, Updating, Positioned, Extends, WeakShape;
    NewFields(s, o, values);
    GrantFlags(s.parts, s.heap, s.it.number, o.size, parts', x);
    GrantPlaced(s.parts, s.heap, s.it.number, o.size, parts', x, o);
    CoupledAllocate(s.heap, s.ids, s.live, s.roots, s.locals, s.spec, x, o, s.nextId,
                    AObj(o.kind, LocalValues(s.spec, values)));
    GrantBounded(s.parts, s.heap, s.it.number, o.size, parts', x, o);
    WeakShapeExtends(s.heap, x, o);
    ExtendsLength(s.parts, parts');
    AllocatePhase(s, parts', x, o, values);
  }

  lemma ExtendsLength(parts: seq<Partition>, parts': seq<Partition>)
    requires Extends(parts, parts')
    ensures |parts| <= |parts'|
    ensures forall q :: 0 <= q < |parts| ==> parts'[q].evacuate == parts[q].evacuate
    ensures NoFlags(parts) ==> NoFlags(parts')
  {
  }

  lemma WeakShapeExtends(heap: Heap, x: Addr, o: Obj)
    requires WeakShape(heap) && (o.kind == Weak ==> |o.fields| == 1)
    ensures WeakShape(heap[x := o])
  {
  }

  lemma NewFields(s: State, o: Obj, values: seq<nat>)
    requires Sound(s) && FromLocals(s, o, values)
    ensures HasLocals(s.spec, values)
    ensures AllIn(o.fields, s.live)
    ensures Denotes(s.ids, o.fields, LocalValues(s.spec, values))
    ensures s.phase == Mark || s.phase == Pause ==> forall v :: v in o.fields && v.Ptr? ==> v in s.locals
  {
    hide Placed, Bounded, Coupled, Marking, Evacuating, Updating, Positioned, WeakShape, Resolve;
    forall k | 0 <= k < |values|
      ensures values[k] < |s.spec.locals|
      ensures In(o.fields[k], s.live) && Abs(s.ids, o.fields[k]) == s.spec.locals[values[k]]
      ensures s.phase == Mark || s.phase == Pause ==> o.fields[k] in s.locals
    {
      LocalResolved(s, values[k]);
      LocalDenotes(s, values[k]);
    }
  }

  lemma LocalDenotes(s: State, m: nat)
    requires Sound(s) && m < |s.locals|
    ensures m < |s.spec.locals| && Abs(s.ids, s.locals[m]) == s.spec.locals[m]
  {
    hide Placed, Bounded, Forwards, Marking, Evacuating, Updating, Positioned, WeakShape;
  }

  lemma AllocatePhase(s: State, parts': seq<Partition>, x: Addr, o: Obj, values: seq<nat>)
    requires Sound(s) && Granted(s.parts, s.heap, s.it.number, o.size, parts', x)
    requires o.forward == x && o.slice == 0 && FromLocals(s, o, values)
    requires s.phase == Update ==> AllClean(s.parts, o.fields)
    ensures var s' := s.(parts := parts', heap := s.heap[x := o], locals := s.locals + [Ptr(x)],
                         marked := if s.phase == Mark || s.phase == Evacuate then s.marked + {x} else s.marked,
                         live := s.live + {x});
            match s.phase
            case Stop => true
            case Pause => InPause(s')
            case Mark => InMark(s', {})
            case Evacuate => InEvacuation(s')
            case Update => InUpdate(s') && Positioned(s'.parts, s'.heap, s'.it)
  {
    hide Placed, Bounded, Granted, Marking, Evacuating, Updating, Positioned, Extends, WeakShape, Denotes;
    NewFields(s, o, values);
    GrantFlags(s.parts, s.heap, s.it.number, o.size, parts', x);
    ExtendsLength(s.parts, parts');
    LiveInHeap(s);
    match s.phase {
      case Mark =>
        AllocateKeeps(s.heap, s.live, s.roots, s.locals, s.marked, s.stack, s.registry, x, o);
      case Evacuate =>
        EvacuatingAllocate(s.parts, s.heap, s.live, s.marked, s.evacuating, s.it, parts', x, o);
      case Update =>
        UpdatingAllocate(s.parts, s.heap, s.live, s.roots, s.marked, s.evacuating, s.it, parts', x, o);
      case Pause =>
      case Stop =>
    }
  }

  lemma LiveInHeap(s: State)
    requires Common(s)
    ensures s.live <= s.heap.Keys && AllIn(s.roots, s.live)
    ensures forall a :: a in s.live && Canonical(s.heap, a) ==> AllIn(s.heap[a].fields, s.live)
  {
    hide Placed, Bounded, WeakShape;
  }
}
