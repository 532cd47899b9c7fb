/** That a collection comes to its end, and that what it keeps was needed: the marks are no more than
  * what was reachable when marking began, or has entered since.
  */
module GcPrecision {
  import opened GcModel
  import opened GcMarking
  import opened GcRelocation
  import opened GcMachine
  import opened GcPhases

  // The running collection: what the program had when marking began, the objects that have been allocated
  // or loaded from a weak reference since, and the partitions chosen for evacuation.
  datatype Trace = Trace(origin: Spec, entered: set<Oid>, chosen: set<nat>)

  // ---------------------------------------------------------------- what may be kept

  /** Holds all that was reachable in the beginning, and what has entered since. */
  ghost predicate Enough(t: Trace, c: set<Oid>) {
    StrongClosed(t.origin, c) && t.entered <= c
  }

  /** Reachable in the beginning from the roots, or from what has entered since. */
  ghost predicate Needful(t: Trace, id: Oid) {
    forall c: set<Oid> :: Enough(t, c) ==> id in c
  }

  /** All that the program can still strongly reach lies in `c`. */
  ghost predicate Holding(spec: Spec, c: set<Oid>) {
    StrongClosed(spec, c) && RefsIn(spec.locals, c)
  }

  ghost predicate IdsIn(ids: Ids, kept: set<Addr>, c: set<Oid>) {
    forall a :: a in kept && a in ids ==> ids[a] in c
  }

  /** Neither what is kept nor what the program can strongly reach is more than what is needful. */
  ghost predicate Precise(t: Trace, spec: Spec, ids: Ids, kept: set<Addr>) {
    forall c: set<Oid> :: Enough(t, c) ==> Holding(spec, c) && IdsIn(ids, kept, c)
  }

  lemma PreciseNeedful(t: Trace, spec: Spec, ids: Ids, kept: set<Addr>, a: Addr)
    requires Precise(t, spec, ids, kept) && a in kept && a in ids
    ensures Needful(t, ids[a])
  {
  }

  /** In the beginning nothing is kept but the targets of the roots. */
  lemma PreciseStart(s: State)
    requires Common(s) && s.locals == []
    ensures Precise(Trace(s.spec, {}, {}), s.spec, s.ids, {})
    ensures Precise(Trace(s.spec, {}, {}), s.spec, s.ids, Targets(s.roots, 0, |s.roots|))
  {
    hide Placed, Bounded, WeakShape, Forwards;
    assert s.spec.locals == [];
    forall c: set<Oid>, a | StrongClosed(s.spec, c) && a in Targets(s.roots, 0, |s.roots|) && a in s.ids
      ensures s.ids[a] in c
    {
      var i :| 0 <= i < |s.roots| && s.roots[i].Ptr? && s.roots[i].addr == a;
      assert s.spec.roots[i] == Abs(s.ids, s.roots[i]);
    }
  }

  lemma PreciseFewer(t: Trace, spec: Spec, ids: Ids, kept: set<Addr>, kept': set<Addr>)
    requires Precise(t, spec, ids, kept) && kept' <= kept
    ensures Precise(t, spec, ids, kept')
  {
  }

  /** The targets of an object that is kept, and no weak reference, are as needful as the object. */
  lemma PreciseFields(s: State, t: Trace, x: Addr, lo: nat, hi: nat)
    requires Common(s) && x in s.live && x in s.heap && Canonical(s.heap, x) && s.heap[x].kind != Weak && hi <= |s.heap[x].fields|
    requires Precise(t, s.spec, s.ids, s.marked) && x in s.marked
    ensures Precise(t, s.spec, s.ids, Targets(s.heap[x].fields, lo, hi))
  {
    hide Placed, Bounded, WeakShape;
    var o := s.spec.objs[s.ids[x]];
    forall c: set<Oid> | Enough(t, c)
      ensures IdsIn(s.ids, Targets(s.heap[x].fields, lo, hi), c)
    {
      assert Holding(s.spec, c) && IdsIn(s.ids, s.marked, c);
      assert RefsIn(o.fields, c);
      forall a | a in Targets(s.heap[x].fields, lo, hi) && a in s.ids
        ensures s.ids[a] in c
      {
        var i :| lo <= i < hi && s.heap[x].fields[i].Ptr? && s.heap[x].fields[i].addr == a;
        assert o.fields[i] == Abs(s.ids, s.heap[x].fields[i]);
      }
    }
  }

  /** Weak references that become null change nothing about what is needful. */
  lemma PreciseCleared(t: Trace, spec: Spec, spec': Spec, ids: Ids, kept: set<Addr>)
    requires Precise(t, spec, ids, kept) && WeakCleared(spec, spec')
    ensures Precise(t, spec', ids, kept)
  {
    hide Reachable;
    forall c: set<Oid> | Enough(t, c)
      ensures Holding(spec', c)
    {
      assert Holding(spec, c);
      forall id | id in c && id in spec'.objs && spec'.objs[id].kind != Weak
        ensures RefsIn(spec'.objs[id].fields, c)
      {
        assert spec'.objs[id] == spec.objs[id];
      }
    }
  }

  /** A copy is as needful as the original. */
  lemma PreciseCopy(t: Trace, spec: Spec, ids: Ids, kept: set<Addr>, x: Addr, copy: Addr)
    requires Precise(t, spec, ids, kept) && x in kept && x in ids && copy !in kept
    ensures Precise(t, spec, ids[copy := ids[x]], kept + {copy})
  {
    forall c: set<Oid> | Enough(t, c)
      ensures IdsIn(ids[copy := ids[x]], kept + {copy}, c)
    {
      assert IdsIn(ids, kept, c);
    }
  }

  // ---------------------------------------------------------------- steps of the program

  /** The program gets hold of nothing new by a step that neither allocates nor loads a weak reference. */
  lemma PreciseStep(t: Trace, spec: Spec, action: Action, spec': Spec, ids: Ids, kept: set<Addr>)
    requires Precise(t, spec, ids, kept) && Step(spec, action, spec')
    requires !action.Allocate? && !action.AllocateWeak? && !action.ReadWeak? && !action.Collect?
    ensures Precise(t, spec', ids, kept)
  {
    forall c: set<Oid> | Enough(t, c)
      ensures Holding(spec', c)
    {
      assert Holding(spec, c);
      HoldingStep(spec, action, spec', c);
    }
  }

  lemma HoldingStep(spec: Spec, action: Action, spec': Spec, c: set<Oid>)
    requires Holding(spec, c) && Step(spec, action, spec')
    requires !action.Allocate? && !action.AllocateWeak? && !action.ReadWeak? && !action.Collect?
    ensures Holding(spec', c)
  {
    match action {
      case WriteField(l, i, m) =>
        if HasField(spec, l, i) && m < |spec.locals| {
          var id := spec.locals[l].oid;
          assert id in c;
          forall d | d in c && d in spec'.objs && spec'.objs[d].kind != Weak
            ensures RefsIn(spec'.objs[d].fields, c)
          {
            assert RefsIn(spec.objs[d].fields, c);
          }
        }
      case ReadField(l, i) =>
        if HasField(spec, l, i) {
          assert spec.locals[l].oid in c;
          assert RefsIn(spec.objs[spec.locals[l].oid].fields, c);
        }
      case _ =>
    }
  }

  /** A value that is loaded from a weak reference enters. */
  lemma PrecisePush(t: Trace, spec: Spec, v: AValue, ids: Ids, kept: set<Addr>)
    requires Precise(t, spec, ids, kept) && (v.ARef? ==> Needful(t, v.oid))
    ensures Precise(t, Push(spec, v), ids, kept)
  {
    forall c: set<Oid> | Enough(t, c)
      ensures Holding(Push(spec, v), c)
    {
      assert Holding(spec, c);
    }
  }

  lemma PreciseMore(t: Trace, spec: Spec, ids: Ids, kept: set<Addr>, x: Addr)
    requires Precise(t, spec, ids, kept) && (x in ids ==> Needful(t, ids[x]))
    ensures Precise(t, spec, ids, kept + {x})
  {
    forall c: set<Oid> | Enough(t, c)
      ensures IdsIn(ids, kept + {x}, c)
    {
      assert IdsIn(ids, kept, c);
    }
  }

  /** A new object enters. */
  lemma PreciseCreate(t: Trace, spec: Spec, ids: Ids, kept: set<Addr>, kept': set<Addr>, x: Addr, id: Oid, o: AObj, values: seq<nat>)
    requires Precise(t, spec, ids, kept) && x !in kept && kept' <= kept + {x} && id !in spec.objs
    requires HasLocals(spec, values) && o.fields == LocalValues(spec, values)
    ensures Precise(t.(entered := t.entered + {id}), Create(spec, id, o), ids[x := id], kept')
  {
    forall c: set<Oid> | Enough(t.(entered := t.entered + {id}), c)
      ensures Holding(Create(spec, id, o), c) && IdsIn(ids[x := id], kept', c)
    {
      assert Enough(t, c);
      assert Holding(spec, c) && IdsIn(ids, kept, c);
      forall d | d in c && d in Create(spec, id, o).objs && Create(spec, id, o).objs[d].kind != Weak
        ensures RefsIn(Create(spec, id, o).objs[d].fields, c)
      {
        if d != id {
          assert RefsIn(spec.objs[d].fields, c);
        }
      }
    }
  }

  /** What a root, or a field of an object that a local denotes, points to is needful. */
  lemma RootNeedful(s: State, t: Trace, r: nat)
    requires Common(s) && Precise(t, s.spec, s.ids, s.marked) && r < |s.roots| && s.roots[r].Ptr?
    ensures s.roots[r].addr in s.ids ==> Needful(t, s.ids[s.roots[r].addr])
  {
    hide Placed, Bounded, WeakShape, Forwards;
    if s.roots[r].addr in s.ids {
      assert s.spec.roots[r] == Abs(s.ids, s.roots[r]);
      forall c: set<Oid> | Enough(t, c)
        ensures s.ids[s.roots[r].addr] in c
      {
        assert Holding(s.spec, c);
      }
    }
  }

  lemma FieldNeedful(s: State, t: Trace, l: nat, i: nat)
    requires Sound(s) && Precise(t, s.spec, s.ids, s.marked) && l < |s.locals| && s.locals[l].Ptr? && s.locals[l].addr in s.heap
    requires var x := s.heap[s.locals[l].addr].forward;
             x in s.heap && s.heap[x].kind != Weak && i < |s.heap[x].fields| && s.heap[x].fields[i].Ptr?
    ensures var v := s.heap[s.heap[s.locals[l].addr].forward].fields[i];
            v.addr in s.ids ==> Needful(t, s.ids[v.addr])
  {
    LocalCanonical(s, l);
    hide Sound, Canonical;
    var x := s.heap[s.locals[l].addr].forward;
    var a := s.heap[x].fields[i].addr;
    if a in s.ids {
      assert s.spec.objs[s.ids[x]].fields[i] == Abs(s.ids, s.heap[x].fields[i]);
      forall c: set<Oid> | Enough(t, c)
        ensures s.ids[a] in c
      {
        assert Holding(s.spec, c);
        assert s.spec.locals[l].oid in c;
        assert RefsIn(s.spec.objs[s.ids[x]].fields, c);
      }
    }
  }

  // ---------------------------------------------------------------- the running collection

  ghost predicate Distinct(stack: seq<Addr>) {
    forall j, k :: 0 <= j < k < |stack| ==> stack[j] != stack[k]
  }

  ghost predicate ChosenFlagged(parts: seq<Partition>, chosen: set<nat>) {
    forall p :: p in chosen ==> p < |parts| && parts[p].evacuate
  }

  /** Large objects that are not needed have gone. */
  ghost predicate LargeLive(heap: Heap, live: set<Addr>) {
    forall a :: a in heap && a !in live ==> Span(heap[a]) == 1
  }

  /** The mark phase, while `work` is still to be marked. */
  ghost predicate MarkTraced(s: State, t: Trace, work: set<Addr>) {
    Precise(t, s.spec, s.ids, s.marked) && Precise(t, s.spec, s.ids, work) && Distinct(s.stack)
  }

  ghost predicate MoveTraced(s: State, t: Trace) {
    Precise(t, s.spec, s.ids, s.live) && ChosenFlagged(s.parts, t.chosen)
  }

  ghost predicate Traced(s: State, t: Trace) {
    match s.phase
    case Mark => MarkTraced(s, t, {})
    case Evacuate => MoveTraced(s, t)
    case Update => MoveTraced(s, t) && LargeLive(s.heap, s.live)
    case _ => true
  }

  /** After a collection: only what is needful is live, no other large object is left, and the chosen
    * partitions are empty. */
  ghost predicate Collected(s: State, t: Trace) {
    && Precise(t, s.spec, s.ids, s.live)
    && LargeLive(s.heap, s.live)
    && (forall a :: a in s.heap ==> Part(a) !in t.chosen)
    && WeakSettled(s.spec, t)
  }

  /** Weak references that the program can reach are null or refer to what is needful. */
  ghost predicate WeakSettled(spec: Spec, t: Trace) {
    forall id :: id in spec.objs && Reachable(spec, id) && spec.objs[id].kind == Weak ==>
      forall i :: 0 <= i < |spec.objs[id].fields| && spec.objs[id].fields[i].ARef? ==> Needful(t, spec.objs[id].fields[i].oid)
  }

  ghost function LiveIds(s: State): set<Oid>
    requires s.live <= s.ids.Keys
  {
    set a | a in s.live :: s.ids[a]
  }

  /** Of what the program can strongly reach nothing is lost. */
  lemma LiveClosed(s: State)
    requires Common(s)
    ensures s.live <= s.ids.Keys && StrongClosed(s.spec, LiveIds(s))
    ensures forall id :: Reachable(s.spec, id) ==> id in LiveIds(s)
  {
    hide Placed, Bounded, WeakShape, Reachable;
    var c := LiveIds(s);
    forall i | 0 <= i < |s.spec.roots| && s.spec.roots[i].ARef?
      ensures s.spec.roots[i].oid in c
    {
      assert s.spec.roots[i] == Abs(s.ids, s.roots[i]) && In(s.roots[i], s.live);
    }
    forall id | id in c && id in s.spec.objs && s.spec.objs[id].kind != Weak
      ensures RefsIn(s.spec.objs[id].fields, c)
    {
      var a :| a in s.live && s.ids[a] == id;
      LiveFields(s, a);
    }
    ReachableIn(s.spec, c);
  }

  lemma ReachableIn(spec: Spec, c: set<Oid>)
    requires StrongClosed(spec, c)
    ensures forall id :: Reachable(spec, id) ==> id in c
  {
  }

  lemma LiveFields(s: State, a: Addr)
    requires Common(s) && a in s.live
    ensures s.live <= s.ids.Keys && a in s.ids && s.ids[a] in s.spec.objs
    ensures RefsIn(s.spec.objs[s.ids[a]].fields, LiveIds(s))
  {
    hide Placed, Bounded, WeakShape;
    var b := s.heap[a].forward;
    assert Canonical(s.heap, b) && b in s.live && s.ids[b] == s.ids[a];
    var o := s.spec.objs[s.ids[b]];
    forall i | 0 <= i < |o.fields| && o.fields[i].ARef?
      ensures o.fields[i].oid in LiveIds(s)
    {
      assert o.fields[i] == Abs(s.ids, s.heap[b].fields[i]) && In(s.heap[b].fields[i], s.live);
    }
  }

  lemma SettledAtEnd(s: State, t: Trace)
    requires Common(s) && Precise(t, s.spec, s.ids, s.live)
    ensures WeakSettled(s.spec, t)
  {
    hide Common, Precise, Reachable;
    LiveClosed(s);
    forall id, i | id in s.spec.objs && Reachable(s.spec, id) && 0 <= i < |s.spec.objs[id].fields| && s.spec.objs[id].fields[i].ARef?
      ensures Needful(t, s.spec.objs[id].fields[i].oid)
    {
      var a :| a in s.live && s.ids[a] == id;
      LiveFields(s, a);
      var b :| b in s.live && s.ids[b] == s.spec.objs[id].fields[i].oid;
      PreciseNeedful(t, s.spec, s.ids, s.live, b);
    }
  }

  /** Without anything that has entered, needful is what was reachable in the beginning. */
  lemma NeedfulReachable(t: Trace, id: Oid)
    requires t.entered == {}
    ensures Needful(t, id) <==> Reachable(t.origin, id)
  {
    if Needful(t, id) {
      forall c: set<Oid> | StrongClosed(t.origin, c)
        ensures id in c
      {
        assert Enough(t, c);
      }
    }
  }

  // ---------------------------------------------------------------- what is left to do

  ghost function Rank(phase: Phase): nat {
    match phase
    case Mark => 3
    case Evacuate => 2
    case Update => 1
    case _ => 0
  }

  /** Objects on the mark stack, and their fields that have not been scanned. */
  ghost function ToVisit(heap: Heap, stack: seq<Addr>): nat {
    if stack == [] then 0
    else
      var a := stack[|stack| - 1];
      var n := if a in heap && heap[a].slice <= |heap[a].fields| then |heap[a].fields| - heap[a].slice else 0;
      ToVisit(heap, stack[..|stack| - 1]) + n + 1
  }

  predicate Lowest(s: set<Addr>, x: Addr) {
    x in s && forall y :: y in s ==> x <= y
  }

  lemma LowestExists(s: set<Addr>) returns (x: Addr)
    requires s != {}
    ensures Lowest(s, x)
    decreases |s|
  {
    x :| x in s;
    var rest := s - {x};
    if rest != {} {
      var m := LowestExists(rest);
      forall y | y in s
        ensures y == x || m <= y
      {
        assert y == x || y in rest;
      }
      x := if m < x then m else x;
    }
  }

  ghost function First(s: set<Addr>): (x: Addr)
    requires s != {}
    ensures Lowest(s, x)
  {
    assert exists x :: Lowest(s, x) by {
      var x := LowestExists(s);
    }
    var x :| Lowest(s, x);
    x
  }

  /** Fields of the next object that have not been updated. */
  ghost function ToUpdateNext(heap: Heap, pending: set<Addr>): nat {
    if pending == {} then 0
    else
      var x := First(pending);
      if x in heap && heap[x].slice <= |heap[x].fields| then |heap[x].fields| - heap[x].slice else 0
  }

  ghost function Unmarked(s: State): set<Addr> {
    if s.phase == Mark then s.live - s.marked else {}
  }

  ghost function Distance(s: State): nat {
    if s.phase == Mark then ToVisit(s.heap, s.stack)
    else if (s.phase == Evacuate || s.phase == Update) && s.it.index <= s.it.number then s.it.number - s.it.index
    else 0
  }

  ghost function Waiting(s: State): set<Addr> {
    if s.phase == Evacuate || s.phase == Update then s.it.pending else {}
  }

  ghost function Slice(s: State): nat {
    if s.phase == Update then ToUpdateNext(s.heap, s.it.pending) else 0
  }

  /** Less is left to do: phases, objects to mark, fields to scan or partitions to visit, objects of the
    * partition, slices of the object. */
  ghost predicate Closer(s: State, s': State) {
    || Rank(s'.phase) < Rank(s.phase)
    || (Rank(s'.phase) == Rank(s.phase)
        && (Unmarked(s') < Unmarked(s)
            || (Unmarked(s') == Unmarked(s)
                && (Distance(s') < Distance(s)
                    || (Distance(s') == Distance(s)
                        && (Waiting(s') < Waiting(s)
                            || (Waiting(s') == Waiting(s) && Slice(s') < Slice(s))))))))
  }

  lemma CloserThen(s: State, s': State, s'': State)
    requires Closer(s, s') && Closer(s', s'')
    ensures Closer(s, s'')
  {
    hide Unmarked, Distance, Waiting, Slice, Rank;
  }

  lemma {:induction false} ToVisitSame(heap: Heap, heap': Heap, stack: seq<Addr>)
    requires forall k :: 0 <= k < |stack| ==> (stack[k] in heap <==> stack[k] in heap')
    requires forall k :: 0 <= k < |stack| && stack[k] in heap ==> heap'[stack[k]] == heap[stack[k]]
    ensures ToVisit(heap', stack) == ToVisit(heap, stack)
  {
    if stack != [] {
      ToVisitSame(heap, heap', stack[..|stack| - 1]);
    }
  }

  /** Visiting the top of the stack, or a slice of it, leaves less to visit. */
  lemma ToVisitLess(heap: Heap, stack: seq<Addr>, x: Addr, next: nat)
    requires Distinct(stack + [x]) && x in heap && heap[x].slice <= |heap[x].fields|
    ensures ToVisit(WithSlice(heap, x, 0), stack) < ToVisit(heap, stack + [x])
    ensures heap[x].slice < next <= |heap[x].fields| ==>
              ToVisit(WithSlice(heap, x, next), stack + [x]) < ToVisit(heap, stack + [x])
  {
    var all := stack + [x];
    assert all[..|all| - 1] == stack && all[|stack|] == x;
    forall k | 0 <= k < |stack|
      ensures stack[k] != x
    {
      assert all[k] == stack[k];
    }
    ToVisitSame(heap, WithSlice(heap, x, 0), stack);
    ToVisitSame(heap, WithSlice(heap, x, next), stack);
  }
}
