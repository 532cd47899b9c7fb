/** What the program observes: the transitions of the machine that never reclaims anything. */
module GcMachine {
  import opened GcModel

  datatype Action =
    | PushScalar(raw: nat)
    | ReadRoot(root: nat)
    | WriteRoot(root: nat, value: nat)
    | ReadField(local: nat, field: nat)
    | WriteField(local: nat, field: nat, value: nat)
    | Allocate(isArray: bool, size: nat, values: seq<nat>)
    | AllocateWeak(value: nat)
    | ReadWeak(local: nat)
    | Return
    | Collect

  /** Local `l` refers to an object, weak or not as asked. */
  ghost predicate LocalObject(s: Spec, l: nat, weak: bool) {
    && l < |s.locals|
    && s.locals[l].ARef?
    && s.locals[l].oid in s.objs
    && (s.objs[s.locals[l].oid].kind == Weak <==> weak)
  }

  ghost predicate HasField(s: Spec, l: nat, i: nat) {
    LocalObject(s, l, false) && i < |s.objs[s.locals[l].oid].fields|
  }

  ghost predicate HasLocals(s: Spec, values: seq<nat>) {
    forall k :: 0 <= k < |values| ==> values[k] < |s.locals|
  }

  ghost function LocalValues(s: Spec, values: seq<nat>): seq<AValue>
    requires HasLocals(s, values)
  {
    seq(|values|, k requires 0 <= k < |values| => s.locals[values[k]])
  }

  ghost function Push(s: Spec, v: AValue): Spec {
    s.(locals := s.locals + [v])
  }

  ghost function Store(s: Spec, l: nat, i: nat, v: AValue): Spec
    requires HasField(s, l, i)
  {
    var id := s.locals[l].oid;
    s.(objs := s.objs[id := s.objs[id].(fields := s.objs[id].fields[i := v])])
  }

  ghost function Create(s: Spec, id: Oid, o: AObj): Spec {
    s.(objs := s.objs[id := o], locals := s.locals + [ARef(id)])
  }

  // ---------------------------------------------------------------- strong reachability

  ghost predicate RefsIn(values: seq<AValue>, c: set<Oid>) {
    forall i :: 0 <= i < |values| && values[i].ARef? ==> values[i].oid in c
  }

  /** `c` holds the roots' objects and, with an object that is no weak reference, what it refers to. */
  ghost predicate StrongClosed(s: Spec, c: set<Oid>) {
    && RefsIn(s.roots, c)
    && (forall id :: id in c && id in s.objs && s.objs[id].kind != Weak ==> RefsIn(s.objs[id].fields, c))
  }

  ghost predicate Reachable(s: Spec, id: Oid) {
    forall c: set<Oid> :: StrongClosed(s, c) ==> id in c
  }

  /** The only thing a collection may change: weak references to objects that are not strongly
    * reachable become null. */
  ghost predicate WeakCleared(s: Spec, s': Spec) {
    && s'.roots == s.roots && s'.locals == s.locals && s'.objs.Keys == s.objs.Keys
    && forall id :: id in s.objs ==>
         || s'.objs[id] == s.objs[id]
         || (&& s.objs[id].kind == Weak && |s.objs[id].fields| == 1 && s.objs[id].fields[0].ARef?
             && !Reachable(s, s.objs[id].fields[0].oid)
             && s'.objs[id] == AObj(Weak, [ANull]))
  }

  /** One action of the program or the scheduler; an ill-typed action does nothing. */
  ghost predicate Step(s: Spec, action: Action, s': Spec) {
    match action
    case PushScalar(raw) =>
      s' == Push(s, AScalar(raw))
    case ReadRoot(r) =>
      s' == if r < |s.roots| then Push(s, s.roots[r]) else s
    case WriteRoot(r, m) =>
      s' == if r < |s.roots| && m < |s.locals| then s.(roots := s.roots[r := s.locals[m]]) else s
    case ReadField(l, i) =>
      s' == if HasField(s, l, i) then Push(s, s.objs[s.locals[l].oid].fields[i]) else s
    case WriteField(l, i, m) =>
      s' == if HasField(s, l, i) && m < |s.locals| then Store(s, l, i, s.locals[m]) else s
    case Allocate(isArray, size, values) =>
      if HasLocals(s, values) then
        exists id :: id !in s.objs && s' == Create(s, id, AObj(if isArray then Array else Plain, LocalValues(s, values)))
      else
        s' == s
    case AllocateWeak(m) =>
      if m < |s.locals| then
        exists id :: id !in s.objs && s' == Create(s, id, AObj(Weak, [s.locals[m]]))
      else
        s' == s
    case ReadWeak(l) =>
      s' == if LocalObject(s, l, true) && |s.objs[s.locals[l].oid].fields| == 1
            then Push(s, s.objs[s.locals[l].oid].fields[0]) else s
    case Return =>
      s' == s.(locals := [])
    case Collect =>
      if s.locals == [] then WeakCleared(s, s') else s' == s
  }

  /** `trace` is what the machine does under the given actions. */
  ghost predicate Run(actions: seq<Action>, trace: seq<Spec>) {
    && |trace| == |actions| + 1
    && forall k :: 0 <= k < |actions| ==> Step(trace[k], actions[k], trace[k + 1])
  }

  /** Clearing weak references does not change what is strongly reachable. */
  lemma ReachableAfterClearing(s: Spec, s': Spec, id: Oid)
    requires WeakCleared(s, s')
    ensures Reachable(s', id) <==> Reachable(s, id)
  {
    forall c: set<Oid>
      ensures StrongClosed(s, c) <==> StrongClosed(s', c)
    {
      forall d | d in s.objs && s.objs[d].kind != Weak
        ensures s'.objs[d] == s.objs[d]
      {
      }
    }
  }

  /** Nothing that the program can strongly reach is ever lost or altered by a collection. */
  lemma ReachableUnchanged(s: Spec, s': Spec, id: Oid)
    requires WeakCleared(s, s') && Reachable(s, id) && id in s.objs && s.objs[id].kind != Weak
    ensures s'.objs[id] == s.objs[id]
    ensures forall i :: 0 <= i < |s.objs[id].fields| && s.objs[id].fields[i].ARef? ==>
              Reachable(s, s.objs[id].fields[i].oid)
  {
    forall i, c: set<Oid> | 0 <= i < |s.objs[id].fields| && s.objs[id].fields[i].ARef? && StrongClosed(s, c)
      ensures s.objs[id].fields[i].oid in c
    {
      assert id in c;
    }
  }
}
