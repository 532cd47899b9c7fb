/** The heap as the incremental collector sees it, and the collector-free machine it implements.
  *
  * The concrete heap maps object addresses to objects with a Brooks forwarding pointer; an address
  * lies in partition `a / PARTITION_SIZE`. The abstract machine (`Spec`) has object identities
  * instead of addresses and never reclaims anything. `Coupled` relates the two: every value that the
  * program can still get hold of denotes, through forwarding, the object the abstract machine has.
  */
module GcModel {

  const PARTITION_SIZE: nat := 64 * 1024 * 1024

  type Addr = nat

  datatype Value = Scalar(raw: nat) | Null | Ptr(addr: Addr)

  datatype Kind = Plain | Array | Weak

  // `slice` is the slice start that an array header carries while the array is visited piecewise
  // (0 when the header holds the ordinary tag). `size` is the block size in bytes.
  datatype Obj = Obj(kind: Kind, size: nat, fields: seq<Value>, forward: Addr, slice: nat)

  type Heap = map<Addr, Obj>

  datatype Phase = Stop | Pause | Mark | Evacuate | Update

  // `pinned`: the static space fills the whole partition.
  datatype Partition = Partition(free: bool, large: bool, temporary: bool, pinned: bool,
                                 evacuate: bool, update: bool)
  {
    predicate HasDynamicSpace() {
      !free && !temporary && !pinned
    }
  }

  // Position of a `PartitionedHeapIterator`: the current partition and the marked objects of it
  // that are still to be visited.
  datatype Iterator = Iterator(index: nat, number: nat, pending: set<Addr>)

  function Part(a: Addr): nat {
    a / PARTITION_SIZE
  }

  /** Number of partitions that an object occupies. */
  function Span(o: Obj): (n: nat)
    ensures n >= 1
  {
    if o.size <= PARTITION_SIZE then 1 else (o.size + PARTITION_SIZE - 1) / PARTITION_SIZE
  }

  // ---------------------------------------------------------------- elementary heap changes

  /** The header of `x` records a slice start. */
  function WithSlice(heap: Heap, x: Addr, slice: nat): Heap
    requires x in heap
  {
    heap[x := heap[x].(slice := slice)]
  }

  /** Field `i` of `x` is overwritten. */
  function WithField(heap: Heap, x: Addr, i: nat, v: Value): Heap
    requires x in heap && i < |heap[x].fields|
  {
    heap[x := heap[x].(fields := heap[x].fields[i := v])]
  }

  /** `x` is copied to `copy`; the original and the copy both forward to the copy. */
  function WithCopy(heap: Heap, x: Addr, copy: Addr): Heap
    requires x in heap
  {
    heap[copy := heap[x].(forward := copy)][x := heap[x].(forward := copy)]
  }

  // ---------------------------------------------------------------- pointers into sets

  ghost predicate In(v: Value, s: set<Addr>) {
    v.Ptr? ==> v.addr in s
  }

  ghost predicate AllIn(values: seq<Value>, s: set<Addr>) {
    forall i :: 0 <= i < |values| ==> In(values[i], s)
  }

  /** The fields that the mark phase follows: all of them, except for a weak reference. */
  function StrongFields(o: Obj): seq<Value> {
    if o.kind == Weak then [] else o.fields
  }

  // ---------------------------------------------------------------- placement in partitions

  /** Partition `q` continues a large object that starts before it. */
  predicate Continues(heap: Heap, q: nat) {
    exists a :: a in heap && Part(a) < q < Part(a) + Span(heap[a])
  }

  /** Every object lies in partitions that are in use. */
  predicate InUse(parts: seq<Partition>, heap: Heap) {
    forall a :: a in heap ==>
      && Part(a) + Span(heap[a]) <= |parts|
      && parts[Part(a)].HasDynamicSpace()
      && (parts[Part(a)].large <==> Span(heap[a]) > 1)
  }

  /** A large object starts at a partition boundary and has its partitions flagged. */
  predicate LargeAligned(parts: seq<Partition>, heap: Heap) {
    forall a :: a in heap && Span(heap[a]) > 1 ==>
      && a == Part(a) * PARTITION_SIZE
      && Part(a) + Span(heap[a]) <= |parts|
      && (forall q :: Part(a) <= q < Part(a) + Span(heap[a]) ==> parts[q].large && parts[q].HasDynamicSpace())
  }

  /** A large object has its partitions for itself. */
  predicate LargeAlone(heap: Heap) {
    forall a, b :: a in heap && b in heap && a != b && Part(a) <= Part(b) ==>
      Span(heap[a]) == 1 || Part(a) + Span(heap[a]) <= Part(b)
  }

  /** A partition flagged as large belongs to a large object. */
  predicate LargeHeld(parts: seq<Partition>, heap: Heap) {
    forall q :: 0 <= q < |parts| && parts[q].large ==> q * PARTITION_SIZE in heap || Continues(heap, q)
  }

  predicate Placed(parts: seq<Partition>, heap: Heap) {
    InUse(parts, heap) && LargeAligned(parts, heap) && LargeAlone(heap) && LargeHeld(parts, heap)
  }

  /** Same objects of the same sizes. */
  ghost predicate SameShape(heap: Heap, heap': Heap) {
    heap.Keys == heap'.Keys && forall a :: a in heap ==> heap'[a].size == heap[a].size
  }

  lemma PlacedSameShape(parts: seq<Partition>, heap: Heap, heap': Heap)
    requires Placed(parts, heap) && SameShape(heap, heap')
    ensures Placed(parts, heap')
  {
    forall a | a in heap'
      ensures Span(heap'[a]) == Span(heap[a])
    {
    }
    forall q | 0 <= q < |parts| && parts[q].large && q * PARTITION_SIZE !in heap'
      ensures Continues(heap', q)
    {
      var a :| a in heap && Part(a) < q < Part(a) + Span(heap[a]);
      assert a in heap' && Part(a) < q < Part(a) + Span(heap'[a]);
    }
  }

  // ---------------------------------------------------------------- the abstract machine

  type Oid = nat

  datatype AValue = AScalar(raw: nat) | ANull | ARef(oid: Oid)

  datatype AObj = AObj(kind: Kind, fields: seq<AValue>)

  datatype Spec = Spec(objs: map<Oid, AObj>, roots: seq<AValue>, locals: seq<AValue>)

  type Ids = map<Addr, Oid>

  ghost function Abs(ids: Ids, v: Value): AValue {
    match v
    case Scalar(raw) => AScalar(raw)
    case Null => ANull
    case Ptr(a) => if a in ids then ARef(ids[a]) else ANull
  }

  ghost predicate Denotes(ids: Ids, values: seq<Value>, avalues: seq<AValue>) {
    |avalues| == |values| && forall i :: 0 <= i < |values| ==> avalues[i] == Abs(ids, values[i])
  }

  /** A canonical object is one that is not forwarded elsewhere. */
  ghost predicate Canonical(heap: Heap, a: Addr) {
    a in heap && heap[a].forward == a
  }

  /** Forwarding stays inside the live set, ends after one step and keeps identities apart. */
  ghost predicate Forwards(heap: Heap, ids: Ids, live: set<Addr>) {
    && live <= heap.Keys && live <= ids.Keys
    && (forall a :: a in live ==>
          && heap[a].forward in live
          && Canonical(heap, heap[a].forward)
          && ids[heap[a].forward] == ids[a])
    && (forall a, b :: a in live && b in live && ids[a] == ids[b] ==> heap[a].forward == heap[b].forward)
  }

  ghost predicate Coupled(heap: Heap, ids: Ids, live: set<Addr>, roots: seq<Value>, locals: seq<Value>, spec: Spec) {
    && Forwards(heap, ids, live)
    && AllIn(roots, live) && Denotes(ids, roots, spec.roots)
    && AllIn(locals, live) && Denotes(ids, locals, spec.locals)
    && (forall a :: a in live && Canonical(heap, a) ==>
          && ids[a] in spec.objs
          && AllIn(heap[a].fields, live)
          && spec.objs[ids[a]].kind == heap[a].kind
          && Denotes(ids, heap[a].fields, spec.objs[ids[a]].fields))
  }

  /** Resolving the forwarding pointer does not change what a value denotes. */
  function Resolve(heap: Heap, v: Value): Value {
    if v.Ptr? && v.addr in heap then Ptr(heap[v.addr].forward) else v
  }

  lemma ResolveDenotes(heap: Heap, ids: Ids, live: set<Addr>, v: Value)
    requires Forwards(heap, ids, live) && In(v, live)
    ensures In(Resolve(heap, v), live)
    ensures Abs(ids, Resolve(heap, v)) == Abs(ids, v)
    ensures Resolve(heap, v).Ptr? ==> Canonical(heap, Resolve(heap, v).addr)
  {
  }

  function ResolveAll(heap: Heap, values: seq<Value>): seq<Value> {
    seq(|values|, i requires 0 <= i < |values| => Resolve(heap, values[i]))
  }

  // ---------------------------------------------------------------- coupling is kept by the elementary heap changes

  /** Same objects with the same forwarding pointers. */
  ghost predicate SameForwards(heap: Heap, heap': Heap) {
    heap.Keys == heap'.Keys && forall a :: a in heap ==> heap'[a].forward == heap[a].forward
  }

  lemma ForwardsSame(heap: Heap, heap': Heap, ids: Ids, live: set<Addr>)
    requires Forwards(heap, ids, live) && SameForwards(heap, heap')
    ensures Forwards(heap', ids, live)
    ensures forall a :: a in heap ==> (Canonical(heap', a) <==> Canonical(heap, a))
  {
    forall a | a in heap
      ensures Canonical(heap', a) <==> Canonical(heap, a)
    {
    }
  }

  /** Only the header word that holds the slice start changes. */
  lemma CoupledSlice(heap: Heap, ids: Ids, live: set<Addr>, roots: seq<Value>, locals: seq<Value>, spec: Spec,
                     x: Addr, slice: nat)
    requires Coupled(heap, ids, live, roots, locals, spec) && x in heap
    ensures Coupled(WithSlice(heap, x, slice), ids, live, roots, locals, spec)
  {
    var heap' := WithSlice(heap, x, slice);
    assert live <= heap.Keys && live <= ids.Keys;
    ForwardsSame(heap, heap', ids, live);
    hide Forwards, Canonical;
    forall a | a in heap
      ensures heap'[a].fields == heap[a].fields && heap'[a].kind == heap[a].kind
    {
    }
  }

  /** A pointer slot is rewritten to the forwarded address of the same object. */
  lemma CoupledUpdate(heap: Heap, ids: Ids, live: set<Addr>, roots: seq<Value>, locals: seq<Value>, spec: Spec,
                      x: Addr, i: nat)
    requires Coupled(heap, ids, live, roots, locals, spec) && x in live && Canonical(heap, x) && i < |heap[x].fields|
    ensures Coupled(WithField(heap, x, i, Resolve(heap, heap[x].fields[i])), ids, live, roots, locals, spec)
  {
    var v := Resolve(heap, heap[x].fields[i]);
    var heap' := WithField(heap, x, i, v);
    assert In(heap[x].fields[i], live);
    ResolveDenotes(heap, ids, live, heap[x].fields[i]);
    ForwardsSame(heap, heap', ids, live);
    hide Forwards, Canonical;
    forall j | 0 <= j < |heap[x].fields|
      ensures In(heap'[x].fields[j], live) && Abs(ids, heap'[x].fields[j]) == Abs(ids, heap[x].fields[j])
    {
      assert In(heap[x].fields[j], live);
    }
  }

  /** The program stores a live value into a canonical object. */
  lemma CoupledWrite(heap: Heap, ids: Ids, live: set<Addr>, roots: seq<Value>, locals: seq<Value>, spec: Spec,
                     x: Addr, i: nat, v: Value, o: AObj)
    requires Coupled(heap, ids, live, roots, locals, spec) && x in live && Canonical(heap, x) && i < |heap[x].fields|
    requires In(v, live)
    requires ids[x] in spec.objs && i < |spec.objs[ids[x]].fields|
    requires o == spec.objs[ids[x]].(fields := spec.objs[ids[x]].fields[i := Abs(ids, v)])
    ensures Coupled(WithField(heap, x, i, v), ids, live, roots, locals, spec.(objs := spec.objs[ids[x] := o]))
  {
    var heap' := WithField(heap, x, i, v);
    forall a | a in live && Canonical(heap, a) && a != x
      ensures ids[a] != ids[x]
    {
    }
    ForwardsSame(heap, heap', ids, live);
    hide Forwards, Canonical;
    forall j | 0 <= j < |heap[x].fields|
      ensures In(heap'[x].fields[j], live)
    {
      assert In(heap[x].fields[j], live);
    }
  }

  /** A new object with live field values gets a fresh identity. */
  lemma CoupledAllocate(heap: Heap, ids: Ids, live: set<Addr>, roots: seq<Value>, locals: seq<Value>, spec: Spec,
                        x: Addr, o: Obj, id: Oid, ao: AObj)
    requires Coupled(heap, ids, live, roots, locals, spec) && x !in heap
    requires o.forward == x && AllIn(o.fields, live) && ao.kind == o.kind && Denotes(ids, o.fields, ao.fields)
    requires id !in spec.objs
    ensures Coupled(heap[x := o], ids[x := id], live + {x}, roots, locals + [Ptr(x)],
                    spec.(objs := spec.objs[id := ao], locals := spec.locals + [ARef(id)]))
  {
    var heap', ids', live' := heap[x := o], ids[x := id], live + {x};
    forall a | a in live
      ensures ids[a] in spec.objs && ids[a] != id
    {
      assert Canonical(heap, heap[a].forward);
    }
    ForwardsAllocate(heap, ids, live, x, o, id);
    hide Forwards, Canonical;
    AbsExtend(ids, live, x, id, roots);
    AbsExtend(ids, live, x, id, locals);
    AbsExtend(ids, live, x, id, o.fields);
    forall a | a in live && Canonical(heap, a)
      ensures AllIn(heap[a].fields, live')
      ensures Denotes(ids', heap[a].fields, spec.objs[ids[a]].fields)
    {
      AbsExtend(ids, live, x, id, heap[a].fields);
    }
  }

  lemma ForwardsAllocate(heap: Heap, ids: Ids, live: set<Addr>, x: Addr, o: Obj, id: Oid)
    requires Forwards(heap, ids, live) && x !in heap && o.forward == x
    requires forall a :: a in live ==> ids[a] != id
    ensures Forwards(heap[x := o], ids[x := id], live + {x})
    ensures forall a :: a in heap ==> (Canonical(heap[x := o], a) <==> Canonical(heap, a))
  {
    var heap' := heap[x := o];
    forall a | a in heap
      ensures heap'[a] == heap[a] && (Canonical(heap', a) <==> Canonical(heap, a))
    {
    }
  }

  /** An identity for a further address leaves the meaning of values over `live` alone. */
  lemma AbsExtend(ids: Ids, live: set<Addr>, x: Addr, id: Oid, values: seq<Value>)
    requires x !in live && AllIn(values, live)
    ensures AllIn(values, live + {x})
    ensures forall i :: 0 <= i < |values| ==> Abs(ids[x := id], values[i]) == Abs(ids, values[i])
  {
    forall i | 0 <= i < |values|
      ensures In(values[i], live + {x}) && Abs(ids[x := id], values[i]) == Abs(ids, values[i])
    {
      assert In(values[i], live);
    }
  }

  /** An object is copied and the original forwarded to the copy, which takes over the identity. */
  lemma CoupledCopy(heap: Heap, ids: Ids, live: set<Addr>, roots: seq<Value>, locals: seq<Value>, spec: Spec,
                    x: Addr, copy: Addr)
    requires Coupled(heap, ids, live, roots, locals, spec) && x in live && Canonical(heap, x) && copy !in heap
    requires forall a :: a in live && a != x ==> heap[a].forward != x
    ensures Coupled(WithCopy(heap, x, copy),
                    ids[copy := ids[x]], live + {copy}, roots, locals, spec)
  {
    var heap' := WithCopy(heap, x, copy);
    var ids', live' := ids[copy := ids[x]], live + {copy};
    ForwardsCopy(heap, ids, live, x, copy);
    hide Forwards, Canonical;
    AbsExtend(ids, live, copy, ids[x], roots);
    AbsExtend(ids, live, copy, ids[x], locals);
    forall a | a in live' && Canonical(heap', a)
      ensures ids'[a] in spec.objs && AllIn(heap'[a].fields, live')
      ensures spec.objs[ids'[a]].kind == heap'[a].kind
      ensures Denotes(ids', heap'[a].fields, spec.objs[ids'[a]].fields)
    {
      var b := if a == copy then x else a;
      assert b in live && Canonical(heap, b) && heap'[a].fields == heap[b].fields;
      AbsExtend(ids, live, copy, ids[x], heap[b].fields);
    }
  }

  lemma ForwardsCopy(heap: Heap, ids: Ids, live: set<Addr>, x: Addr, copy: Addr)
    requires Forwards(heap, ids, live) && x in live && Canonical(heap, x) && copy !in heap
    requires forall a :: a in live && a != x ==> heap[a].forward != x
    ensures Forwards(WithCopy(heap, x, copy), ids[copy := ids[x]], live + {copy})
    ensures !Canonical(WithCopy(heap, x, copy), x)
    ensures forall a :: a in heap && a != x ==> (Canonical(WithCopy(heap, x, copy), a) <==> Canonical(heap, a))
  {
    var heap' := WithCopy(heap, x, copy);
    var ids', live' := ids[copy := ids[x]], live + {copy};
    forall a | a in live
      ensures heap'[a].forward == if a == x then copy else heap[a].forward
      ensures Canonical(heap', heap'[a].forward)
    {
      assert Canonical(heap, heap[a].forward);
    }
    forall a, b | a in live' && b in live' && ids'[a] == ids'[b]
      ensures heap'[a].forward == heap'[b].forward
    {
      var c, d := if a == copy then x else a, if b == copy then x else b;
      assert heap[c].forward == heap[d].forward;
    }
  }

  /** Shrinking heap and live set to a part that holds all that is still pointed to. */
  lemma CoupledRestrict(heap: Heap, ids: Ids, live: set<Addr>, roots: seq<Value>, locals: seq<Value>, spec: Spec,
                        heap': Heap, live': set<Addr>)
    requires Coupled(heap, ids, live, roots, locals, spec)
    requires live' <= live && live' <= heap'.Keys && heap'.Keys <= heap.Keys
    requires forall a :: a in heap' ==> heap'[a] == heap[a]
    requires AllIn(roots, live') && AllIn(locals, live')
    requires forall a :: a in live' ==> heap[a].forward in live'
    requires forall a :: a in live' && Canonical(heap, a) ==> AllIn(heap[a].fields, live')
    ensures Coupled(heap', ids, live', roots, locals, spec)
  {
    forall a | a in heap'
      ensures Canonical(heap', a) <==> Canonical(heap, a)
    {
    }
  }
}
