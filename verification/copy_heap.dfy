/** Graph-copy serialization, word by word: what one step of the scan does to the heap and the
  * stream, and what every step keeps.
  */
module CopyHeap {
  import opened CopyModel

  const DUMMY: Value := Scalar(0)
  const HASH_BYTES: nat := 8

  // A heap block with its Brooks forwarding pointer. Serialization overwrites the two header words
  // (`moved` holds the stable address then) and leaves the payload alone.
  datatype Block = Block(kind: Kind, forward: Addr, data: seq<nat>, fields: seq<Value>, moved: Option<Addr>)

  type Heap = map<Addr, Block>

  // The stream word by word: a head stands for the tag and the payload without pointers.
  datatype Word = Head(kind: Kind, data: seq<nat>, size: nat) | Val(v: Value)

  // Where a word of the stream comes from: the head of its owner, or one of its fields (from 1).
  datatype Origin = Origin(owner: Addr, index: nat)

  // `heap0` is the heap before serialization and `origins` describes the stream; the program has
  // neither. `seeds` are the objects that serialization has been started from.
  datatype State = State(heap: Heap, stream: seq<Word>, scan: nat, heap0: Heap, origins: seq<Origin>, seeds: set<Addr>)

  // ---------------------------------------------------------------- the heap before serialization

  ghost predicate Forwarded(h: Heap, a: Addr) {
    && a in h && h[a].forward in h
    && h[h[a].forward].forward == h[a].forward
    && h[h[a].forward].kind == h[a].kind
  }

  /** The fields of an object are as many as its hash blob, the first pointer, has entries. */
  ghost predicate Hashed(h: Heap, o: Block) {
    && |o.fields| > 0 && o.fields[0].Ptr? && Forwarded(h, o.fields[0].addr)
    && h[o.fields[0].addr].kind == BlobBytes
    && |h[h[o.fields[0].addr].forward].data| == (|o.fields| - 1) * HASH_BYTES
  }

  ghost predicate PointersForwarded(h: Heap, values: seq<Value>) {
    forall i :: 0 <= i < |values| && values[i].Ptr? ==> Forwarded(h, values[i].addr)
  }

  /** As the incremental collector leaves it: forwarding ends after one step. */
  ghost predicate WellFormed(h: Heap) {
    forall a :: a in h ==>
      && h[a].moved == None && Forwarded(h, a)
      && PointersForwarded(h, h[a].fields)
      && (h[a].kind == Object ==> Hashed(h, h[a]))
  }

  /** Not forwarded, and of a type that can be stored. */
  predicate Storable(h: Heap, a: Addr) {
    a in h && h[a].forward == a && h[a].kind != Closure
  }

  /** What a value stands for: forwarding is resolved, closures are given up. */
  ghost function Meaning(h: Heap, v: Value): Value {
    if v.Ptr? && v.addr in h then
      if h[v.addr].kind == Closure then DUMMY else Ptr(h[v.addr].forward)
    else
      v
  }

  ghost function Meanings(h: Heap, values: seq<Value>): (r: seq<Value>)
    ensures |r| == |values|
  {
    seq(|values|, i requires 0 <= i < |values| => Meaning(h, values[i]))
  }

  /** The graph that the program sees. */
  ghost function HeapGraph(h: Heap): Graph {
    map a | a in h && Storable(h, a) :: Node(h[a].kind, h[a].data, Meanings(h, h[a].fields))
  }

  // ---------------------------------------------------------------- the invariant

  /** Blocks differ from the original heap in nothing but being moved. */
  ghost predicate OnlyMoved(heap: Heap, heap0: Heap) {
    && heap.Keys == heap0.Keys
    && forall a :: a in heap ==>
         && heap[a] == heap0[a].(moved := heap[a].moved)
         && (heap[a].moved.Some? ==> Storable(heap0, a))
  }

  /** A moved object's copy starts at its new address, and every word belongs to a copy. */
  ghost predicate Placed(heap: Heap, heap0: Heap, origins: seq<Origin>) {
    && (forall a :: a in heap && a in heap0 && heap[a].moved.Some? ==>
          heap[a].moved.value < |origins| && origins[heap[a].moved.value] == Origin(a, 0))
    && (forall w :: 0 <= w < |origins| ==>
          var o := origins[w];
          && o.owner in heap && o.owner in heap0 && o.index <= |heap0[o.owner].fields| && o.index <= w
          && heap[o.owner].moved == Some(w - o.index))
  }

  /** After the head come all fields, and after them the next head. */
  ghost predicate ContiguousAt(heap0: Heap, origins: seq<Origin>, w: nat)
    requires w < |origins| && origins[w].owner in heap0
  {
    var o := origins[w];
    if o.index < |heap0[o.owner].fields| then w + 1 < |origins| && origins[w + 1] == Origin(o.owner, o.index + 1)
    else w + 1 == |origins| || origins[w + 1].index == 0
  }

  ghost predicate Contiguous(heap0: Heap, origins: seq<Origin>) {
    forall w {:trigger ContiguousAt(heap0, origins, w)} :: 0 <= w < |origins| && origins[w].owner in heap0 ==>
      ContiguousAt(heap0, origins, w)
  }

  /** `v'` is the stable form of the heap value `v`. */
  ghost predicate Translated(heap: Heap, heap0: Heap, v: Value, v': Value) {
    if v.Ptr? && v.addr in heap0 then
      if heap0[v.addr].kind == Closure then v' == DUMMY
      else
        var b := heap0[v.addr].forward;
        b in heap && heap[b].moved.Some? && v' == Ptr(heap[b].moved.value)
    else
      v' == v
  }

  /** Word `w` holds its part of the owner, translated once the scan has passed it. */
  ghost predicate WordRight(heap: Heap, heap0: Heap, stream: seq<Word>, scan: nat, origins: seq<Origin>, w: nat)
    requires w < |stream| == |origins| && origins[w].owner in heap0
  {
    var o := heap0[origins[w].owner];
    var index := origins[w].index;
    if index == 0 then stream[w] == Head(o.kind, o.data, |o.fields|)
    else
      && index <= |o.fields| && stream[w].Val?
      && if w < scan then Translated(heap, heap0, o.fields[index - 1], stream[w].v) else stream[w].v == o.fields[index - 1]
  }

  ghost predicate StreamRight(heap: Heap, heap0: Heap, stream: seq<Word>, scan: nat, origins: seq<Origin>) {
    && |stream| == |origins|
    && forall w {:trigger WordRight(heap, heap0, stream, scan, origins, w)} :: 0 <= w < |stream| && origins[w].owner in heap0 ==>
         WordRight(heap, heap0, stream, scan, origins, w)
  }

  /** Nothing is copied that is not reachable from the seeds. */
  ghost predicate OnlyReachable(heap: Heap, heap0: Heap, seeds: set<Addr>) {
    && (forall r :: r in seeds ==> r in heap && heap[r].moved.Some?)
    && forall c: set<Addr> :: Closed(HeapGraph(heap0), seeds, c) ==> forall a :: a in heap && heap[a].moved.Some? ==> a in c
  }

  ghost predicate Inv(s: State) {
    && WellFormed(s.heap0) && s.scan <= |s.stream|
    && OnlyMoved(s.heap, s.heap0)
    && Placed(s.heap, s.heap0, s.origins)
    && Contiguous(s.heap0, s.origins)
    && StreamRight(s.heap, s.heap0, s.stream, s.scan, s.origins)
    && OnlyReachable(s.heap, s.heap0, s.seeds)
  }

  /** Objects that could still be copied. */
  ghost function Unmoved(s: State): set<Addr> {
    set a | a in s.heap && s.heap[a].moved == None
  }

  // ---------------------------------------------------------------- evacuation

  /** Considers that the object may have been moved: then there is no forwarding pointer. */
  function ResolveForward(heap: Heap, a: Addr): Addr
    requires a in heap
  {
    if heap[a].moved.Some? then a else heap[a].forward
  }

  lemma ResolvedForward(s: State, a: Addr)
    requires WellFormed(s.heap0) && OnlyMoved(s.heap, s.heap0) && a in s.heap
    ensures ResolveForward(s.heap, a) == s.heap0[a].forward && s.heap0[a].forward in s.heap
    ensures s.heap[a].kind == s.heap0[a].kind == s.heap0[s.heap0[a].forward].kind
    ensures s.heap0[s.heap0[a].forward].forward == s.heap0[a].forward
  {
    assert Forwarded(s.heap0, a);
  }

  /** Number of fields of an object, found in its hash blob, which may be in the stream already. */
  function ObjectSize(heap: Heap, stream: seq<Word>, o: Block): nat
    requires |o.fields| > 0 && o.fields[0].Ptr? && o.fields[0].addr in heap
    requires ResolveForward(heap, o.fields[0].addr) in heap
    requires var b := heap[o.fields[0].addr].moved; b.Some? ==> b.value < |stream| && stream[b.value].Head?
  {
    var blob := heap[o.fields[0].addr];
    match blob.moved
    case Some(target) => |stream[target].data| / HASH_BYTES
    // The length of a moved block is still in place.
    case None => |heap[blob.forward].data| / HASH_BYTES
  }

  lemma ObjectSizeRight(s: State, a: Addr)
    requires Inv(s) && a in s.heap && s.heap[a].kind == Object
    ensures var o := s.heap[a];
            && |o.fields| > 0 && o.fields[0].Ptr? && o.fields[0].addr in s.heap
            && ResolveForward(s.heap, o.fields[0].addr) in s.heap
            && (var b := s.heap[o.fields[0].addr].moved; b.Some? ==> b.value < |s.stream| && s.stream[b.value].Head?)
            && ObjectSize(s.heap, s.stream, o) + 1 == |o.fields|
  {
    hide Contiguous, OnlyReachable;
    assert Hashed(s.heap0, s.heap0[a]);
    var b := s.heap0[a].fields[0].addr;
    ResolvedForward(s, b);
    if s.heap[b].moved.Some? {
      var w := s.heap[b].moved.value;
      assert s.origins[w] == Origin(b, 0);
      assert WordRight(s.heap, s.heap0, s.stream, s.scan, s.origins, w);
    }
  }

  /** The words of a copy; the fields keep their old values. */
  function Serialized(o: Block, size: nat): (words: seq<Word>)
    requires size <= |o.fields|
    ensures |words| == size + 1
  {
    [Head(o.kind, o.data, size)] + seq(size, i requires 0 <= i < size => Val(o.fields[i]))
  }

  ghost function OriginsOf(a: Addr, size: nat): (origins: seq<Origin>)
    ensures |origins| == size + 1
  {
    seq(size + 1, i requires 0 <= i < size + 1 => Origin(a, i))
  }

  /** The state after object `a`, at its current place and not moved yet, has been copied. */
  ghost function Copied(s: State, a: Addr): State
    requires a in s.heap
  {
    var o := s.heap[a];
    s.(heap := s.heap[a := o.(moved := Some(|s.stream|))],
       stream := s.stream + Serialized(o, |o.fields|),
       origins := s.origins + OriginsOf(a, |o.fields|))
  }

  /** Copying keeps everything but, for the moment, the reason why the object was reachable. */
  lemma CopiedKeeps(s: State, a: Addr, seeds: set<Addr>)
    requires Inv(s) && Storable(s.heap0, a) && s.heap[a].moved == None
    requires seeds == s.seeds || seeds == s.seeds + {a}
    requires forall c: set<Addr> :: Closed(HeapGraph(s.heap0), seeds, c) && (forall x :: x in s.heap && s.heap[x].moved.Some? ==> x in c) ==> a in c
    ensures Inv(Copied(s, a).(seeds := seeds))
    ensures Unmoved(Copied(s, a).(seeds := seeds)) < Unmoved(s)
  {
    var s' := Copied(s, a).(seeds := seeds);
    CopiedPlaced(s, a);
    CopiedContiguous(s, a);
    CopiedStream(s, a);
    CopiedReachable(s, a, seeds);
    assert a in Unmoved(s) && a !in Unmoved(s');
  }

  lemma CopiedPlaced(s: State, a: Addr)
    requires Inv(s) && Storable(s.heap0, a) && s.heap[a].moved == None
    ensures OnlyMoved(Copied(s, a).heap, s.heap0) && Placed(Copied(s, a).heap, s.heap0, Copied(s, a).origins)
  {
    hide Contiguous, StreamRight, OnlyReachable, WellFormed;
    var s' := Copied(s, a);
    assert |s.origins| == |s.stream| by {
      StreamLength(s);
    }
    forall w | 0 <= w < |s'.origins|
      ensures var o := s'.origins[w];
              && o.owner in s'.heap && o.owner in s.heap0 && o.index <= |s.heap0[o.owner].fields| && o.index <= w
              && s'.heap[o.owner].moved == Some(w - o.index)
    {
      if w < |s.origins| {
        assert s'.origins[w] == s.origins[w] && s.origins[w].owner != a;
      } else {
        assert s'.origins[w] == Origin(a, w - |s.origins|);
      }
    }
  }

  lemma StreamLength(s: State)
    requires Inv(s)
    ensures |s.stream| == |s.origins|
  {
  }

  lemma CopiedContiguous(s: State, a: Addr)
    requires Inv(s) && a in s.heap && a in s.heap0
    ensures Contiguous(s.heap0, Copied(s, a).origins)
  {
    hide Placed, StreamRight, OnlyReachable, WellFormed;
    var s' := Copied(s, a);
    var n := |s.origins|;
    assert |s.heap[a].fields| == |s.heap0[a].fields|;
    forall w | 0 <= w < |s'.origins| && s'.origins[w].owner in s.heap0
      ensures ContiguousAt(s.heap0, s'.origins, w)
    {
      if w < n {
        assert s'.origins[w] == s.origins[w] && ContiguousAt(s.heap0, s.origins, w);
        assert w + 1 < n ==> s'.origins[w + 1] == s.origins[w + 1];
        assert s'.origins[n] == Origin(a, 0);
      } else {
        assert s'.origins[w] == Origin(a, w - n);
        assert w + 1 < |s'.origins| ==> s'.origins[w + 1] == Origin(a, w + 1 - n);
      }
    }
  }

  lemma CopiedStream(s: State, a: Addr)
    requires Inv(s) && Storable(s.heap0, a) && s.heap[a].moved == None
    ensures StreamRight(Copied(s, a).heap, s.heap0, Copied(s, a).stream, s.scan, Copied(s, a).origins)
  {
    hide Contiguous, OnlyReachable, WellFormed;
    var s' := Copied(s, a);
    var n := |s.stream|;
    forall w | 0 <= w < |s'.stream| && s'.origins[w].owner in s.heap0
      ensures WordRight(s'.heap, s.heap0, s'.stream, s.scan, s'.origins, w)
    {
      if w < n {
        assert s'.origins[w] == s.origins[w] && s'.stream[w] == s.stream[w];
        assert WordRight(s.heap, s.heap0, s.stream, s.scan, s.origins, w);
      } else {
        assert s'.origins[w] == Origin(a, w - n);
        assert s'.stream[w] == Serialized(s.heap[a], |s.heap[a].fields|)[w - n];
      }
    }
  }

  lemma CopiedReachable(s: State, a: Addr, seeds: set<Addr>)
    requires Inv(s) && a in s.heap
    requires seeds == s.seeds || seeds == s.seeds + {a}
    requires forall c: set<Addr> :: Closed(HeapGraph(s.heap0), seeds, c) && (forall x :: x in s.heap && s.heap[x].moved.Some? ==> x in c) ==> a in c
    ensures OnlyReachable(Copied(s, a).heap, s.heap0, seeds)
  {
    hide Contiguous, StreamRight, WellFormed, Placed;
    var s' := Copied(s, a);
    forall c: set<Addr> | Closed(HeapGraph(s.heap0), seeds, c)
      ensures forall x :: x in s'.heap && s'.heap[x].moved.Some? ==> x in c
    {
      assert Closed(HeapGraph(s.heap0), s.seeds, c);
      assert a in c;
    }
  }

  /** The new address of an object, which is copied unless it has been before. */
  ghost function Evacuate(s: State, a: Addr): (r: (State, Addr))
    requires a in s.heap && ResolveForward(s.heap, a) in s.heap
  {
    var o := ResolveForward(s.heap, a);
    if s.heap[o].moved.Some? then (s, s.heap[o].moved.value) else (Copied(s, o), |s.stream|)
  }

  /** Object `a` is wanted for the sake of an object that has been copied. */
  ghost predicate Wanted(s: State, a: Addr)
    requires a in s.heap0
  {
    forall c: set<Addr> :: Closed(HeapGraph(s.heap0), s.seeds, c) && (forall x :: x in s.heap && s.heap[x].moved.Some? ==> x in c) ==>
      s.heap0[a].forward in c
  }

  lemma EvacuateKeeps(s: State, a: Addr)
    requires Inv(s) && a in s.heap && s.heap[a].kind != Closure && a in s.heap0 && Wanted(s, a)
    ensures ResolveForward(s.heap, a) in s.heap
    ensures var (s', target) := Evacuate(s, a);
            && Inv(s') && Translated(s'.heap, s.heap0, Ptr(a), Ptr(target))
            && s'.heap0 == s.heap0 && s'.scan == s.scan && s'.seeds == s.seeds
            && s.stream <= s'.stream && s.origins <= s'.origins
            && (s' == s || Unmoved(s') < Unmoved(s))
  {
    hide WellFormed, OnlyMoved, Placed, Contiguous, StreamRight, OnlyReachable, HeapGraph;
    ResolvedForward(s, a);
    var o := s.heap0[a].forward;
    KindsKept(s, o);
    if s.heap[o].moved == None {
      CopiedKeeps(s, o, s.seeds);
      assert Copied(s, o).(seeds := s.seeds) == Copied(s, o);
    }
  }

  lemma KindsKept(s: State, a: Addr)
    requires OnlyMoved(s.heap, s.heap0) && a in s.heap
    ensures a in s.heap0 && s.heap[a].kind == s.heap0[a].kind
  {
  }

  // ---------------------------------------------------------------- the scan

  /** One word is scanned: a pointer is translated, which may copy an object to the end. */
  ghost function Next(s: State): State
    requires Inv(s) && s.scan < |s.stream|
  {
    match s.stream[s.scan]
    case Head(_, _, _) => s.(scan := s.scan + 1)
    case Val(v) =>
      if !v.Ptr? then s.(scan := s.scan + 1)
      else
        ScannedPointer(s);
        if s.heap[v.addr].kind == Closure then s.(stream := s.stream[s.scan := Val(DUMMY)], scan := s.scan + 1)
        else
          var (s', target) := Evacuate(s, v.addr);
          s'.(stream := s'.stream[s.scan := Val(Ptr(target))], scan := s.scan + 1)
  }

  /** The word at the scan position is a field of a copied object with its old value. */
  lemma ScannedField(s: State)
    requires Inv(s) && s.scan < |s.stream| && s.stream[s.scan].Val?
    ensures |s.origins| == |s.stream|
    ensures var o := s.origins[s.scan];
            && o.owner in s.heap0 && 0 < o.index <= |s.heap0[o.owner].fields|
            && s.stream[s.scan].v == s.heap0[o.owner].fields[o.index - 1]
            && o.owner in s.heap && s.heap[o.owner].moved.Some?
  {
    hide WellFormed, OnlyMoved, Contiguous, OnlyReachable;
    assert WordRight(s.heap, s.heap0, s.stream, s.scan, s.origins, s.scan);
  }

  lemma ScannedPointer(s: State)
    requires Inv(s) && s.scan < |s.stream| && s.stream[s.scan].Val? && s.stream[s.scan].v.Ptr?
    ensures var a := s.stream[s.scan].v.addr;
            && a in s.heap && a in s.heap0 && ResolveForward(s.heap, a) in s.heap && s.heap[a].kind == s.heap0[a].kind
            && (s.heap[a].kind != Closure ==> Wanted(s, a))
  {
    hide Placed, Contiguous, StreamRight, OnlyReachable, Wanted, Storable;
    ScannedField(s);
    var a := s.stream[s.scan].v.addr;
    var o := s.origins[s.scan];
    assert PointersForwarded(s.heap0, s.heap0[o.owner].fields);
    ResolvedForward(s, a);
    if s.heap[a].kind != Closure {
      FieldWanted(s, o.owner, o.index - 1);
    }
  }

  /** What a copied object points to is wanted. */
  lemma FieldWanted(s: State, owner: Addr, i: nat)
    requires OnlyMoved(s.heap, s.heap0) && owner in s.heap && s.heap[owner].moved.Some?
    requires owner in s.heap0 && i < |s.heap0[owner].fields| && s.heap0[owner].fields[i].Ptr?
    requires s.heap0[owner].fields[i].addr in s.heap0 && s.heap0[s.heap0[owner].fields[i].addr].kind != Closure
    ensures Wanted(s, s.heap0[owner].fields[i].addr)
  {
    var g, a := HeapGraph(s.heap0), s.heap0[owner].fields[i].addr;
    assert Storable(s.heap0, owner);
    assert g[owner].fields[i] == Ptr(s.heap0[a].forward);
    hide HeapGraph;
    forall c: set<Addr> | Closed(g, s.seeds, c) && (forall x :: x in s.heap && s.heap[x].moved.Some? ==> x in c)
      ensures s.heap0[a].forward in c
    {
      assert PointsInto(g[owner].fields, c);
    }
  }

  lemma AdvanceKeeps(s: State, word: Word)
    requires Inv(s) && s.scan < |s.stream| && |s.origins| == |s.stream|
    requires s.stream[s.scan].Head? ==> word == s.stream[s.scan]
    requires s.stream[s.scan].Val? ==>
      && word.Val? && s.origins[s.scan].owner in s.heap0
      && Translated(s.heap, s.heap0, s.stream[s.scan].v, word.v)
    ensures Inv(s.(stream := s.stream[s.scan := word], scan := s.scan + 1))
  {
    hide WellFormed, OnlyMoved, Placed, Contiguous, OnlyReachable, Translated;
    var s' := s.(stream := s.stream[s.scan := word], scan := s.scan + 1);
    forall w | 0 <= w < |s'.stream| && s.origins[w].owner in s.heap0
      ensures WordRight(s'.heap, s.heap0, s'.stream, s'.scan, s'.origins, w)
    {
      assert WordRight(s.heap, s.heap0, s.stream, s.scan, s.origins, w);
    }
  }

  /** Every step keeps the invariant, and decreases the objects that are left and then the words. */
  lemma NextKeeps(s: State)
    requires Inv(s) && s.scan < |s.stream|
    ensures var s' := Next(s);
            && Inv(s') && s'.scan == s.scan + 1 && s'.heap0 == s.heap0 && s'.seeds == s.seeds
            && s.origins <= s'.origins
            && (Unmoved(s') < Unmoved(s) || (Unmoved(s') == Unmoved(s) && |s'.stream| == |s.stream|))
  {
    hide WellFormed, OnlyMoved, Placed, Contiguous, OnlyReachable, StreamRight, Wanted, Evacuate;
    StreamLength(s);
    if s.stream[s.scan].Val? {
      ScannedField(s);
    }
    if s.stream[s.scan].Val? && s.stream[s.scan].v.Ptr? {
      var a := s.stream[s.scan].v.addr;
      ScannedPointer(s);
      if s.heap[a].kind == Closure {
        AdvanceKeeps(s, Val(DUMMY));
      } else {
        EvacuateKeeps(s, a);
        var (s1, target) := Evacuate(s, a);
        StreamLength(s1);
        AdvanceKeeps(s1, Val(Ptr(target)));
      }
    } else {
      AdvanceKeeps(s, s.stream[s.scan]);
      assert s.stream[s.scan := s.stream[s.scan]] == s.stream;
    }
  }

  /** The state at the end of the scan. */
  ghost function Finish(s: State): (r: State)
    requires Inv(s)
    ensures Inv(r) && r.scan == |r.stream| && r.heap0 == s.heap0 && r.seeds == s.seeds
    ensures s.origins <= r.origins
    decreases Unmoved(s), |s.stream| - s.scan
  {
    if s.scan == |s.stream| then s
    else
      NextKeeps(s);
      Finish(Next(s))
  }
}
