/** Incremental serialization of the heap into a stable stream. */
module CopySerialization {
  import opened CopyModel
  import opened CopyHeap
  import opened CopyLimit

  // ---------------------------------------------------------------- what has been achieved

  /** The graph in the stable memory. */
  ghost function StableGraph(stream: seq<Word>): Graph {
    map t | 0 <= t < |stream| && stream[t].Head? :: Node(stream[t].kind, stream[t].data, StableFields(stream, t))
  }

  ghost function StableFields(stream: seq<Word>, t: nat): (fields: seq<Value>)
    requires t < |stream| && stream[t].Head?
    ensures |fields| == stream[t].size
  {
    seq(stream[t].size, i requires 0 <= i < stream[t].size =>
      if t + 1 + i < |stream| && stream[t + 1 + i].Val? then stream[t + 1 + i].v else Null)
  }

  /** Old to new addresses. */
  ghost function Moves(s: State): map<Addr, Addr> {
    map a | a in s.heap && s.heap[a].moved.Some? :: s.heap[a].moved.value
  }

  lemma {:induction false} FieldOrigin(s: State, a: Addr, i: nat)
    requires Inv(s) && a in s.heap && s.heap[a].moved.Some? && a in s.heap0 && i <= |s.heap0[a].fields|
    ensures s.heap[a].moved.value + i < |s.origins| && s.origins[s.heap[a].moved.value + i] == Origin(a, i)
  {
    hide WellFormed, StreamRight, OnlyReachable;
    if i > 0 {
      FieldOrigin(s, a, i - 1);
      assert ContiguousAt(s.heap0, s.origins, s.heap[a].moved.value + i - 1);
    }
  }

  lemma MovedHead(s: State, a: Addr)
    requires Inv(s) && a in s.heap && s.heap[a].moved.Some?
    ensures Storable(s.heap0, a)
    ensures var t := s.heap[a].moved.value;
            t < |s.stream| && s.stream[t] == Head(s.heap0[a].kind, s.heap0[a].data, |s.heap0[a].fields|)
  {
    hide WellFormed, OnlyReachable, Contiguous;
    assert WordRight(s.heap, s.heap0, s.stream, s.scan, s.origins, s.heap[a].moved.value);
  }

  lemma HeadMoved(s: State, t: nat)
    requires Inv(s) && t < |s.stream| && s.stream[t].Head?
    ensures |s.origins| == |s.stream|
    ensures s.origins[t].owner in s.heap && s.heap[s.origins[t].owner].moved == Some(t)
  {
    hide WellFormed, OnlyReachable, Contiguous;
    assert WordRight(s.heap, s.heap0, s.stream, s.scan, s.origins, t);
  }

  /** Once an object has its stable address, it keeps it. */
  lemma MovedStays(s: State, s': State, a: Addr)
    requires Inv(s) && Inv(s') && s'.heap0 == s.heap0 && s.origins <= s'.origins
    requires a in s.heap && s.heap[a].moved.Some?
    ensures a in s'.heap && s'.heap[a].moved == s.heap[a].moved
  {
    hide WellFormed, Contiguous, StreamRight, OnlyReachable;
    var t := s.heap[a].moved.value;
    assert s'.origins[t] == s.origins[t] == Origin(a, 0);
  }

  /** After the scan a field of the copy at `t` is the translated field of the original. */
  lemma CopiedField(s: State, a: Addr, t: Addr, i: nat)
    requires Inv(s) && s.scan == |s.stream| && a in s.heap && s.heap[a].moved == Some(t) && a in s.heap0
    requires i < |s.heap0[a].fields|
    ensures t + 1 + i < |s.stream| && s.stream[t + 1 + i].Val?
    ensures Translated(s.heap, s.heap0, s.heap0[a].fields[i], s.stream[t + 1 + i].v)
  {
    FieldOrigin(s, a, i + 1);
    hide OnlyReachable, Contiguous, Placed, WellFormed, OnlyMoved, Translated;
    assert WordRight(s.heap, s.heap0, s.stream, s.scan, s.origins, t + 1 + i);
  }

  lemma FieldInHeap(heap0: Heap, a: Addr, i: nat)
    requires WellFormed(heap0) && a in heap0 && i < |heap0[a].fields| && heap0[a].fields[i].Ptr?
    ensures heap0[a].fields[i].addr in heap0
  {
    assert PointersForwarded(heap0, heap0[a].fields);
  }

  /** `v'` is the heap value `v` with its meaning renamed. */
  ghost predicate RenamedMeaning(m: map<Addr, Addr>, v: Value, v': Value) {
    if v.Ptr? then v.addr in m && v' == Ptr(m[v.addr]) else v' == v
  }

  lemma RenamedField(s: State, a: Addr, t: Addr, i: nat)
    requires Inv(s) && s.scan == |s.stream| && a in s.heap && s.heap[a].moved == Some(t) && a in s.heap0
    requires i < |s.heap0[a].fields|
    ensures t + 1 + i < |s.stream| && s.stream[t + 1 + i].Val?
    ensures RenamedMeaning(Moves(s), Meaning(s.heap0, s.heap0[a].fields[i]), s.stream[t + 1 + i].v)
  {
    hide OnlyReachable, Contiguous, Placed, WellFormed, StreamRight, OnlyMoved;
    CopiedField(s, a, t, i);
    if s.heap0[a].fields[i].Ptr? {
      FieldInHeap(s.heap0, a, i);
    }
  }

  lemma CopiedNode(s: State, a: Addr, t: Addr, n: Node, n': Node)
    requires Inv(s) && s.scan == |s.stream| && a in s.heap && s.heap[a].moved == Some(t) && t < |s.stream| && s.stream[t].Head?
    requires a in s.heap0 && n == Node(s.heap0[a].kind, s.heap0[a].data, Meanings(s.heap0, s.heap0[a].fields))
    requires n' == Node(s.stream[t].kind, s.stream[t].data, StableFields(s.stream, t))
    ensures n'.kind == n.kind && n'.data == n.data
    ensures PointsInto(n.fields, Moves(s).Keys) && Renamed(Moves(s), n.fields, n'.fields)
  {
    hide Inv, Meaning, Moves, RenamedMeaning, Renamed, PointsInto, Storable;
    MovedHead(s, a);
    forall i | 0 <= i < |n.fields|
      ensures RenamedMeaning(Moves(s), n.fields[i], n'.fields[i])
    {
      RenamedField(s, a, t, i);
    }
    RenamedAll(Moves(s), n.fields, n'.fields);
  }

  lemma RenamedAll(m: map<Addr, Addr>, from: seq<Value>, to: seq<Value>)
    requires |to| == |from| && forall i :: 0 <= i < |from| ==> RenamedMeaning(m, from[i], to[i])
    ensures PointsInto(from, m.Keys) && Renamed(m, from, to)
  {
    forall i | 0 <= i < |from|
      ensures from[i].Ptr? ==> from[i].addr in m
      ensures to[i] == if from[i].Ptr? && from[i].addr in m then Ptr(m[from[i].addr]) else from[i]
    {
      assert RenamedMeaning(m, from[i], to[i]);
    }
  }

  /** When the scan is complete, the stream holds a copy of exactly what is reachable from the seeds,
    * with sharing and cycles, closures replaced by the dummy. */
  lemma SerializationComplete(s: State)
    requires Inv(s) && s.scan == |s.stream|
    ensures IsCopy(HeapGraph(s.heap0), StableGraph(s.stream), Moves(s))
    ensures IsReachable(HeapGraph(s.heap0), s.seeds, Moves(s).Keys)
  {
    hide WellFormed, OnlyMoved, StreamRight, Contiguous, HeapGraph, StableFields, Renamed, PointsInto, Meanings;
    var g, h, m := HeapGraph(s.heap0), StableGraph(s.stream), Moves(s);
    forall a | a in m
      ensures a in g && m[a] in h && h[m[a]].kind == g[a].kind && h[m[a]].data == g[a].data
      ensures PointsInto(g[a].fields, m.Keys) && Renamed(m, g[a].fields, h[m[a]].fields)
    {
      MovedHead(s, a);
      InHeapGraph(s.heap0, a);
      CopiedNode(s, a, m[a], g[a], h[m[a]]);
    }
    forall t | t in h
      ensures t in m.Values
    {
      HeadMoved(s, t);
      assert m[s.origins[t].owner] == t;
    }
    forall t | t in m.Values
      ensures t in h
    {
      var a :| a in m && m[a] == t;
    }
    MovesInjective(s);
    forall c: set<Addr> | Closed(g, s.seeds, c)
      ensures m.Keys <= c
    {
    }
  }

  lemma InHeapGraph(heap0: Heap, a: Addr)
    requires Storable(heap0, a)
    ensures a in HeapGraph(heap0)
    ensures HeapGraph(heap0)[a] == Node(heap0[a].kind, heap0[a].data, Meanings(heap0, heap0[a].fields))
  {
  }

  lemma MovesInjective(s: State)
    requires Placed(s.heap, s.heap0, s.origins) && OnlyMoved(s.heap, s.heap0)
    ensures Injective(Moves(s))
  {
    forall a, b | a in Moves(s) && b in Moves(s) && Moves(s)[a] == Moves(s)[b]
      ensures a == b
    {
      assert s.origins[Moves(s)[a]] == Origin(a, 0) && s.origins[Moves(s)[b]] == Origin(b, 0);
    }
  }

  // ---------------------------------------------------------------- positions

  /** The scan stands before field `index` of the copy of `owner`, or behind its last field. */
  ghost predicate AtField(s: State, owner: Addr, index: nat) {
    && owner in s.heap0 && |s.origins| == |s.stream| && index <= |s.heap0[owner].fields|
    && if index < |s.heap0[owner].fields| then s.scan < |s.stream| && s.origins[s.scan] == Origin(owner, index + 1)
       else AtObject(s)
  }

  ghost predicate AtObject(s: State) {
    |s.origins| == |s.stream| && (s.scan < |s.stream| ==> s.origins[s.scan].index == 0)
  }

  lemma AtNext(s: State, owner: Addr, index: nat)
    requires Inv(s) && AtField(s, owner, index) && index < |s.heap0[owner].fields|
    ensures s.stream[s.scan].Val? && AtField(Next(s), owner, index + 1)
  {
    hide WellFormed, OnlyMoved, Placed, OnlyReachable, Next;
    assert WordRight(s.heap, s.heap0, s.stream, s.scan, s.origins, s.scan);
    NextKeeps(s);
    var s' := Next(s);
    assert s'.origins[s.scan] == s.origins[s.scan];
    assert ContiguousAt(s'.heap0, s'.origins, s.scan);
  }

  lemma AtHead(s: State)
    requires Inv(s) && AtObject(s) && s.scan < |s.stream|
    ensures var owner := s.origins[s.scan].owner;
            && owner in s.heap0
            && s.stream[s.scan] == Head(s.heap0[owner].kind, s.heap0[owner].data, |s.heap0[owner].fields|)
            && AtField(s.(scan := s.scan + 1), owner, 0) && Next(s) == s.(scan := s.scan + 1)
  {
    hide WellFormed, OnlyMoved, OnlyReachable;
    assert WordRight(s.heap, s.heap0, s.stream, s.scan, s.origins, s.scan);
    assert ContiguousAt(s.heap0, s.origins, s.scan);
  }

  /** `s'` is a later state of the same scan: its outcome is already determined. */
  ghost predicate Later(s: State, s': State) {
    && Inv(s) && Inv(s') && Finish(s') == Finish(s) && s'.heap0 == s.heap0 && s'.seeds == s.seeds && s.origins <= s'.origins
    && s.scan <= s'.scan
  }

  /** Words have been scanned. */
  ghost predicate Progress(s: State, s': State) {
    s.scan < s'.scan
  }

  /** The heap word by word: every object with its head and its fields. */
  ghost function Words(heap: Heap): set<Origin> {
    set a, i | a in heap && 0 <= i <= |heap[a].fields| :: Origin(a, i)
  }

  /** The stream never has more words than the heap. */
  lemma StreamBounded(s: State)
    requires Inv(s)
    ensures s.scan <= |s.stream| <= |Words(s.heap0)|
  {
    hide WellFormed, Contiguous, OnlyReachable;
    StreamLength(s);
    forall w | 0 <= w < |s.origins|
      ensures s.origins[w] in Words(s.heap0)
    {
      var o := s.origins[w];
      assert o == Origin(o.owner, o.index);
    }
    forall v, w | 0 <= v < w < |s.origins|
      ensures s.origins[v] != s.origins[w]
    {
    }
    DistinctCount(s.origins, Words(s.heap0));
  }

  lemma {:induction false} DistinctCount(origins: seq<Origin>, words: set<Origin>)
    requires forall w :: 0 <= w < |origins| ==> origins[w] in words
    requires forall v, w :: 0 <= v < w < |origins| ==> origins[v] != origins[w]
    ensures |origins| <= |words|
  {
    if origins != [] {
      var last := |origins| - 1;
      DistinctCount(origins[..last], words - {origins[last]});
    }
  }

  /** What is left of the scan. */
  ghost function ToScan(s: State): nat
    requires Inv(s)
  {
    StreamBounded(s);
    |Words(s.heap0)| - s.scan
  }

  lemma NextLater(s: State, s': State)
    requires Later(s, s') && s'.scan < |s'.stream|
    ensures Later(s, Next(s')) && Progress(s, Next(s'))
  {
    hide Inv, Next;
    NextKeeps(s');
  }

  // A pending slice: elements from `next` on are to be scanned.
  datatype ArraySlice = ArraySlice(next: nat, length: nat)

  ghost predicate SliceRight(s: State, slice: Option<ArraySlice>) {
    match slice
    case None => AtObject(s)
    case Some(pending) =>
      && s.scan < |s.stream| == |s.origins| && pending.next < pending.length
      && var owner := s.origins[s.scan].owner;
         AtField(s, owner, pending.next) && |s.heap0[owner].fields| == pending.length
  }

  /** A seed is evacuated as the target of a field is. */
  lemma SeedKeeps(s: State, a: Addr)
    requires Inv(s) && a in s.heap && s.heap[a].kind != Closure
    ensures a in s.heap0 && ResolveForward(s.heap, a) in s.heap
    ensures var (s', target) := Evacuate(s, a);
            var s'' := s'.(seeds := s.seeds + {s.heap0[a].forward});
            && Inv(s'') && s.heap0[a].forward in s''.heap && s''.heap[s.heap0[a].forward].moved == Some(target)
            && s.origins <= s''.origins
  {
    hide WellFormed, OnlyMoved, Placed, Contiguous, StreamRight;
    KindsKept(s, a);
    ResolvedForward(s, a);
    var o := s.heap0[a].forward;
    KindsKept(s, o);
    if s.heap[o].moved == None {
      CopiedKeeps(s, o, s.seeds + {o});
    } else {
      SeedAgain(s, o);
    }
  }

  lemma SeedAgain(s: State, o: Addr)
    requires OnlyReachable(s.heap, s.heap0, s.seeds) && o in s.heap && s.heap[o].moved.Some?
    ensures OnlyReachable(s.heap, s.heap0, s.seeds + {o})
  {
    forall c: set<Addr> | Closed(HeapGraph(s.heap0), s.seeds + {o}, c)
      ensures Closed(HeapGraph(s.heap0), s.seeds, c)
    {
    }
  }

  // ---------------------------------------------------------------- the algorithm

  class Serialization {
    var heap: Heap
    var stream: seq<Word>
    var scan: nat
    var arraySlice: Option<ArraySlice>
    const limit: ExecutionMonitor
    // Objects, and further elements of an array, that were begun when all memory accesses were spent.
    ghost var late: nat

    ghost var heap0: Heap
    ghost var origins: seq<Origin>
    ghost var seeds: set<Addr>

    ghost function View(): State
      reads this
    {
      State(heap, stream, scan, heap0, origins, seeds)
    }

    ghost predicate Valid()
      reads this, limit
    {
      Inv(View()) && SliceRight(View(), arraySlice) && limit.Valid()
    }

    function ProcessedMemory(): nat
      reads this
    {
      (|stream| + scan) * WORD_SIZE
    }

    /** An empty stream. */
    constructor (heap: Heap, instructionLimit: nat, stableMemoryAccessLimit: nat)
      requires WellFormed(heap)
      ensures fresh(limit) && Valid() && heap0 == heap == this.heap && seeds == {} && stream == []
    {
      this.heap, stream, scan, arraySlice := heap, [], 0, None;
      limit := new ExecutionMonitor(instructionLimit, stableMemoryAccessLimit);
      heap0, origins, seeds := heap, [], {};
    }

    /** Appends a copy of the object, whose fields keep their old values. */
    method Copy(original: Addr) returns (target: Addr)
      requires Inv(View()) && original in heap && heap[original].moved == None
      modifies this`stream
      ensures target == |old(stream)|
      ensures stream == old(stream) + Serialized(heap[original], |heap[original].fields|)
    {
      hide Inv;
      target := |stream|;
      var o := heap[original];
      var size := |o.fields|;
      if o.kind == Object {
        ObjectSizeRight(View(), original);
        size := ObjectSize(heap, stream, o) + 1;
      }
      stream := stream + Serialized(o, size);
    }

    /** The stable address of an object, which is copied unless it has been moved before. */
    method Evacuate(original: Addr) returns (target: Addr)
      requires Inv(View()) && original in heap && heap[original].kind != Closure
      modifies this`heap, this`stream, this`origins
      ensures ResolveForward(old(heap), original) in old(heap)
      ensures (View(), target) == CopyHeap.Evacuate(old(View()), original)
    {
      hide Inv;
      SeedKeeps(View(), original);
      var o := ResolveForward(heap, original);
      if heap[o].moved.Some? {
        return heap[o].moved.value;
      }
      target := Copy(o);
      origins := origins + OriginsOf(o, |heap[o].fields|);
      heap := heap[o := heap[o].(moved := Some(target))];
    }

    /** Serializes from a root. */
    method Start(root: Addr) returns (target: Addr)
      requires Valid() && stream == [] && root in heap && heap[root].kind != Closure
      modifies this
      ensures Valid() && heap0 == old(heap0) && root in heap0 && seeds == old(seeds) + {heap0[root].forward}
      ensures heap0[root].forward in heap && heap[heap0[root].forward].moved == Some(target)
      ensures target == 0 && arraySlice == None && scan == 0
    {
      hide WellFormed, OnlyMoved, Placed, Contiguous, StreamRight, OnlyReachable;
      target := StartFurther(root);
    }

    /** Serializes from a further root, before the scan has begun. */
    method StartFurther(root: Addr) returns (target: Addr)
      requires Valid() && arraySlice == None && scan == 0 && root in heap && heap[root].kind != Closure
      modifies this
      ensures Valid() && heap0 == old(heap0) && root in heap0 && seeds == old(seeds) + {heap0[root].forward}
      ensures heap0[root].forward in heap && heap[heap0[root].forward].moved == Some(target)
      ensures arraySlice == None && scan == 0
      ensures old(stream) == [] ==> target == 0
      // No object loses its address.
      ensures old(origins) <= origins
    {
      hide Inv;
      SeedKeeps(View(), root);
      ghost var s := View();
      target := Evacuate(root);
      seeds := seeds + {heap0[root].forward};
      FirstObject(View());
      if s.stream == [] {
        EmptyStream(s);
      }
    }

    /** Translates the field at the scan position. */
    method ScanField()
      requires Inv(View()) && scan < |stream| && stream[scan].Val?
      modifies this`heap, this`stream, this`scan, this`origins
      ensures View() == Next(old(View()))
    {
      hide Inv;
      var old_ := stream[scan].v;
      var new_ := old_;
      if old_.Ptr? {
        ScannedPointer(View());
        if heap[old_.addr].kind == Closure {
          new_ := DUMMY;
        } else {
          ghost var s := View();
          StreamGrows(s, old_.addr);
          var target := Evacuate(old_.addr);
          new_ := Ptr(target);
        }
      }
      stream := stream[scan := Val(new_)];
      scan := scan + 1;
    }

    /** Scans array elements from `index` on until the time is over. */
    method SlicedArrayScan(index: nat, length: nat, ghost owner: Addr) returns (next: nat)
      requires limit.Valid() && Inv(View()) && AtField(View(), owner, index) && length == |heap0[owner].fields|
      modifies this`heap, this`stream, this`scan, this`origins, limit, this`late
      ensures limit.Valid()
      ensures index <= next <= length && (index < length ==> index < next)
      ensures Later(old(View()), View()) && AtField(View(), owner, next)
      ensures index < length ==> Progress(old(View()), View())
      ensures late == old(late)
    {
      hide Inv, Finish, Next;
      next := index;
      while next < length
        invariant index <= next <= length && limit.Valid()
        invariant Later(old(View()), View()) && AtField(View(), owner, next)
        invariant index < next ==> Progress(old(View()), View())
        invariant late == old(late) && (index < next ==> !limit.Spent(ProcessedMemory()))
      {
        late := late + if index < next && limit.Spent(ProcessedMemory()) then 1 else 0;
        AtNext(View(), owner, next);
        NextLater(old(View()), View());
        ScanField();
        limit.Execute();
        next := next + 1;
        var over := limit.IsExceeded(ProcessedMemory());
        if over {
          return;
        }
      }
    }

    method ResumeScanning()
      requires Valid() && arraySlice.Some?
      modifies this`heap, this`stream, this`scan, this`origins, this`arraySlice, limit, this`late
      ensures Valid() && Later(old(View()), View()) && Progress(old(View()), View())
      ensures late == old(late)
    {
      hide Inv, Finish, Later, Progress;
      var slice := arraySlice.value;
      arraySlice := None;
      ghost var owner := origins[scan].owner;
      var next := SlicedArrayScan(slice.next, slice.length, owner);
      LaterValid(old(View()), View());
      if next < slice.length {
        arraySlice := Some(ArraySlice(next, slice.length));
      }
    }

    /** Scans the object at the scan position, or goes on with a pending array. */
    method Scan()
      requires Valid() && scan < |stream|
      modifies this`heap, this`stream, this`scan, this`origins, this`arraySlice, limit, this`late
      ensures Valid() && Later(old(View()), View()) && Progress(old(View()), View())
      ensures late == old(late) + if old(limit.Spent(ProcessedMemory())) then 1 else 0
    {
      hide Inv, Finish, Later, Progress, Next;
      late := late + if limit.Spent(ProcessedMemory()) then 1 else 0;
      limit.Execute();
      if arraySlice.Some? {
        ResumeScanning();
        return;
      }
      AtHead(View());
      LaterItself(View());
      NextLater(View(), View());
      var word := stream[scan];
      ghost var owner, s := origins[scan].owner, View();
      scan := scan + 1;
      LaterValid(s, View());
      if IsArray(word.kind) {
        var next := SlicedArrayScan(0, word.size, owner);
        LaterThen(s, s.(scan := s.scan + 1), View());
        LaterValid(s, View());
        if next < word.size {
          arraySlice := Some(ArraySlice(next, word.size));
        }
      } else {
        ScanFields(word.size, owner, s);
      }
    }

    method ScanFields(size: nat, ghost owner: Addr, ghost s: State)
      requires Inv(View()) && AtField(View(), owner, 0) && size == |heap0[owner].fields|
      requires Later(s, View()) && Progress(s, View())
      modifies this`heap, this`stream, this`scan, this`origins
      ensures Inv(View()) && Later(s, View()) && Progress(s, View()) && AtObject(View())
    {
      hide Inv, Finish, Later, Progress, Next;
      var i := 0;
      while i < size
        invariant i <= size && heap0 == old(heap0)
        invariant Inv(View()) && Later(s, View()) && Progress(s, View()) && AtField(View(), owner, i)
      {
        AtNext(View(), owner, i);
        NextLater(s, View());
        LaterValid(s, Next(View()));
        ScanField();
        i := i + 1;
      }
    }

    predicate IsCompleted()
      reads this
    {
      scan == |stream|
    }

    /** Copies until everything is copied or a limit of the increment is used up. Whenever it is interrupted,
      * inside an array or not, the stream and the forwarding in the end are the same. */
    method CopyIncrement()
      requires Valid()
      modifies this`heap, this`stream, this`scan, this`origins, this`arraySlice, limit, this`late
      ensures Valid() && Later(old(View()), View())
      // Every increment gets on, and nothing but the limits stops it.
      ensures !old(IsCompleted()) ==> Progress(old(View()), View())
      ensures IsCompleted() || limit.Exhausted(ProcessedMemory())
      ensures Finish(View()) == Finish(old(View())) && heap0 == old(heap0) && seeds == old(seeds)
      ensures forall a :: a in old(heap) && old(heap)[a].moved.Some? ==> a in heap && heap[a].moved == old(heap)[a].moved
      ensures IsCompleted() ==> View() == Finish(old(View()))
      ensures late == old(late)
    {
      hide Inv, Next, SliceRight, AtObject;
      LaterItself(View());
      StreamBounded(View());
      limit.Reset(ProcessedMemory());
      while !IsCompleted()
        invariant Valid() && Later(old(View()), View()) && scan <= |stream|
        invariant Progress(old(View()), View()) || (View() == old(View()) && limit.Begins(ProcessedMemory()))
        invariant late == old(late)
        decreases ToScan(View())
      {
        var timeOver := limit.IsExceeded(ProcessedMemory());
        if timeOver {
          break;
        }
        ghost var s := View();
        Scan();
        LaterThen(old(View()), s, View());
        StreamBounded(View());
      }
      LaterMoved(old(View()), View());
    }

    /** What a complete serialization has achieved. */
    lemma Complete()
      requires Valid() && scan == |stream|
      ensures IsCopy(HeapGraph(heap0), StableGraph(stream), Moves(View()))
      ensures IsReachable(HeapGraph(heap0), seeds, Moves(View()).Keys)
    {
      SerializationComplete(View());
    }
  }

  // ---------------------------------------------------------------- facts about the states

  lemma LaterItself(s: State)
    requires Inv(s)
    ensures Later(s, s)
  {
  }

  lemma LaterThen(s: State, s': State, s'': State)
    requires Later(s, s') && Later(s', s'')
    ensures Later(s, s'')
    ensures Progress(s, s') || Progress(s', s'') ==> Progress(s, s'')
  {
    hide Inv, Finish;
  }

  lemma LaterMoved(s: State, s': State)
    requires Later(s, s')
    ensures forall a :: a in s.heap && s.heap[a].moved.Some? ==> a in s'.heap && s'.heap[a].moved == s.heap[a].moved
  {
    hide Inv, Finish;
    forall a | a in s.heap && s.heap[a].moved.Some?
      ensures a in s'.heap && s'.heap[a].moved == s.heap[a].moved
    {
      MovedStays(s, s', a);
    }
  }

  lemma LaterValid(s: State, s': State)
    requires Later(s, s')
    ensures Inv(s') && s'.heap0 == s.heap0
  {
    hide Inv, Finish;
  }

  lemma FirstObject(s: State)
    requires Inv(s) && s.scan == 0
    ensures AtObject(s)
  {
    hide WellFormed, OnlyMoved, Contiguous, OnlyReachable;
    StreamLength(s);
    assert |s.origins| > 0 ==> s.origins[0].index <= 0;
  }

  lemma EmptyStream(s: State)
    requires Inv(s) && s.stream == []
    ensures forall a :: a in s.heap ==> s.heap[a].moved == None
  {
    StreamLength(s);
    hide WellFormed, OnlyMoved, Contiguous, OnlyReachable;
  }

  /** Evacuation appends to the stream. */
  lemma StreamGrows(s: State, a: Addr)
    requires Inv(s) && a in s.heap && s.heap[a].kind != Closure
    ensures ResolveForward(s.heap, a) in s.heap && s.stream <= Evacuate(s, a).0.stream
  {
    hide Inv;
    SeedKeeps(s, a);
  }
}
