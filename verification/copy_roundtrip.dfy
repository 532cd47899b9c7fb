/** Saving the heap to stable memory and loading it again. */
module CopyRoundTrip {
  import opened CopyModel
  import CopyHeap
  import opened CopySerialization
  import opened CopyDeserialization

  /** A completely serialized stream can be deserialized. */
  lemma SerializedStreamOk(s: CopyHeap.State)
    requires CopyHeap.Inv(s) && s.scan == |s.stream|
    ensures StreamOk(s.stream)
  {
    hide CopyHeap.Inv;
    forall t | 0 <= t < |s.stream| && s.stream[t].Head?
      ensures ObjectOk(s.stream, t)
    {
      HeadMoved(s, t);
      var a := s.origins[t].owner;
      MovedHead(s, a);
      if s.stream[t].size > 0 {
        CopiedField(s, a, t, s.stream[t].size - 1);
      }
      forall w | t < w <= t + s.stream[t].size
        ensures FieldOk(s.stream, w)
      {
        FieldLoadable(s, a, t, w - t - 1);
      }
    }
  }

  lemma FieldLoadable(s: CopyHeap.State, a: Addr, t: Addr, i: nat)
    requires CopyHeap.Inv(s) && s.scan == |s.stream| && a in s.heap && s.heap[a].moved == Some(t) && a in s.heap0
    requires i < |s.heap0[a].fields|
    ensures FieldOk(s.stream, t + 1 + i)
  {
    hide CopyHeap.Inv;
    CopiedField(s, a, t, i);
    var v := s.heap0[a].fields[i];
    if v.Ptr? {
      FieldPointer(s, a, i);
      if s.heap0[v.addr].kind != Closure {
        MovedHead(s, s.heap0[v.addr].forward);
      }
    }
  }

  lemma FieldPointer(s: CopyHeap.State, a: Addr, i: nat)
    requires CopyHeap.Inv(s) && a in s.heap0 && i < |s.heap0[a].fields| && s.heap0[a].fields[i].Ptr?
    ensures s.heap0[a].fields[i].addr in s.heap0
  {
    FieldInHeap(s.heap0, a, i);
  }

  /** The stable addresses of the objects that serialization was started from. */
  ghost function StableRoots(s: CopyHeap.State): set<Addr>
    requires s.seeds <= Moves(s).Keys
  {
    set r | r in s.seeds :: Moves(s)[r]
  }

  /** What has been saved and loaded is a copy of exactly what the program could reach: every object
    * once, with its payload, every pointer led to the copy of its target, whether or not it had been
    * forwarded by the collector, and pointers to closures replaced by the dummy. */
  lemma RoundTrip(s: CopyHeap.State, d: LoadState)
    requires CopyHeap.Inv(s) && s.scan == |s.stream|
    requires LoadInv(d, NO_WORK) && d.stack == [] && d.stream0 == s.stream
    requires s.seeds <= Moves(s).Keys && StableRoots(s) <= d.moves.Keys
    ensures Moves(s).Values <= d.moves.Keys
    ensures IsCopy(CopyHeap.HeapGraph(s.heap0), NewGraph(d.heap, d.heap0), Compose(Moves(s), d.moves))
    ensures IsReachable(CopyHeap.HeapGraph(s.heap0), s.seeds, Compose(Moves(s), d.moves).Keys)
  {
    hide CopyHeap.Inv, LoadInv, IsCopy, IsReachable, StableGraph, NewGraph;
    var g, h, k := CopyHeap.HeapGraph(s.heap0), StableGraph(s.stream), NewGraph(d.heap, d.heap0);
    SerializationComplete(s);
    CopyReachable(g, h, Moves(s), s.seeds);
    DeserializationComplete(d, StableRoots(s));
    CopyNames(g, h, Moves(s));
    CopyOfCopy(g, h, k, Moves(s), d.moves);
    assert Compose(Moves(s), d.moves).Keys == Moves(s).Keys;
  }

  /** Saving from any roots and loading from their stable addresses: each root that is handed back is the
    * image of the root that was saved. */
  lemma RootedRoundTrip(s0: CopyHeap.State, s: CopyHeap.State, d: LoadState)
    requires CopyHeap.Inv(s0) && s == CopyHeap.Finish(s0)
    requires LoadInv(d, NO_WORK) && d.stack == [] && d.stream0 == s.stream
    requires forall r :: r in s0.seeds ==> r in s0.heap && s0.heap[r].moved.Some? && s0.heap[r].moved.value in d.moves
    ensures Moves(s).Values <= d.moves.Keys
    ensures var m := Compose(Moves(s), d.moves);
            && (forall r :: r in s0.seeds ==> r in m && m[r] == d.moves[s0.heap[r].moved.value])
            && IsCopy(CopyHeap.HeapGraph(s.heap0), NewGraph(d.heap, d.heap0), m)
            && IsReachable(CopyHeap.HeapGraph(s.heap0), s0.seeds, m.Keys)
  {
    hide CopyHeap.Inv, CopyHeap.Finish, LoadInv, IsCopy, IsReachable, CopyHeap.HeapGraph, NewGraph;
    forall r | r in s0.seeds
      ensures r in Moves(s) && Moves(s)[r] == s0.heap[r].moved.value
    {
      MovedStays(s0, s, r);
    }
    RoundTrip(s, d);
  }

  // ---------------------------------------------------------------- both programs together

  // The actor, and two tables of the runtime system that there may be.
  datatype Roots = Roots(actor: Addr, dedupTable: Option<Addr>, migrationsList: Option<Addr>)

  predicate IsRoot(heap: CopyHeap.Heap, root: Option<Addr>) {
    root.Some? ==> root.value in heap && heap[root.value].kind != CopyModel.Closure
  }

  predicate RootsRight(heap: CopyHeap.Heap, roots: Roots) {
    IsRoot(heap, Some(roots.actor)) && IsRoot(heap, roots.dedupTable) && IsRoot(heap, roots.migrationsList)
  }

  ghost function Seed(heap: CopyHeap.Heap, root: Option<Addr>): set<Addr>
    requires IsRoot(heap, root)
  {
    if root.Some? then {heap[root.value].forward} else {}
  }

  ghost function Seeds(heap: CopyHeap.Heap, roots: Roots): set<Addr>
    requires RootsRight(heap, roots)
  {
    Seed(heap, Some(roots.actor)) + Seed(heap, roots.dedupTable) + Seed(heap, roots.migrationsList)
  }

  /** The root has its stable address. */
  ghost predicate RootSaved(s: CopyHeap.State, root: Option<Addr>, target: Option<Addr>) {
    match root
    case None => target == None
    case Some(a) =>
      && target.Some? && a in s.heap0
      && s.heap0[a].forward in s.heap && s.heap[s.heap0[a].forward].moved == target
  }

  lemma SavedStays(s: CopyHeap.State, s': CopyHeap.State, root: Option<Addr>, target: Option<Addr>)
    requires CopyHeap.Inv(s) && CopyHeap.Inv(s') && s'.heap0 == s.heap0 && s.origins <= s'.origins
    requires RootSaved(s, root, target)
    ensures RootSaved(s', root, target)
  {
    hide CopyHeap.Inv;
    if root.Some? {
      MovedStays(s, s', s.heap0[root.value].forward);
    }
  }

  method StartOptional(save: Serialization, root: Option<Addr>) returns (target: Option<Addr>)
    requires save.Valid() && save.arraySlice == None && save.scan == 0
    requires IsRoot(save.heap0, root)
    modifies save, save.limit
    ensures save.Valid() && save.arraySlice == None && save.scan == 0
    ensures save.heap0 == old(save.heap0) && save.seeds == old(save.seeds) + Seed(save.heap0, root)
    ensures old(save.origins) <= save.origins && RootSaved(save.View(), root, target)
  {
    hide CopyHeap.WellFormed, CopyHeap.Placed, CopyHeap.Contiguous, CopyHeap.StreamRight, CopyHeap.OnlyReachable;
    target := None;
    if root.Some? {
      var address := save.StartFurther(root.value);
      target := Some(address);
    }
  }

  /** Saves what is reachable from the roots, in at most so many increments. */
  method Save(heap: CopyHeap.Heap, roots: Roots, increments: nat, limits: (nat, nat))
    returns (save: Serialization, dedupTable: Option<Addr>, migrationsList: Option<Addr>, ghost s0: CopyHeap.State)
    requires CopyHeap.WellFormed(heap) && RootsRight(heap, roots)
    ensures fresh(save) && fresh(save.limit) && save.Valid() && save.heap0 == heap
    ensures CopyHeap.Inv(s0) && s0.heap0 == heap && s0.seeds == Seeds(heap, roots)
    ensures RootSaved(s0, Some(roots.actor), Some(0))
    ensures RootSaved(s0, roots.dedupTable, dedupTable) && RootSaved(s0, roots.migrationsList, migrationsList)
    ensures save.IsCompleted() ==> save.View() == CopyHeap.Finish(s0)
    // As many increments suffice as the heap has words, whatever the limits of an increment.
    ensures increments >= |Words(heap)| ==> save.IsCompleted()
  {
    hide CopyHeap.Inv, CopyHeap.Finish, CopyHeap.WellFormed, Later, RootSaved, Words;
    save := new Serialization(heap, limits.0, limits.1);
    var target := save.Start(roots.actor);
    ghost var s1 := save.View();
    ActorSaved(s1, roots.actor);
    dedupTable := StartOptional(save, roots.dedupTable);
    ghost var s2 := save.View();
    migrationsList := StartOptional(save, roots.migrationsList);
    s0 := save.View();
    SavedStays(s1, s0, Some(roots.actor), Some(0));
    SavedStays(s2, s0, roots.dedupTable, dedupTable);
    var i := 0;
    while i < increments && !save.IsCompleted()
      invariant i <= increments && fresh(save) && fresh(save.limit) && save.Valid() && save.heap0 == heap
      invariant save.IsCompleted() || i <= save.scan
      invariant CopyHeap.Finish(save.View()) == CopyHeap.Finish(s0)
    {
      save.CopyIncrement();
      i := i + 1;
    }
    Finished(save.View());
    StreamBounded(save.View());
  }

  lemma ActorSaved(s: CopyHeap.State, actor: Addr)
    requires actor in s.heap0 && s.heap0[actor].forward in s.heap && s.heap[s.heap0[actor].forward].moved == Some(0)
    ensures RootSaved(s, Some(actor), Some(0))
  {
  }

  lemma Finished(s: CopyHeap.State)
    requires CopyHeap.Inv(s)
    ensures s.scan == |s.stream| ==> CopyHeap.Finish(s) == s
  {
    hide CopyHeap.Inv;
  }

  /** An object starts at the stable address. */
  ghost predicate Loadable(stream: seq<CopyHeap.Word>, target: Option<Addr>) {
    target.Some? ==> target.value < |stream| && stream[target.value].Head?
  }

  ghost predicate RootLoaded(moves: map<Addr, Addr>, target: Option<Addr>, restored: Option<Addr>) {
    match target
    case None => restored == None
    case Some(t) => t in moves && restored == Some(moves[t])
  }

  lemma LoadedStays(moves: map<Addr, Addr>, moves': map<Addr, Addr>, target: Option<Addr>, restored: Option<Addr>)
    requires RootLoaded(moves, target, restored) && forall u :: u in moves ==> u in moves' && moves'[u] == moves[u]
    ensures RootLoaded(moves', target, restored)
  {
  }

  method LoadOptional(load: Deserialization, target: Option<Addr>) returns (restored: Option<Addr>)
    requires load.Valid() && load.clearPosition == 0 && load.stableRoot.Some? && Loadable(load.stream0, target)
    modifies load, load.limit
    ensures load.Valid() && load.clearPosition == 0 && load.stableRoot.Some? && load.Left() == old(load.Left())
    ensures load.stream0 == old(load.stream0) && load.heap0 == old(load.heap0)
    ensures RootLoaded(load.moves, target, restored)
    ensures forall u :: u in old(load.moves) ==> u in load.moves && load.moves[u] == old(load.moves)[u]
  {
    hide LoadInv;
    restored := None;
    if target.Some? {
      var address := load.Start(target.value);
      restored := Some(address);
    }
  }

  /** Loads a stream into a heap, in at most so many increments. */
  method Load(stream: seq<CopyHeap.Word>, heap: Objects, dedupTable: Option<Addr>, migrationsList: Option<Addr>,
              increments: nat, heapSize: nat, limits: (nat, nat))
    returns (load: Deserialization, dedupTable': Option<Addr>, migrationsList': Option<Addr>)
    requires StreamOk(stream) && Loadable(stream, Some(0)) && Loadable(stream, dedupTable) && Loadable(stream, migrationsList)
    ensures fresh(load) && fresh(load.limit) && load.Valid() && load.stream0 == stream && load.heap0 == heap && load.stableRoot.Some?
    ensures RootLoaded(load.moves, Some(0), load.stableRoot)
    ensures RootLoaded(load.moves, dedupTable, dedupTable') && RootLoaded(load.moves, migrationsList, migrationsList')
    // As many increments suffice as there are words to copy and to clear.
    ensures increments >= 2 * |stream| ==> load.IsCompleted()
  {
    hide StreamOk, LoadInv, Ahead;
    load := new Deserialization(stream, heap, heapSize, limits.0, limits.1);
    AheadAtStart(load.View());
    var target := load.Start(0);
    dedupTable' := LoadOptional(load, dedupTable);
    ghost var moves := load.moves;
    migrationsList' := LoadOptional(load, migrationsList);
    LoadedStays(moves, load.moves, dedupTable, dedupTable');
    var i := 0;
    while i < increments && !load.IsCompleted()
      invariant i <= increments && fresh(load) && fresh(load.limit) && load.Valid()
      invariant load.Left() + i <= 2 * |stream|
      invariant load.stream0 == stream && load.heap0 == heap && load.stableRoot.Some?
      invariant RootLoaded(load.moves, dedupTable, dedupTable') && RootLoaded(load.moves, migrationsList, migrationsList')
    {
      moves := load.moves;
      load.CopyIncrement();
      LoadedStays(moves, load.moves, dedupTable, dedupTable');
      LoadedStays(moves, load.moves, migrationsList, migrationsList');
      i := i + 1;
    }
    if load.Left() == 0 {
      load.NothingLeft();
    }
  }

  /** The root in the new heap is the image of the old root. */
  ghost predicate RootRestored(heap: CopyHeap.Heap, m: map<Addr, Addr>, root: Option<Addr>, restored: Option<Addr>) {
    match root
    case None => restored == None
    case Some(a) => a in heap && heap[a].forward in m && restored == Some(m[heap[a].forward])
  }

  /** The roots in the new heap are copies of the old roots, with all that was reachable from them and nothing
    * else, and what was in the new heap before is as it was. */
  ghost predicate Restored(heap: CopyHeap.Heap, roots: Roots, other: Objects, roots': Roots, heap': Objects, m: map<Addr, Addr>)
    requires RootsRight(heap, roots)
  {
    && RootRestored(heap, m, Some(roots.actor), Some(roots'.actor))
    && RootRestored(heap, m, roots.dedupTable, roots'.dedupTable)
    && RootRestored(heap, m, roots.migrationsList, roots'.migrationsList)
    && IsCopy(CopyHeap.HeapGraph(heap), NewGraph(heap', other), m)
    && IsReachable(CopyHeap.HeapGraph(heap), Seeds(heap, roots), m.Keys)
    && forall a :: a in other ==> a in heap' && heap'[a] == other[a]
  }

  /** Both programs, one after the other, each interrupted at any points. When they have come to their
    * ends, which takes no more increments of each than twice the words of the heap, the object graph has been restored. */
  method SaveAndLoad(heap: CopyHeap.Heap, roots: Roots, other: Objects, otherSize: nat, increments: nat, limits: (nat, nat))
    returns (restored: Option<(Roots, Objects)>)
    requires CopyHeap.WellFormed(heap) && RootsRight(heap, roots)
    ensures increments >= 2 * |Words(heap)| ==> restored.Some?
    ensures restored.Some? ==> exists m :: Restored(heap, roots, other, restored.value.0, restored.value.1, m)
  {
    hide CopyHeap.Inv, CopyHeap.Finish, CopyHeap.WellFormed, LoadInv, IsCopy, IsReachable, CopyHeap.HeapGraph, NewGraph, Words;
    restored := None;
    var save, dedupTable, migrationsList, s0 := Save(heap, roots, increments, limits);
    if !save.IsCompleted() {
      return;
    }
    ghost var s := save.View();
    SavedLoadable(s0, s, Some(roots.actor), Some(0));
    SavedLoadable(s0, s, roots.dedupTable, dedupTable);
    SavedLoadable(s0, s, roots.migrationsList, migrationsList);
    SerializedStreamOk(s);
    StreamBounded(s);
    var load, dedupTable', migrationsList' := Load(save.stream, other, dedupTable, migrationsList, increments, otherSize, limits);
    if !load.IsCompleted() {
      return;
    }
    ghost var d := load.View();
    RootedRoundTrip(s0, s, d);
    ghost var m := Compose(Moves(s), d.moves);
    OthersKept(d);
    var roots' := Roots(load.stableRoot.value, dedupTable', migrationsList');
    assert Restored(heap, roots, other, roots', load.heap, m);
    restored := Some((roots', load.heap));
  }

  lemma SavedLoadable(s0: CopyHeap.State, s: CopyHeap.State, root: Option<Addr>, target: Option<Addr>)
    requires CopyHeap.Inv(s0) && s == CopyHeap.Finish(s0) && RootSaved(s0, root, target)
    ensures Loadable(s.stream, target)
  {
    hide CopyHeap.Inv, CopyHeap.Finish;
    SavedStays(s0, s, root, target);
    if root.Some? {
      MovedHead(s, s.heap0[root.value].forward);
    }
  }

  lemma OthersKept(d: LoadState)
    requires LoadInv(d, NO_WORK)
    ensures forall a :: a in d.heap0 ==> a in d.heap && d.heap[a] == d.heap0[a]
  {
  }

  lemma CopyNames(g: Graph, h: Graph, m: map<Addr, Addr>)
    requires IsCopy(g, h, m)
    ensures m.Values == h.Keys
  {
  }
}
