/** Histories of the region manager: every sequence of operations is one on a map from regions to flat,
  * zero-extended byte arrays, which fails exactly when identifiers, blocks or pages are used up. */
module RegionHistory {
  import opened RegionLayout
  import opened RegionModel
  import opened RegionManager

  datatype Request =
    | New
    | Grow(id: nat, pages: nat)
    | Load(id: nat, offset: nat, len: nat)
    | Store(id: nat, offset: nat, src: Memory)
    | Recover(id: nat)

  datatype Reply = Region(id: nat) | Pages(before: nat) | Bytes(bytes: Memory) | Done | Failed

  /** What the program knows of the regions. */
  type Flat = map<nat, Memory>

  // The flat arrays, and what limits them: identifiers given out or reserved, blocks in use, bytes
  // of the memory, and how often the environment has been asked for more.
  datatype World = World(flat: Flat, total: nat, blocks: nat, size: nat, asked: nat)

  // What does not change: where the blocks begin, how many pages the memory may have, and the answers of the
  // environment to the requests for more.
  datatype Bounds = Bounds(base: nat, limit: nat, grants: nat -> bool)

  ghost function FlatOf(s: State): (m: Flat)
    requires Valid(s)
    ensures m.Keys == s.regions.Keys && forall id :: id in m ==> m[id] == Contents(s, id)
  {
    map id | id in s.regions :: Contents(s, id)
  }

  ghost function WorldOf(s: State, asked: nat): World
    requires Valid(s)
  {
    World(FlatOf(s), TotalRegions(s.mem), |s.owners|, |s.mem|, asked)
  }

  ghost function Now(r: Regions): World
    requires Valid(r.View())
    reads r
  {
    WorldOf(r.View(), r.requests)
  }

  ghost function BoundsOf(r: Regions): Bounds {
    Bounds(r.base, r.limit, r.grants)
  }

  /** Offsets and lengths are 64-bit words. */
  predicate WordSized(q: Request) {
    match q
    case Load(_, offset, len) => offset <= U64_MAX && len <= U64_MAX
    case Store(_, offset, src) => offset <= U64_MAX && |src| <= U64_MAX
    case _ => true
  }

  predicate InRange(size: nat, offset: nat, len: nat) {
    if len == 0 then offset < size else offset + len <= size
  }

  /** A region of `before` pages grows, and the memory holds exactly the blocks in use, or more if it did
    * before. It fails if and only if the region gets too large, or the memory must grow and cannot: beyond the
    * limit, or because the environment, which is asked only then, refuses. */
  ghost predicate GrowStep(b: Bounds, w: World, id: nat, pages: nat, w': World, reply: Reply)
    requires id in w.flat
  {
    var before := |w.flat[id]| / PAGE;
    var blocks := w.blocks + BlocksFor(before + pages) - BlocksFor(before);
    var tooLarge := before + pages > MAX_BLOCKS * PAGES_IN_BLOCK;
    var end := b.base + blocks * BLOCK;
    if tooLarge then
      reply == Failed && w' == w
    else if end > w.size && (!b.grants(w.asked) || end > b.limit * PAGE) then
      reply == Failed && w' == w.(asked := w.asked + 1)
    else
      && reply == Pages(before)
      && w' == World(w.flat[id := w.flat[id] + seq(pages * PAGE, _ => 0)], w.total, blocks,
                     if end > w.size then end else w.size, if end > w.size then w.asked + 1 else w.asked)
  }

  /** One operation on flat arrays; what fails changes nothing. */
  ghost predicate Step(b: Bounds, w: World, q: Request, w': World, reply: Reply) {
    match q
    case New =>
      if w.total == MAX_REGIONS then reply == Failed && w' == w
      else reply == Region(w.total) && w.total !in w.flat && w' == w.(flat := w.flat[w.total := []], total := w.total + 1)
    case Grow(id, pages) =>
      if id in w.flat then GrowStep(b, w, id, pages, w', reply) else reply == Failed && w' == w
    case Load(id, offset, len) =>
      && w' == w
      && reply == if id in w.flat && InRange(|w.flat[id]|, offset, len) then Bytes(w.flat[id][offset..offset + len]) else Failed
    case Store(id, offset, src) =>
      if id in w.flat && InRange(|w.flat[id]|, offset, |src|) then
        && offset + |src| <= |w.flat[id]| && reply == Done
        && w' == w.(flat := w.flat[id := w.flat[id][..offset] + src + w.flat[id][offset + |src|..]])
      else
        reply == Failed && w' == w
    case Recover(id) =>
      if id < w.total then reply == Done && w' == if id in w.flat then w else w.(flat := w.flat[id := []])
      else reply == Failed && w' == w
  }

  /** `trace` is what becomes of the flat arrays. */
  ghost predicate History(b: Bounds, requests: seq<Request>, replies: seq<Reply>, trace: seq<World>) {
    && |replies| == |requests| && |trace| == |requests| + 1
    && forall k :: 0 <= k < |requests| ==> Step(b, trace[k], requests[k], trace[k + 1], replies[k])
  }

  /** One region is new or different. */
  lemma FlatUpdated(s: State, s': State, id: nat, bytes: Memory)
    requires Valid(s) && Valid(s') && s'.regions.Keys == s.regions.Keys + {id} && Contents(s', id) == bytes
    requires forall other :: other in s.regions && other != id ==> Contents(s', other) == Contents(s, other)
    ensures FlatOf(s') == FlatOf(s)[id := bytes]
  {
    hide Valid, Contents;
    var m, m' := FlatOf(s)[id := bytes], FlatOf(s');
    assert m.Keys == m'.Keys;
    forall x | x in m
      ensures m'[x] == m[x]
    {
    }
  }

  /** The region's object is built from the block table, as after an upgrade. */
  method RecoverRegion(r: Regions, id: nat) returns (reply: Reply)
    requires Valid(r.View())
    modifies r
    ensures Valid(r.View()) && Step(BoundsOf(r), old(Now(r)), Recover(id), Now(r), reply)
    // A region whose object exists gets the same object again.
    ensures id in old(r.regions) ==> reply == Done && r.View() == old(r.View())
  {
    hide Sized, TableRight, RegionsRight, Zeroed, TotalRegions, Contents;
    ghost var s := r.View();
    RegionBound(s);
    var recovered := RegionManager.Recover(r.mem, id, s);
    reply := Failed;
    if recovered.Ok? {
      WithRegionValid(s, id);
      r.regions := r.regions[id := recovered.value];
      assert r.View() == WithRegion(s, id);
      if id !in s.regions {
        FlatUpdated(s, r.View(), id, []);
      }
      reply := Done;
    } else {
      RegionBelow(s, id);
    }
  }

  lemma RegionBelow(s: State, id: nat)
    requires Valid(s)
    ensures id in s.regions ==> id < TotalRegions(s.mem)
  {
    hide TotalRegions;
  }

  method PerformNew(r: Regions) returns (reply: Reply)
    requires Valid(r.View())
    modifies r
    ensures Valid(r.View()) && Step(BoundsOf(r), old(Now(r)), New, Now(r), reply)
  {
    hide Sized, TableRight, RegionsRight, Zeroed, TotalRegions, Contents;
    ghost var s := r.View();
    RegionBound(s);
    var id := r.New();
    if id.Ok? {
      FlatUpdated(s, r.View(), id.value, []);
      reply := Region(id.value);
    } else {
      reply := Failed;
    }
  }

  method PerformGrow(r: Regions, id: nat, pages: nat) returns (reply: Reply)
    requires Valid(r.View())
    modifies r
    ensures Valid(r.View()) && Step(BoundsOf(r), old(Now(r)), Grow(id, pages), Now(r), reply)
  {
    hide Valid, Contents, TotalRegions;
    ghost var s := r.View();
    reply := Failed;
    if id in r.regions {
      FlatSize(s, id);
      WholePages(s);
      var before := r.Grow(id, pages);
      if before != FAILED {
        FlatUpdated(s, r.View(), id, FlatOf(s)[id] + seq(pages * PAGE, _ => 0));
        reply := Pages(before);
      }
    }
  }

  lemma WholePages(s: State)
    requires Valid(s)
    ensures FREE <= |s.mem| == |s.mem| / PAGE * PAGE
  {
    hide TableRight, RegionsRight, Zeroed;
  }

  method PerformLoad(r: Regions, id: nat, offset: nat, len: nat) returns (reply: Reply)
    requires Valid(r.View()) && offset <= U64_MAX && len <= U64_MAX
    ensures Step(BoundsOf(r), Now(r), Load(id, offset, len), Now(r), reply)
  {
    hide Valid, Contents;
    reply := Failed;
    if id in r.regions {
      FlatSize(r.View(), id);
      var bytes := r.Load(id, offset, len);
      if bytes.Ok? {
        reply := Bytes(bytes.value);
      }
    }
  }

  method PerformStore(r: Regions, id: nat, offset: nat, src: Memory) returns (reply: Reply)
    requires Valid(r.View()) && offset <= U64_MAX && |src| <= U64_MAX
    modifies r
    ensures Valid(r.View()) && Step(BoundsOf(r), old(Now(r)), Store(id, offset, src), Now(r), reply)
  {
    hide Valid, Contents, TotalRegions;
    ghost var s := r.View();
    reply := Failed;
    if id in r.regions {
      FlatSize(s, id);
      var stored := r.Store(id, offset, src);
      if stored.Ok? {
        FlatUpdated(s, r.View(), id, FlatOf(s)[id][..offset] + src + FlatOf(s)[id][offset + |src|..]);
        reply := Done;
      }
    }
  }

  method Perform(r: Regions, q: Request) returns (reply: Reply)
    requires Valid(r.View()) && WordSized(q)
    modifies r
    ensures Valid(r.View()) && Step(BoundsOf(r), old(Now(r)), q, Now(r), reply)
  {
    hide Valid, Contents;
    match q
    case New => reply := PerformNew(r);
    case Grow(id, pages) => reply := PerformGrow(r, id, pages);
    case Load(id, offset, len) => reply := PerformLoad(r, id, offset, len);
    case Store(id, offset, src) => reply := PerformStore(r, id, offset, src);
    case Recover(id) => reply := RecoverRegion(r, id);
  }

  lemma FlatSize(s: State, id: nat)
    requires Valid(s) && id in s.regions
    ensures |FlatOf(s)[id]| == SizeOf(s, id) == s.regions[id].pageCount * PAGE && |FlatOf(s)[id]| / PAGE == s.regions[id].pageCount
  {
  }

  /** Every history is one of flat arrays, with objects recovered from the block table at any point. */
  method Run(r: Regions, requests: seq<Request>) returns (replies: seq<Reply>, ghost trace: seq<World>)
    requires Valid(r.View()) && forall k :: 0 <= k < |requests| ==> WordSized(requests[k])
    modifies r
    ensures Valid(r.View()) && History(BoundsOf(r), requests, replies, trace)
    ensures trace[0] == old(Now(r)) && trace[|requests|] == Now(r)
  {
    hide Valid, Step;
    replies := [];
    trace := [Now(r)];
    var i := 0;
    while i < |requests|
      invariant i <= |requests| && Valid(r.View()) && |replies| == i && |trace| == i + 1
      invariant trace[0] == old(Now(r)) && trace[i] == Now(r)
      invariant forall k :: 0 <= k < i ==> Step(BoundsOf(r), trace[k], requests[k], trace[k + 1], replies[k])
    {
      var reply := Perform(r, requests[i]);
      replies, trace := replies + [reply], trace + [Now(r)];
      i := i + 1;
    }
  }
}
