/** The region manager: growable byte arrays carved in blocks from one stable memory. */
module RegionManager {
  import opened RegionLayout
  import opened RegionModel

  const U64_MAX: nat := 0xffff_ffff_ffff_ffff
  const LAST_RESERVED_REGION: nat := 15

  datatype Result<T> = Ok(value: T) | Trap(message: string)

  /** The bounds check of loads and stores on a region of `size` bytes; at most one byte is checked
    * by its offset alone. */
  function CheckRelativeRange(size: nat, offset: nat, len: nat): (r: Result<()>)
    ensures size <= U64_MAX && offset <= U64_MAX && len <= U64_MAX ==>
              (r.Ok? <==> if len == 0 then offset < size else offset + len <= size)
  {
    if len <= 1 then
      if offset >= size then Trap("offset out of bounds") else Ok(())
    else if U64_MAX - len < offset then Trap("range overflow")
    else if offset + len > size then Trap("range out of bounds")
    else Ok(())
  }

  // ---------------------------------------------------------------- recovery

  /** Ranks of the blocks below `b` that belong to the region. */
  ghost function RanksBelow(s: State, id: nat, b: nat): set<nat>
    requires b <= |s.owners|
  {
    set c | 0 <= c < b && s.owners[c].id == id :: s.owners[c].rank
  }

  ghost function Ranks(n: nat): (ranks: set<nat>)
    ensures forall i: nat :: i in ranks <==> i < n
  {
    if n == 0 then {} else Ranks(n - 1) + {n - 1}
  }

  lemma {:induction false} RanksCount(n: nat)
    ensures |Ranks(n)| == n
  {
    if n > 0 {
      RanksCount(n - 1);
      assert n - 1 !in Ranks(n - 1);
    }
  }

  lemma SubsetCount(a: set<nat>, n: nat)
    requires a <= Ranks(n)
    ensures |a| <= n
    ensures |a| == n ==> a == Ranks(n)
  {
    RanksCount(n);
    var rest := Ranks(n) - a;
    assert Ranks(n) == a + rest;
    if |a| == n {
      assert |rest| == 0;
    }
  }

  /** A block of the region adds a new rank. */
  lemma RankAdded(s: State, id: nat, b: nat)
    requires RegionsRight(s) && id in s.regions && b < |s.owners|
    ensures RanksBelow(s, id, b) <= Ranks(|s.regions[id].vecPages|)
    ensures s.owners[b].id != id ==> RanksBelow(s, id, b + 1) == RanksBelow(s, id, b)
    ensures s.owners[b].id == id ==>
              && s.owners[b].rank < |s.regions[id].vecPages| && s.owners[b].rank !in RanksBelow(s, id, b)
              && s.regions[id].vecPages[s.owners[b].rank] == b
              && RanksBelow(s, id, b + 1) == RanksBelow(s, id, b) + {s.owners[b].rank}
  {
    forall c | 0 <= c < |s.owners| && s.owners[c].id == id
      ensures s.owners[c].rank < |s.regions[id].vecPages| && s.regions[id].vecPages[s.owners[c].rank] == c
    {
      assert OwnerRight(s, c);
    }
  }

  /** In the end all ranks have been seen. */
  lemma AllRanks(s: State, id: nat)
    requires RegionsRight(s) && id in s.regions
    ensures RanksBelow(s, id, |s.owners|) == Ranks(|s.regions[id].vecPages|)
  {
    assert ObjectRight(s, id);
    forall c | 0 <= c < |s.owners| && s.owners[c].id == id
      ensures s.owners[c].rank < |s.regions[id].vecPages|
    {
      assert OwnerRight(s, c);
    }
    forall i | 0 <= i < |s.regions[id].vecPages|
      ensures i in RanksBelow(s, id, |s.owners|)
    {
      assert s.owners[s.regions[id].vecPages[i]] == Owner(id, i);
    }
  }

  /** The pages of the blocks with the given ranks: all full but perhaps the last. */
  ghost function PagesOf(ranks: set<nat>, pageCount: nat): int {
    var n := BlocksFor(pageCount);
    |ranks| * PAGES_IN_BLOCK - (if n > 0 && n - 1 in ranks then n * PAGES_IN_BLOCK - pageCount else 0)
  }

  lemma PagesAdded(ranks: set<nat>, rank: nat, pageCount: nat)
    requires rank !in ranks && rank < BlocksFor(pageCount)
    ensures PagesOf(ranks + {rank}, pageCount) == PagesOf(ranks, pageCount) + BlockPageCount(rank, BlocksFor(pageCount), pageCount)
  {
    assert |ranks + {rank}| == |ranks| + 1;
  }

  lemma AllPages(pageCount: nat)
    ensures PagesOf(Ranks(BlocksFor(pageCount)), pageCount) == pageCount
  {
    RanksCount(BlocksFor(pageCount));
  }

  /** Sums the pages of the region's blocks in the table. */
  method CountPages(mem: Memory, id: nat, ghost s: State) returns (pageCount: nat)
    requires Laid(s) && s.mem == mem && id in s.regions
    ensures pageCount == s.regions[id].pageCount
  {
    hide Sized, RegionsRight, Zeroed, GetEntry, PagesOf;
    pageCount := 0;
    var b, total := 0, TotalBlocks(mem);
    ghost var pages := s.regions[id].pageCount;
    TotalRight(s);
    NothingSeen(s, id);
    while b < total
      invariant b <= total == |s.owners|
      invariant pageCount == PagesOf(RanksBelow(s, id, b), pages)
    {
      TableEntry(s, id, b);
      RankAdded(s, id, b);
      match GetEntry(mem, b) {
        case Unused =>
        case Use(owner, rank, pagesInBlock) =>
          if owner == id {
            PagesAdded(RanksBelow(s, id, b), rank, pages);
            pageCount := pageCount + pagesInBlock;
          }
      }
      b := b + 1;
    }
    AllRanks(s, id);
    AllPages(pages);
    VectorLength(s, id);
  }

  lemma TotalRight(s: State)
    requires Sized(s)
    ensures TotalBlocks(s.mem) == |s.owners|
  {
  }

  lemma VectorLength(s: State, id: nat)
    requires RegionsRight(s) && id in s.regions
    ensures |s.regions[id].vecPages| == BlocksFor(s.regions[id].pageCount)
  {
    assert ObjectRight(s, id);
  }

  lemma NothingSeen(s: State, id: nat)
    requires id in s.regions
    ensures RanksBelow(s, id, 0) == {} && PagesOf({}, s.regions[id].pageCount) == 0
  {
  }

  lemma TableEntry(s: State, id: nat, b: nat)
    requires RegionsRight(s) && TableRight(s) && id in s.regions && b < |s.owners|
    ensures s.owners[b].id in s.regions && s.owners[b].rank < BlocksFor(s.regions[s.owners[b].id].pageCount)
    ensures var o := s.owners[b];
            var pages := s.regions[o.id].pageCount;
            GetEntry(s.mem, b) == Use(o.id, o.rank, BlockPageCount(o.rank, BlocksFor(pages), pages))
  {
    assert OwnerRight(s, b);
    assert ObjectRight(s, s.owners[b].id);
  }

  /** Enters the region's blocks into a page vector. */
  method RecoverVector(mem: Memory, id: nat, blockCount: nat, ghost s: State) returns (vec: seq<nat>)
    requires Laid(s) && s.mem == mem && id in s.regions && blockCount == |s.regions[id].vecPages|
    ensures vec == s.regions[id].vecPages
  {
    hide Sized, RegionsRight, Zeroed, GetEntry, Ranks, RanksBelow, BlockPageCount;
    vec := seq(blockCount, _ => 0);
    var recovered, b, total := 0, 0, TotalBlocks(mem);
    ghost var ranks: set<nat> := {};
    TotalRight(s);
    NothingSeen(s, id);
    while recovered < blockCount && b < total
      invariant b <= total == |s.owners| && |vec| == blockCount
      invariant recovered == |ranks| && ranks == RanksBelow(s, id, b)
      invariant forall rank :: rank in ranks ==> rank < blockCount && vec[rank] == s.regions[id].vecPages[rank]
      decreases total - b
    {
      TableEntry(s, id, b);
      RankAdded(s, id, b);
      match GetEntry(mem, b) {
        case Unused =>
        case Use(owner, rank, _) =>
          if owner == id {
            vec := vec[rank := b];
            recovered := recovered + 1;
            ranks := ranks + {rank};
          }
      }
      b := b + 1;
    }
    RanksComplete(s, id, b, recovered);
  }

  /** The search ends with all blocks found. */
  lemma RanksComplete(s: State, id: nat, b: nat, recovered: nat)
    requires RegionsRight(s) && id in s.regions && b <= |s.owners| && recovered == |RanksBelow(s, id, b)|
    requires recovered >= |s.regions[id].vecPages| || b == |s.owners|
    ensures recovered == |s.regions[id].vecPages|
    ensures forall rank :: 0 <= rank < |s.regions[id].vecPages| ==> rank in RanksBelow(s, id, b)
  {
    hide RegionsRight;
    var n := |s.regions[id].vecPages|;
    AllRanks(s, id);
    RanksCount(n);
    assert RanksBelow(s, id, b) <= Ranks(n);
    SubsetCount(RanksBelow(s, id, b), n);
  }

  /** The region's object exists: an identifier that has been given out, or reserved, without any block
    * is that of an empty region. */
  ghost function WithRegion(s: State, id: nat): (s': State)
    ensures id in s'.regions && s'.regions[id] == if id in s.regions then s.regions[id] else RegionObject(0, [])
  {
    if id in s.regions then s else s.(regions := s.regions[id := RegionObject(0, [])])
  }

  lemma WithRegionLaid(s: State, id: nat)
    requires Laid(s) && id < TotalRegions(s.mem)
    ensures Laid(WithRegion(s, id))
  {
    hide TotalRegions, TotalBlocks, GetEntry;
    var s' := WithRegion(s, id);
    forall b | 0 <= b < |s.owners|
      ensures OwnerRight(s', b) && Expected(s', b) == Expected(s, b)
    {
      assert OwnerRight(s, b);
    }
    forall i | i in s'.regions
      ensures ObjectRight(s', i)
    {
      assert i in s.regions ==> ObjectRight(s, i);
    }
  }

  /** The block table alone determines the size and the page vector of every region that has been given
    * out or reserved; others cannot be recovered. */
  method Recover(mem: Memory, id: nat, ghost s: State) returns (r: Result<RegionObject>)
    requires Laid(s) && s.mem == mem && FREE <= |mem|
    ensures r.Ok? <==> id < TotalRegions(mem)
    ensures r.Ok? ==> r.value == if id in s.regions then s.regions[id] else RegionObject(0, [])
  {
    hide Sized, RegionsRight, Zeroed, TableRight, TotalRegions;
    if id >= TotalRegions(mem) {
      return Trap("cannot recover un-allocated region");
    }
    WithRegionLaid(s, id);
    ghost var s' := WithRegion(s, id);
    VectorLength(s', id);
    var pageCount := CountPages(mem, id, s');
    var vec := RecoverVector(mem, id, BlocksFor(pageCount), s');
    r := Ok(RegionObject(pageCount, vec));
  }

  // ---------------------------------------------------------------- spans

  lemma RankInRange(s: State, id: nat, k: nat)
    requires Sized(s) && RegionsRight(s) && id in s.regions && k < SizeOf(s, id)
    ensures k / BLOCK < |s.regions[id].vecPages|
  {
    AtOffset(s, id, k);
  }

  /** Different ranks have different blocks. */
  lemma RankInjective(s: State, id: nat, i: nat, j: nat)
    requires RegionsRight(s) && id in s.regions && i < |s.regions[id].vecPages| && j < |s.regions[id].vecPages|
    ensures s.regions[id].vecPages[i] == s.regions[id].vecPages[j] <==> i == j
  {
    assert ObjectRight(s, id);
  }

  /** A span lies in one block, or reaches beyond its first block, which ends at a block boundary. */
  lemma SpanSplit(offset: nat, len: nat)
    requires len > 0
    ensures offset / BLOCK == (offset + len - 1) / BLOCK ==> offset % BLOCK + len <= BLOCK
    ensures offset / BLOCK != (offset + len - 1) / BLOCK ==> BLOCK - offset % BLOCK < len
    ensures (offset + (BLOCK - offset % BLOCK)) % BLOCK == 0
  {
    if offset % BLOCK + len <= BLOCK {
      SameBlock(offset, offset + len - 1);
    }
    assert offset + (BLOCK - offset % BLOCK) == (offset / BLOCK + 1) * BLOCK;
    SplitBlock(offset / BLOCK + 1, 0);
  }

  lemma Joined(bytes: Memory, i: nat, j: nat, k: nat)
    requires i <= j <= k <= |bytes|
    ensures bytes[i..j] + bytes[j..k] == bytes[i..k]
  {
  }

  lemma NextBlock(k: nat)
    requires k % BLOCK == 0
    ensures (k + BLOCK) % BLOCK == 0
  {
  }

  // ---------------------------------------------------------------- writing the table

  /** The table lies between the header and the blocks. */
  ghost predicate OnlyTable(mem: Memory, mem': Memory) {
    && |mem'| == |mem|
    && forall p :: 0 <= p < |mem| && !(BLOCK_TABLE <= p < FREE) ==> mem'[p] == mem[p]
  }

  lemma EntryWritten(mem: Memory, block: nat, u: Use)
    requires FREE <= |mem| && block < MAX_BLOCKS && UseFits(u)
    ensures OnlyTable(mem, SetEntry(mem, block, u))
    ensures GetEntry(SetEntry(mem, block, u), block) == u
    ensures forall other :: 0 <= other < MAX_BLOCKS && other != block ==>
              GetEntry(SetEntry(mem, block, u), other) == GetEntry(mem, other)
  {
    hide SetEntry, GetEntry;
    GetSetEntry(mem, block, u);
    SetEntryOutside(mem, block, u);
    forall other | 0 <= other < MAX_BLOCKS && other != block
      ensures GetEntry(SetEntry(mem, block, u), other) == GetEntry(mem, other)
    {
      SameEntry(mem, SetEntry(mem, block, u), other);
    }
  }

  lemma OnlyTableThen(mem: Memory, mem': Memory, mem'': Memory)
    requires OnlyTable(mem, mem') && OnlyTable(mem', mem'')
    ensures OnlyTable(mem, mem'')
  {
  }

  /** What the table will say of the blocks of a region that grows. */
  lemma ExpectedGrown(s: State, id: nat, pages: nat, b: nat)
    requires RegionsRight(s) && id in s.regions && b < |Grown(s, id, pages, s.mem).owners|
    ensures var s' := Grown(s, id, pages, s.mem);
            var from, to := BlocksFor(s.regions[id].pageCount), BlocksFor(s'.regions[id].pageCount);
            && (b >= |s.owners| ==> var rank := from + (b - |s.owners|);
                  rank < to && Expected(s', b) == Use(id, rank, BlockPageCount(rank, to, s'.regions[id].pageCount)))
            && (b < |s.owners| && from > 0 && s.regions[id].vecPages[from - 1] == b ==>
                  from - 1 < to && Expected(s', b) == Use(id, from - 1, BlockPageCount(from - 1, to, s'.regions[id].pageCount)))
            && (b < |s.owners| && !(from > 0 && s.regions[id].vecPages[from - 1] == b) ==> Expected(s', b) == Expected(s, b))
  {
    assert ObjectRight(s, id);
    if b < |s.owners| {
      assert OwnerRight(s, b);
      assert ObjectRight(s, s.owners[b].id);
    }
  }

  // ---------------------------------------------------------------- the manager

  const FAILED: nat := U64_MAX

  /** The pages of the metadata and of so many blocks. */
  function TotalRequiredPages(base: nat, blocks: nat): nat {
    base / PAGE + blocks * PAGES_IN_BLOCK
  }

  class Regions {
    var mem: Memory
    const base: nat
    const limit: nat
    // The answers of the environment to the requests for more memory, and how many there have been.
    const grants: nat -> bool
    var requests: nat
    var regions: map<nat, RegionObject>
    ghost var owners: seq<Owner>

    ghost function View(): State
      reads this
    {
      State(mem, base, limit, regions, owners)
    }

    /** The manager of a memory in which `s` is laid out. */
    constructor (s: State, grants: nat -> bool)
      requires Valid(s)
      ensures View() == s && this.grants == grants && requests == 0
    {
      this.grants, requests := grants, 0;
      mem, base, limit, regions, owners := s.mem, s.base, s.limit, s.regions, s.owners;
    }

    /** A new, empty region. */
    method New() returns (r: Result<nat>)
      requires Valid(View())
      modifies this
      ensures Valid(View())
      ensures r.Ok? <==> TotalRegions(old(mem)) < MAX_REGIONS
      ensures r.Trap? ==> View() == old(View())
      ensures r.Ok? ==> r.value !in old(regions) && regions == old(regions)[r.value := RegionObject(0, [])]
      ensures r.Ok? ==> r.value == TotalRegions(old(mem)) == TotalRegions(mem) - 1
      ensures owners == old(owners) && |mem| == |old(mem)|
      ensures r.Ok? ==> Contents(View(), r.value) == []
      ensures r.Ok? ==> forall id :: id in old(regions) ==> Contents(View(), id) == old(Contents(View(), id))
      ensures requests == old(requests)
    {
      hide Sized, TableRight, RegionsRight, Zeroed, Contents;
      RegionBound(View());
      var next := TotalRegions(mem);
      if next == MAX_REGIONS {
        return Trap("out of regions");
      }
      NewRegion(View(), WriteNat(mem, TOTAL_REGIONS, 8, next + 1));
      mem := WriteNat(mem, TOTAL_REGIONS, 8, next + 1);
      regions := regions[next := RegionObject(0, [])];
      r := Ok(next);
    }

    /** More pages for the memory: the environment may refuse, and refuses beyond the limit. */
    method GrowMemory(pages: nat) returns (ok: bool)
      modifies this`mem, this`requests
      ensures ok <==> grants(old(requests)) && |old(mem)| + pages * PAGE <= limit * PAGE
      ensures requests == old(requests) + 1
      ensures ok ==> mem == old(mem) + seq(pages * PAGE, _ => 0) && |mem| <= limit * PAGE
      ensures !ok ==> mem == old(mem)
    {
      ok := grants(requests) && |mem| + pages * PAGE <= limit * PAGE;
      requests := requests + 1;
      if ok {
        mem := mem + seq(pages * PAGE, _ => 0);
      }
    }

    /** Grows a region; a failure changes nothing. It fails exactly if the region gets too large, or if more
      * memory is needed and the limit is reached or the environment refuses. */
    method Grow(id: nat, newPages: nat) returns (r: nat)
      requires Valid(View()) && id in regions
      modifies this
      ensures Valid(View())
      ensures r == FAILED ==> View() == old(View())
      ensures var tooLarge := old(regions)[id].pageCount + newPages > MAX_BLOCKS * PAGES_IN_BLOCK;
              var end := base + (|old(owners)| + BlocksFor(old(regions)[id].pageCount + newPages) - BlocksFor(old(regions)[id].pageCount)) * BLOCK;
              && (r == FAILED <==> tooLarge || (end > |old(mem)| && (!grants(old(requests)) || end > limit * PAGE)))
              // The environment is asked if more memory is needed, and only then.
              && requests == old(requests) + if !tooLarge && end > |old(mem)| then 1 else 0
      ensures r != FAILED ==>
                && r == old(regions)[id].pageCount && regions.Keys == old(regions).Keys
                && regions[id].pageCount == r + newPages <= MAX_BLOCKS * PAGES_IN_BLOCK
                && |owners| == |old(owners)| + BlocksFor(r + newPages) - BlocksFor(r)
                && |mem| == (if base + |owners| * BLOCK > |old(mem)| then base + |owners| * BLOCK else |old(mem)|)
                && TotalRegions(mem) == TotalRegions(old(mem))
                && Contents(View(), id) == old(Contents(View(), id)) + seq(newPages * PAGE, _ => 0)
                && forall other :: other in regions && other != id ==> Contents(View(), other) == old(Contents(View(), other))
    {
      hide Sized, TableRight, RegionsRight, Zeroed, Contents, GrownMemory, Enough, TotalBlocks, TotalRequiredPages, BLOCK;
      ghost var s := View();
      RegionBound(s);
      var maxPages := MAX_BLOCKS * PAGES_IN_BLOCK;
      var oldPages := regions[id].pageCount;
      PagesBound(s, id);
      if newPages > maxPages - oldPages {
        r := FAILED;
        return;
      }
      var from, to := BlocksFor(oldPages), BlocksFor(oldPages + newPages);
      var oldTotal := TotalBlocks(mem);
      TotalRight(s);
      var newTotal := oldTotal + (to - from);
      var have, need := |mem| / PAGE, TotalRequiredPages(base, newTotal);
      RequiredBytes(s, newTotal);
      if have < need {
        var ok := GrowMemory(need - have);
        if !ok {
          r := FAILED;
          return;
        }
      }
      EnoughMemory(s, newTotal, mem);
      Commit(id, newPages, oldTotal, s);
      GrownContents(s, id, newPages, mem);
      GrownTotal(s, id, newPages, mem);
      GrownRegionsTotal(s, View());
      r := oldPages;
    }

    /** There is memory for the new blocks: enters them into the header, the table and the region. */
    method Commit(id: nat, newPages: nat, oldTotal: nat, ghost s: State)
      requires Valid(s) && s == View().(mem := s.mem) && id in regions && oldTotal == |s.owners|
      requires s.regions[id].pageCount + newPages <= MAX_BLOCKS * PAGES_IN_BLOCK && FREE <= |mem|
      requires var total := oldTotal + (BlocksFor(regions[id].pageCount + newPages) - BlocksFor(regions[id].pageCount));
               total <= MAX_BLOCKS && Enough(s, total, mem)
      modifies this
      ensures View() == Grown(s, id, newPages, mem) && GrownMemory(s, Grown(s, id, newPages, mem))
      ensures |mem| == |old(mem)| && requests == old(requests)
    {
      hide Sized, TableRight, RegionsRight, Zeroed, Grown, GrownMemory, Enough, WriteNat;
      var oldPages := regions[id].pageCount;
      var from, to := BlocksFor(oldPages), BlocksFor(oldPages + newPages);
      GrownTotal(s, id, newPages, mem);
      ghost var grown := mem;
      mem := WriteNat(mem, TOTAL_BLOCKS, 4, oldTotal + (to - from));
      CommitTable(id, newPages, oldTotal, s, grown);
      GrownObject(s, id, newPages, mem);
      var blocks := seq(to - from, j requires 0 <= j => oldTotal + j);
      owners := Grown(s, id, newPages, mem).owners;
      regions := regions[id := RegionObject(oldPages + newPages, regions[id].vecPages + blocks)];
    }

    /** Writes the table entries of the grown region: its last old block, and the new blocks. */
    method CommitTable(id: nat, newPages: nat, oldTotal: nat, ghost s: State, ghost grown: Memory)
      requires Valid(s) && id in s.regions && s == State(s.mem, base, limit, regions, owners) && oldTotal == |s.owners|
      requires s.regions[id].pageCount + newPages <= MAX_BLOCKS * PAGES_IN_BLOCK
      requires var total := |Grown(s, id, newPages, grown).owners|;
               && FREE <= |grown| && total <= MAX_BLOCKS && mem == WriteNat(grown, TOTAL_BLOCKS, 4, total)
               && Enough(s, total, grown)
      modifies this`mem
      ensures GrownMemory(s, Grown(s, id, newPages, mem)) && |mem| == |old(mem)|
    {
      hide Sized, TableRight, RegionsRight, Zeroed, GetEntry, SetEntry, OnlyTable, Enough, Expected, BlockPageCount, ReadNat, WriteNat;
      var r := regions[id];
      var from, to := BlocksFor(r.pageCount), BlocksFor(r.pageCount + newPages);
      ghost var total := |Grown(s, id, newPages, grown).owners|;
      ghost var m1 := mem;
      VectorLength(s, id);
      HeaderWritten(s, total, grown, m1);
      OnlyTableSame(m1);
      RankBound(r.pageCount + newPages);
      IdBound(s, id);
      if from > 0 {
        LastBlock(s, id);
        var last := r.vecPages[from - 1];
        ghost var m := mem;
        EntryWritten(mem, last, Use(id, from - 1, BlockPageCount(from - 1, to, r.pageCount + newPages)));
        mem := SetEntry(mem, last, Use(id, from - 1, BlockPageCount(from - 1, to, r.pageCount + newPages)));
        OnlyTableThen(m1, m, mem);
      }
      forall b | 0 <= b < |s.owners|
        ensures GetEntry(mem, b) == Expected(Grown(s, id, newPages, s.mem), b)
      {
        ExpectedGrown(s, id, newPages, b);
      }
      var i := from;
      while i < to
        invariant from <= i <= to && OnlyTable(m1, mem) && |mem| == |m1|
        invariant forall b :: 0 <= b < |s.owners| + (i - from) ==> GetEntry(mem, b) == Expected(Grown(s, id, newPages, s.mem), b)
      {
        var b := oldTotal + (i - from);
        ExpectedGrown(s, id, newPages, b);
        ghost var m := mem;
        EntryWritten(mem, b, Use(id, i, BlockPageCount(i, to, r.pageCount + newPages)));
        mem := SetEntry(mem, b, Use(id, i, BlockPageCount(i, to, r.pageCount + newPages)));
        OnlyTableThen(m1, m, mem);
        i := i + 1;
      }
      TableCommitted(s, id, newPages, grown, m1, mem);
    }

    /** The place of byte `offset`, its block, and what is left of the block from there. */
    function RelativeIntoAbsoluteInfo(id: nat, offset: nat): (at: (nat, nat, nat))
      requires id in regions && offset / BLOCK < |regions[id].vecPages|
      reads this
      ensures at.0 == At(View(), id, offset) && at.1 == regions[id].vecPages[offset / BLOCK]
      ensures at.2 == BLOCK - offset % BLOCK > 0
    {
      var block := regions[id].vecPages[offset / BLOCK];
      (base + block * BLOCK + offset % BLOCK, block, BLOCK - offset % BLOCK)
    }

    /** Loads `len` bytes: what a flat array would give. */
    method Load(id: nat, offset: nat, len: nat) returns (r: Result<Memory>)
      requires Valid(View()) && id in regions && offset <= U64_MAX && len <= U64_MAX
      ensures r.Ok? <==> (if len == 0 then offset < SizeOf(View(), id) else offset + len <= SizeOf(View(), id))
      ensures r.Ok? ==> r.value == Contents(View(), id)[offset..offset + len]
    {
      hide Sized, TableRight, RegionsRight, Zeroed, Contents;
      PagesBound(View(), id);
      match CheckRelativeRange(regions[id].pageCount * PAGE, offset, len) {
        case Trap(message) => return Trap(message);
        case Ok(_) =>
      }
      if len == 0 {
        return Ok([]);
      }
      var dst := LoadSpan(id, offset, len);
      r := Ok(dst);
    }

    method LoadSpan(id: nat, offset: nat, len: nat) returns (dst: Memory)
      requires Valid(View()) && id in regions && 0 < len && offset + len <= SizeOf(View(), id)
      ensures dst == Contents(View(), id)[offset..offset + len]
    {
      hide Sized, TableRight, RegionsRight, Zeroed, Contents, At, Read;
      ghost var s := View();
      RankInRange(s, id, offset);
      RankInRange(s, id, offset + len - 1);
      RankInjective(s, id, offset / BLOCK, (offset + len - 1) / BLOCK);
      SpanSplit(offset, len);
      var info := RelativeIntoAbsoluteInfo(id, offset);
      var last := RelativeIntoAbsoluteInfo(id, offset + len - 1);
      if info.1 == last.1 {
        Stretch(s, id, offset, len);
        return Read(mem, info.0, len);
      }
      Stretch(s, id, offset, info.2);
      dst := LoadBlocks(id, offset, len, Read(mem, info.0, info.2), info.2);
    }

    /** Loads what follows the first block. */
    method LoadBlocks(id: nat, offset: nat, len: nat, first: Memory, start: nat) returns (dst: Memory)
      requires Valid(View()) && id in regions && 0 < start < len && offset + len <= SizeOf(View(), id)
      requires (offset + start) % BLOCK == 0 && first == Contents(View(), id)[offset..offset + start]
      ensures dst == Contents(View(), id)[offset..offset + len]
    {
      hide Sized, TableRight, RegionsRight, Zeroed, Contents, At, Read;
      var i := start;
      dst := first;
      ghost var s, all := View(), Contents(View(), id);
      while i < len
        invariant 0 < i <= len && (offset + i) % BLOCK == 0 && dst == all[offset..offset + i]
      {
        RankInRange(s, id, offset + i);
        var info := RelativeIntoAbsoluteInfo(id, offset + i);
        if i + info.2 > len {
          Stretch(s, id, offset + i, len - i);
          Joined(all, offset, offset + i, offset + len);
          dst := dst + Read(mem, info.0, len - i);
          return;
        }
        Stretch(s, id, offset + i, BLOCK);
        Joined(all, offset, offset + i, offset + i + BLOCK);
        dst := dst + Read(mem, info.0, BLOCK);
        NextBlock(offset + i);
        i := i + BLOCK;
      }
    }

    /** Stores the bytes: what a flat array would do, and nothing to any other region. */
    method Store(id: nat, offset: nat, src: Memory) returns (r: Result<()>)
      requires Valid(View()) && id in regions && offset <= U64_MAX && |src| <= U64_MAX
      modifies this`mem
      ensures Valid(View())
      ensures r.Ok? <==> (if src == [] then offset < SizeOf(View(), id) else offset + |src| <= SizeOf(View(), id))
      ensures r.Trap? ==> mem == old(mem)
      ensures |mem| == |old(mem)| && TotalRegions(mem) == TotalRegions(old(mem))
      ensures r.Ok? ==>
                Contents(View(), id) == old(Contents(View(), id))[..offset] + src + old(Contents(View(), id))[offset + |src|..]
      ensures forall other :: other in regions && other != id ==> Contents(View(), other) == old(Contents(View(), other))
    {
      hide Sized, TableRight, RegionsRight, Zeroed, Contents;
      PagesBound(View(), id);
      match CheckRelativeRange(regions[id].pageCount * PAGE, offset, |src|) {
        case Trap(message) => return Trap(message);
        case Ok(_) =>
      }
      r := Ok(());
      if |src| == 0 {
        assert Contents(View(), id)[..offset] + [] + Contents(View(), id)[offset..] == Contents(View(), id);
        return;
      }
      ghost var s := View();
      StoreSpan(id, offset, src);
      StoredAll(s, id, offset, src, mem);
    }

    method StoreSpan(id: nat, offset: nat, src: Memory)
      requires Valid(View()) && id in regions && 0 < |src| && offset + |src| <= SizeOf(View(), id)
      modifies this`mem
      ensures Stored(old(View()), id, offset, src, |src|, mem)
    {
      hide Sized, TableRight, RegionsRight, Zeroed, Contents, Stored, At, Write;
      ghost var s := View();
      var len := |src|;
      RankInRange(s, id, offset);
      RankInRange(s, id, offset + len - 1);
      RankInjective(s, id, offset / BLOCK, (offset + len - 1) / BLOCK);
      SpanSplit(offset, len);
      NothingStored(s, id, offset, src);
      var info := RelativeIntoAbsoluteInfo(id, offset);
      var last := RelativeIntoAbsoluteInfo(id, offset + len - 1);
      if info.1 == last.1 {
        StoredPiece(s, id, offset, src, 0, mem, len);
        assert src[0..len] == src;
        mem := Write(mem, info.0, src);
        return;
      }
      StoredPiece(s, id, offset, src, 0, mem, info.2);
      mem := Write(mem, info.0, src[0..info.2]);
      StoreBlocks(id, offset, src, info.2, s);
    }

    /** Stores what follows the first block. */
    method StoreBlocks(id: nat, offset: nat, src: Memory, start: nat, ghost s: State)
      requires Valid(s) && s == View().(mem := s.mem) && id in regions
      requires 0 < start < |src| && offset + |src| <= SizeOf(s, id) && (offset + start) % BLOCK == 0
      requires Stored(s, id, offset, src, start, mem)
      modifies this`mem
      ensures Stored(s, id, offset, src, |src|, mem)
    {
      hide Sized, TableRight, RegionsRight, Zeroed, Contents, Stored, Write;
      var i, len := start, |src|;
      while i < len
        invariant 0 < i <= len && (offset + i) % BLOCK == 0 && Stored(s, id, offset, src, i, mem)
      {
        RankInRange(s, id, offset + i);
        var info := RelativeIntoAbsoluteInfo(id, offset + i);
        if i + info.2 > len {
          StoredPiece(s, id, offset, src, i, mem, len - i);
          mem := Write(mem, info.0, src[i..len]);
          return;
        }
        StoredPiece(s, id, offset, src, i, mem, BLOCK);
        mem := Write(mem, info.0, src[i..i + BLOCK]);
        NextBlock(offset + i);
        i := i + BLOCK;
      }
    }
  }

  // ---------------------------------------------------------------- facts about the operations

  lemma RegionBound(s: State)
    requires RegionsRight(s)
    ensures FREE <= |s.mem| && TotalRegions(s.mem) <= MAX_REGIONS
  {
  }

  lemma IdBound(s: State, id: nat)
    requires RegionsRight(s) && id in s.regions
    ensures id < MAX_REGIONS
  {
  }

  lemma NothingStored(s: State, id: nat, offset: nat, src: Memory)
    ensures Stored(s, id, offset, src, 0, s.mem)
  {
  }

  lemma RankBound(pages: nat)
    requires pages <= MAX_BLOCKS * PAGES_IN_BLOCK
    ensures BlocksFor(pages) <= MAX_BLOCKS
  {
  }

  /** No region is larger than all blocks together. */
  lemma PagesBound(s: State, id: nat)
    requires RegionsRight(s) && TableRight(s) && id in s.regions
    ensures s.regions[id].pageCount <= MAX_BLOCKS * PAGES_IN_BLOCK
  {
    AllRanks(s, id);
    VectorLength(s, id);
    var n := |s.regions[id].vecPages|;
    RanksCount(n);
    OwnersCount(s, id, |s.owners|);
  }

  lemma {:induction false} OwnersCount(s: State, id: nat, b: nat)
    requires b <= |s.owners|
    ensures |RanksBelow(s, id, b)| <= b
  {
    if b == 0 {
      assert RanksBelow(s, id, 0) == {};
    } else {
      OwnersCount(s, id, b - 1);
      var more := RanksBelow(s, id, b - 1) + {s.owners[b - 1].rank};
      assert RanksBelow(s, id, b) <= more;
      SubsetSmaller(RanksBelow(s, id, b), more);
    }
  }

  lemma SubsetSmaller(a: set<nat>, b: set<nat>)
    requires a <= b
    ensures |a| <= |b|
  {
    assert b == a + (b - a);
  }

  lemma LastBlock(s: State, id: nat)
    requires RegionsRight(s) && TableRight(s) && id in s.regions && BlocksFor(s.regions[id].pageCount) > 0
    ensures |s.regions[id].vecPages| == BlocksFor(s.regions[id].pageCount)
    ensures s.regions[id].vecPages[BlocksFor(s.regions[id].pageCount) - 1] < |s.owners| <= MAX_BLOCKS
  {
    assert ObjectRight(s, id);
  }

  lemma NewRegion(s: State, mem: Memory)
    requires Valid(s) && TotalRegions(s.mem) < MAX_REGIONS
    requires mem == WriteNat(s.mem, TOTAL_REGIONS, 8, TotalRegions(s.mem) + 1)
    ensures TotalRegions(s.mem) !in s.regions
    ensures FREE <= |mem| == |s.mem| && TotalRegions(mem) == TotalRegions(s.mem) + 1
    ensures var s' := s.(mem := mem, regions := s.regions[TotalRegions(s.mem) := RegionObject(0, [])]);
            && Valid(s') && Contents(s', TotalRegions(s.mem)) == []
            && forall id :: id in s.regions ==> Contents(s', id) == Contents(s, id)
  {
    hide TableRight, WriteNat, Contents, Allocated;
    var next := TotalRegions(s.mem);
    var s' := s.(mem := mem, regions := s.regions[next := RegionObject(0, [])]);
    NewRegionTable(s, mem);
    NewRegionObjects(s, mem);
    forall p | s.base <= p < |mem| && !Allocated(s', p)
      ensures mem[p] == 0
    {
      NewRegionAllocated(s, s', p);
    }
    hide RegionsRight, Zeroed;
    forall id | id in s.regions
      ensures Contents(s', id) == Contents(s, id)
    {
      NewRegionContents(s, s', id);
    }
  }

  lemma NewRegionAllocated(s: State, s': State, p: nat)
    requires s'.base == s.base && s'.owners == s.owners && forall id :: id in s.regions ==> id in s'.regions && s'.regions[id] == s.regions[id]
    ensures Allocated(s, p) ==> Allocated(s', p)
  {
    hide BLOCK;
  }

  lemma NewRegionContents(s: State, s': State, id: nat)
    requires Sized(s) && RegionsRight(s) && Sized(s') && RegionsRight(s') && id in s.regions && id in s'.regions
    requires s'.base == s.base && s'.owners == s.owners && s'.regions[id] == s.regions[id]
    requires |s'.mem| == |s.mem| && forall p :: s.base <= p < |s.mem| ==> s'.mem[p] == s.mem[p]
    ensures Contents(s', id) == Contents(s, id)
  {
    hide Sized, RegionsRight, Contents;
    forall k | 0 <= k < SizeOf(s, id)
      ensures Contents(s', id)[k] == Contents(s, id)[k]
    {
      ContentsAt(s, id, k);
      ContentsAt(s', id, k);
    }
  }

  /** An empty region more, and nothing else. */
  lemma WithRegionValid(s: State, id: nat)
    requires Valid(s) && id < TotalRegions(s.mem)
    ensures Valid(WithRegion(s, id))
    ensures id !in s.regions ==> Contents(WithRegion(s, id), id) == []
    ensures forall other :: other in s.regions ==> Contents(WithRegion(s, id), other) == Contents(s, other)
  {
    hide Sized, TableRight, RegionsRight, TotalRegions, Allocated, Contents;
    var s' := WithRegion(s, id);
    WithRegionLaid(s, id);
    forall p | s'.base <= p < |s'.mem| && !Allocated(s', p)
      ensures s'.mem[p] == 0
    {
      NewRegionAllocated(s, s', p);
    }
    forall other | other in s.regions
      ensures Contents(s', other) == Contents(s, other)
    {
      NewRegionContents(s, s', other);
    }
  }

  lemma NewRegionTable(s: State, mem: Memory)
    requires Valid(s) && TotalRegions(s.mem) < MAX_REGIONS
    requires mem == WriteNat(s.mem, TOTAL_REGIONS, 8, TotalRegions(s.mem) + 1)
    ensures FREE <= |mem| && TotalRegions(mem) == TotalRegions(s.mem) + 1
    ensures var s' := s.(mem := mem, regions := s.regions[TotalRegions(s.mem) := RegionObject(0, [])]);
            Sized(s') && TableRight(s')
  {
    hide WriteNat, ReadNat, GetEntry;
    var next := TotalRegions(s.mem);
    var s' := s.(mem := mem, regions := s.regions[next := RegionObject(0, [])]);
    Bounds();
    ReadWritten(s.mem, TOTAL_REGIONS, 8, next + 1);
    ReadElsewhere(s.mem, TOTAL_REGIONS, 8, next + 1, TOTAL_BLOCKS, 4);
    forall b | 0 <= b < |s.owners|
      ensures GetEntry(mem, b) == Expected(s', b)
    {
      SameEntry(s.mem, mem, b);
      assert OwnerRight(s, b);
    }
  }

  lemma NewRegionObjects(s: State, mem: Memory)
    requires RegionsRight(s) && FREE <= |mem| && TotalRegions(mem) == TotalRegions(s.mem) + 1 <= MAX_REGIONS
    ensures RegionsRight(s.(mem := mem, regions := s.regions[TotalRegions(s.mem) := RegionObject(0, [])]))
  {
    hide TotalRegions;
    var s' := s.(mem := mem, regions := s.regions[TotalRegions(s.mem) := RegionObject(0, [])]);
    forall id | id in s.regions
      ensures ObjectRight(s', id)
    {
      assert ObjectRight(s, id);
    }
    forall b | 0 <= b < |s.owners|
      ensures OwnerRight(s', b)
    {
      assert OwnerRight(s, b);
    }
  }

  /** There is room for `total` blocks. */
  ghost predicate Enough(s: State, total: nat, mem: Memory) {
    && |s.mem| <= |mem| <= s.limit * PAGE && |mem| % PAGE == 0 && total <= MAX_BLOCKS
    && s.base + total * BLOCK <= |mem|
    && (forall p :: 0 <= p < |s.mem| ==> mem[p] == s.mem[p])
    && (forall p :: |s.mem| <= p < |mem| ==> mem[p] == 0)
  }

  /** The pages that are asked for end where the blocks end. */
  lemma RequiredBytes(s: State, blocks: nat)
    requires Sized(s)
    ensures var have, need, end := |s.mem| / PAGE, TotalRequiredPages(s.base, blocks), s.base + blocks * BLOCK;
            && (have < need <==> end > |s.mem|)
            && (have < need ==> |s.mem| + (need - have) * PAGE == end)
  {
    assert TotalRequiredPages(s.base, blocks) * PAGE == s.base + blocks * BLOCK;
    assert |s.mem| / PAGE * PAGE == |s.mem|;
  }

  lemma EnoughMemory(s: State, total: nat, mem: Memory)
    requires Sized(s) && (|mem| <= s.limit * PAGE || mem == s.mem)
    requires var have, need := |s.mem| / PAGE, TotalRequiredPages(s.base, total);
             mem == if have < need then s.mem + seq((need - have) * PAGE, _ => 0) else s.mem
    ensures Enough(s, total, mem) && FREE <= |mem| && total <= MAX_BLOCKS
  {
    var need := s.base / PAGE + total * PAGES_IN_BLOCK;
    assert need * PAGE == s.base + total * BLOCK;
    assert |s.mem| / PAGE * PAGE == |s.mem|;
    if |s.mem| / PAGE < need {
      assert (need - |s.mem| / PAGE) * PAGE == need * PAGE - |s.mem|;
    } else {
      assert need * PAGE <= |s.mem| / PAGE * PAGE;
    }
  }

  lemma OnlyTableSame(mem: Memory)
    ensures OnlyTable(mem, mem)
  {
  }

  /** Writing the number of blocks leaves the table and the number of regions alone. */
  lemma HeaderWritten(s: State, total: nat, grown: Memory, m1: Memory)
    requires Valid(s) && Enough(s, total, grown) && FREE <= |grown| && m1 == WriteNat(grown, TOTAL_BLOCKS, 4, total)
    ensures TotalBlocks(m1) == total && TotalRegions(m1) == TotalRegions(s.mem)
    ensures forall b :: 0 <= b < |s.owners| ==> GetEntry(m1, b) == Expected(s, b)
    ensures forall p :: FREE <= p < |grown| ==> m1[p] == grown[p]
  {
    hide WriteNat, ReadNat, GetEntry, Expected;
    Bounds();
    ReadWritten(grown, TOTAL_BLOCKS, 4, total);
    assert FREE <= |s.mem|;
    SameTotals(s.mem, m1);
    forall b | 0 <= b < |s.owners|
      ensures GetEntry(m1, b) == Expected(s, b)
    {
      SameEntry(s.mem, m1, b);
    }
  }

  lemma TableCommitted(s: State, id: nat, pages: nat, grown: Memory, m1: Memory, mem: Memory)
    requires Valid(s) && id in s.regions && FREE <= |grown|
    requires var total := |Grown(s, id, pages, s.mem).owners|;
             && Enough(s, total, grown) && |m1| == |grown|
             && TotalBlocks(m1) == total && TotalRegions(m1) == TotalRegions(s.mem)
    requires forall p :: FREE <= p < |grown| ==> m1[p] == grown[p]
    requires OnlyTable(m1, mem)
    requires forall b :: 0 <= b < |Grown(s, id, pages, s.mem).owners| ==> GetEntry(mem, b) == Expected(Grown(s, id, pages, s.mem), b)
    ensures GrownMemory(s, Grown(s, id, pages, mem))
  {
    hide GetEntry, Expected, ReadNat, WriteNat;
    SameTotals(m1, mem);
    var s', t := Grown(s, id, pages, mem), Grown(s, id, pages, s.mem);
    forall b | 0 <= b < |s'.owners|
      ensures GetEntry(mem, b) == Expected(s', b)
    {
      SameExpected(t, mem, b);
    }
  }

  lemma SameExpected(s: State, mem: Memory, b: nat)
    requires b < |s.owners|
    ensures Expected(s.(mem := mem), b) == Expected(s, b)
  {
  }

  lemma GrownTotal(s: State, id: nat, pages: nat, mem: Memory)
    requires id in s.regions
    ensures |Grown(s, id, pages, mem).owners| ==
              |s.owners| + (BlocksFor(s.regions[id].pageCount + pages) - BlocksFor(s.regions[id].pageCount))
  {
  }

  lemma GrownRegionsTotal(s: State, s': State)
    requires GrownMemory(s, s')
    ensures FREE <= |s.mem| <= |s'.mem| && TotalRegions(s'.mem) == TotalRegions(s.mem)
  {
  }

  lemma GrownObject(s: State, id: nat, pages: nat, mem: Memory)
    requires id in s.regions
    ensures var from, to := BlocksFor(s.regions[id].pageCount), BlocksFor(s.regions[id].pageCount + pages);
            var blocks := seq(to - from, j requires 0 <= j => |s.owners| + j);
            Grown(s, id, pages, mem) ==
              s.(mem := mem, owners := Grown(s, id, pages, mem).owners,
                 regions := s.regions[id := RegionObject(s.regions[id].pageCount + pages, s.regions[id].vecPages + blocks)])
  {
    var from, to := BlocksFor(s.regions[id].pageCount), BlocksFor(s.regions[id].pageCount + pages);
    assert seq(to - from, j requires 0 <= j => |s.owners| + j) == NewBlocks(id, |s.owners|, from, to).0;
  }
}
