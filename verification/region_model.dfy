/** Regions as flat byte arrays over the blocks of one memory. */
module RegionModel {
  import opened RegionLayout

  // The heap object of a region: its size and, by rank, the blocks that hold its bytes.
  datatype RegionObject = RegionObject(pageCount: nat, vecPages: seq<nat>)

  datatype Owner = Owner(id: nat, rank: nat)

  // `owners` tells by block which region it belongs to, which the program reads from the block
  // table. `limit` is the number of pages that the memory may have.
  datatype State = State(mem: Memory, base: nat, limit: nat, regions: map<nat, RegionObject>, owners: seq<Owner>)

  function BlocksFor(pages: nat): nat {
    (pages + (PAGES_IN_BLOCK - 1)) / PAGES_IN_BLOCK
  }

  /** Pages allocated in the block of the given rank. */
  function BlockPageCount(rank: nat, blockCount: nat, pageCount: nat): (pages: nat)
    requires rank < blockCount == BlocksFor(pageCount)
    ensures 0 < pages <= PAGES_IN_BLOCK
  {
    if rank == blockCount - 1 then pageCount - (blockCount - 1) * PAGES_IN_BLOCK else PAGES_IN_BLOCK
  }

  // ---------------------------------------------------------------- the invariant

  ghost predicate Sized(s: State) {
    && FREE <= s.base && s.base % PAGE == 0
    && FREE <= |s.mem| && |s.mem| % PAGE == 0 && |s.mem| <= s.limit * PAGE
    && s.limit * PAGE <= s.base + MAX_BLOCKS * BLOCK
    && (|s.owners| > 0 ==> s.base + |s.owners| * BLOCK <= |s.mem|)
    && TotalBlocks(s.mem) == |s.owners|
  }

  ghost predicate ObjectRight(s: State, id: nat)
    requires id in s.regions
  {
    var r := s.regions[id];
    && |r.vecPages| == BlocksFor(r.pageCount)
    && forall rank :: 0 <= rank < |r.vecPages| ==>
         r.vecPages[rank] < |s.owners| && s.owners[r.vecPages[rank]] == Owner(id, rank)
  }

  ghost predicate OwnerRight(s: State, b: nat)
    requires b < |s.owners|
  {
    var o := s.owners[b];
    o.id in s.regions && o.rank < |s.regions[o.id].vecPages| && s.regions[o.id].vecPages[o.rank] == b
  }

  /** What the block table says of a block. */
  function Expected(s: State, b: nat): Use
    requires b < |s.owners|
  {
    var o := s.owners[b];
    if o.id in s.regions && o.rank < BlocksFor(s.regions[o.id].pageCount) then
      Use(o.id, o.rank, BlockPageCount(o.rank, BlocksFor(s.regions[o.id].pageCount), s.regions[o.id].pageCount))
    else
      Unused
  }

  ghost predicate TableRight(s: State) {
    && FREE <= |s.mem| && |s.owners| <= MAX_BLOCKS
    && forall b :: 0 <= b < |s.owners| ==> GetEntry(s.mem, b) == Expected(s, b)
  }

  ghost predicate RegionsRight(s: State) {
    && FREE <= |s.mem| && TotalRegions(s.mem) <= MAX_REGIONS
    && (forall id :: id in s.regions ==> id < TotalRegions(s.mem) && ObjectRight(s, id))
    && (forall b :: 0 <= b < |s.owners| ==> OwnerRight(s, b))
  }

  /** Byte `p` of the memory lies in a block and within the size of the region that owns it. */
  ghost predicate Allocated(s: State, p: nat) {
    && s.base <= p && (p - s.base) / BLOCK < |s.owners|
    && var o := s.owners[(p - s.base) / BLOCK];
       o.id in s.regions && Offset(s, p) < s.regions[o.id].pageCount * PAGE
  }

  /** The place of byte `p` in the region that owns its block. */
  function Offset(s: State, p: nat): nat
    requires s.base <= p && (p - s.base) / BLOCK < |s.owners|
  {
    s.owners[(p - s.base) / BLOCK].rank * BLOCK + (p - s.base) % BLOCK
  }

  ghost predicate Zeroed(s: State) {
    forall p :: s.base <= p < |s.mem| && !Allocated(s, p) ==> s.mem[p] == 0
  }

  /** Memory, block table and heap objects agree. */
  ghost predicate Laid(s: State) {
    Sized(s) && TableRight(s) && RegionsRight(s)
  }

  ghost predicate Valid(s: State) {
    Laid(s) && Zeroed(s)
  }

  // ---------------------------------------------------------------- bytes of a region

  /** The place in the memory of byte `k` of a region. */
  function At(s: State, id: nat, k: nat): nat
    requires id in s.regions && k / BLOCK < |s.regions[id].vecPages|
  {
    s.base + s.regions[id].vecPages[k / BLOCK] * BLOCK + k % BLOCK
  }

  ghost function SizeOf(s: State, id: nat): nat
    requires id in s.regions
  {
    s.regions[id].pageCount * PAGE
  }

  lemma SplitBlock(b: nat, i: nat)
    requires i < BLOCK
    ensures (b * BLOCK + i) / BLOCK == b && (b * BLOCK + i) % BLOCK == i
  {
  }

  /** Every byte of a region has a place, and from the place one can tell the byte: no two regions,
    * and no two bytes of a region, share a byte of the memory. */
  lemma AtOffset(s: State, id: nat, k: nat)
    requires Sized(s) && RegionsRight(s) && id in s.regions && k < SizeOf(s, id)
    ensures k / BLOCK < |s.regions[id].vecPages|
    ensures var p := At(s, id, k);
            && s.base <= p < |s.mem| && (p - s.base) / BLOCK < |s.owners|
            && s.owners[(p - s.base) / BLOCK].id == id && Offset(s, p) == k && Allocated(s, p)
  {
    assert ObjectRight(s, id);
    var r := s.regions[id];
    assert k / BLOCK < |r.vecPages|;
    var b := r.vecPages[k / BLOCK];
    SplitBlock(b, k % BLOCK);
    assert (b + 1) * BLOCK <= |s.owners| * BLOCK;
  }

  lemma AtInjective(s: State, id: nat, k: nat, id': nat, k': nat)
    requires Sized(s) && RegionsRight(s) && id in s.regions && k < SizeOf(s, id) && id' in s.regions && k' < SizeOf(s, id')
    requires k / BLOCK < |s.regions[id].vecPages| && k' / BLOCK < |s.regions[id'].vecPages|
    requires At(s, id, k) == At(s, id', k')
    ensures id == id' && k == k'
  {
    AtOffset(s, id, k);
    AtOffset(s, id', k');
  }

  /** An allocated byte of the memory is the byte of its owner that its offset says. */
  lemma OffsetAt(s: State, p: nat)
    requires Sized(s) && RegionsRight(s) && p < |s.mem| && Allocated(s, p)
    ensures var id := s.owners[(p - s.base) / BLOCK].id;
            && id in s.regions && Offset(s, p) < SizeOf(s, id) && Offset(s, p) / BLOCK < |s.regions[id].vecPages|
            && At(s, id, Offset(s, p)) == p
  {
    var b := (p - s.base) / BLOCK;
    assert OwnerRight(s, b);
    SplitBlock(s.owners[b].rank, (p - s.base) % BLOCK);
  }

  /** The region as a flat array. */
  ghost function Contents(s: State, id: nat): (bytes: Memory)
    requires Sized(s) && RegionsRight(s) && id in s.regions
    ensures |bytes| == SizeOf(s, id)
  {
    seq(SizeOf(s, id), k requires 0 <= k < SizeOf(s, id) => (AtOffset(s, id, k); s.mem[At(s, id, k)]))
  }

  lemma ContentsAt(s: State, id: nat, k: nat)
    requires Sized(s) && RegionsRight(s) && id in s.regions && k < SizeOf(s, id)
    ensures k / BLOCK < |s.regions[id].vecPages| && At(s, id, k) < |s.mem|
    ensures Contents(s, id)[k] == s.mem[At(s, id, k)]
  {
    AtOffset(s, id, k);
  }

  lemma SameBlock(k: nat, q: nat)
    requires k <= q && k % BLOCK + (q - k) < BLOCK
    ensures q / BLOCK == k / BLOCK && q % BLOCK == k % BLOCK + (q - k)
  {
    assert q == k / BLOCK * BLOCK + (k % BLOCK + (q - k));
    SplitBlock(k / BLOCK, k % BLOCK + (q - k));
  }

  /** Within a block the places follow each other. */
  lemma AtFollows(s: State, id: nat, k: nat, q: nat)
    requires Sized(s) && RegionsRight(s) && id in s.regions && k <= q < SizeOf(s, id)
    requires k % BLOCK + (q - k) < BLOCK
    ensures k / BLOCK < |s.regions[id].vecPages| && q / BLOCK < |s.regions[id].vecPages|
    ensures At(s, id, q) == At(s, id, k) + (q - k) < |s.mem|
  {
    hide Sized, RegionsRight, Allocated, Offset;
    AtOffset(s, id, k);
    AtOffset(s, id, q);
    SameBlock(k, q);
  }

  /** A stretch of a region within one block lies in one piece. */
  lemma Stretch(s: State, id: nat, k: nat, n: nat)
    requires Sized(s) && RegionsRight(s) && id in s.regions && k + n <= SizeOf(s, id) && n > 0
    requires k % BLOCK + n <= BLOCK
    ensures k / BLOCK < |s.regions[id].vecPages| && At(s, id, k) + n <= |s.mem|
    ensures Read(s.mem, At(s, id, k), n) == Contents(s, id)[k..k + n]
  {
    hide Sized, RegionsRight, At, Contents;
    AtFollows(s, id, k, k + n - 1);
    var d := At(s, id, k);
    forall j | 0 <= j < n
      ensures Contents(s, id)[k..k + n][j] == Read(s.mem, d, n)[j]
    {
      AtFollows(s, id, k, k + j);
      ContentsAt(s, id, k + j);
    }
  }

  // ---------------------------------------------------------------- stores

  /** Byte `p` of the memory is one of the bytes `offset` to `offset + n` of the region. */
  predicate Inside(s: State, id: nat, offset: nat, n: nat, p: nat) {
    && s.base <= p && (p - s.base) / BLOCK < |s.owners|
    && s.owners[(p - s.base) / BLOCK].id == id && offset <= Offset(s, p) < offset + n
  }

  /** `mem` is the memory after `n` bytes of `src` have been stored. */
  ghost predicate Stored(s: State, id: nat, offset: nat, src: Memory, n: nat, mem: Memory)
    requires n <= |src|
  {
    && |mem| == |s.mem|
    && forall p :: 0 <= p < |mem| ==> mem[p] == if Inside(s, id, offset, n, p) then src[Offset(s, p) - offset] else s.mem[p]
  }

  lemma StoredPiece(s: State, id: nat, offset: nat, src: Memory, n: nat, mem: Memory, m: nat)
    requires Sized(s) && RegionsRight(s) && id in s.regions && offset + |src| <= SizeOf(s, id)
    requires n + m <= |src| && m > 0 && (offset + n) % BLOCK + m <= BLOCK && Stored(s, id, offset, src, n, mem)
    ensures (offset + n) / BLOCK < |s.regions[id].vecPages| && At(s, id, offset + n) + m <= |mem|
    ensures Stored(s, id, offset, src, n + m, Write(mem, At(s, id, offset + n), src[n..n + m]))
  {
    hide Sized, RegionsRight, At, Offset, Contents, Allocated, Write;
    AtFollows(s, id, offset + n, offset + n + m - 1);
    var d := At(s, id, offset + n);
    var mem' := Write(mem, d, src[n..n + m]);
    forall p | 0 <= p < |mem'|
      ensures mem'[p] == if Inside(s, id, offset, n + m, p) then src[Offset(s, p) - offset] else s.mem[p]
    {
      if d <= p < d + m {
        var k := offset + n + (p - d);
        AtFollows(s, id, offset + n, k);
        AtOffset(s, id, k);
      } else {
        NotInPiece(s, id, offset + n, m, p);
      }
    }
  }

  lemma NotInPiece(s: State, id: nat, k: nat, m: nat, p: nat)
    requires Sized(s) && RegionsRight(s) && id in s.regions && k + m <= SizeOf(s, id) && m > 0 && k % BLOCK + m <= BLOCK
    requires p < |s.mem| && k / BLOCK < |s.regions[id].vecPages| && !(At(s, id, k) <= p < At(s, id, k) + m)
    ensures !Inside(s, id, k, m, p)
  {
    hide Sized, RegionsRight, At, Offset;
    if Inside(s, id, k, m, p) {
      OffsetAt(s, p);
      AtFollows(s, id, k, Offset(s, p));
    }
  }

  /** A complete store changes the bytes of one region, and nothing else. */
  lemma StoredAll(s: State, id: nat, offset: nat, src: Memory, mem: Memory)
    requires Valid(s) && id in s.regions && offset + |src| <= SizeOf(s, id) && Stored(s, id, offset, src, |src|, mem)
    ensures Valid(s.(mem := mem)) && FREE <= |mem| == |s.mem| && TotalRegions(mem) == TotalRegions(s.mem)
    ensures Contents(s.(mem := mem), id) == Contents(s, id)[..offset] + src + Contents(s, id)[offset + |src|..]
    ensures forall other :: other in s.regions && other != id ==> Contents(s.(mem := mem), other) == Contents(s, other)
  {
    var s' := s.(mem := mem);
    StoredMeta(s, id, offset, src, mem);
    forall other, k | other in s.regions && 0 <= k < SizeOf(s, other)
      ensures Contents(s', other)[k] == if other == id && offset <= k < offset + |src| then src[k - offset] else Contents(s, other)[k]
    {
      ContentsAt(s, other, k);
      ContentsAt(s', other, k);
      AtOffset(s, other, k);
    }
  }

  lemma StoredMeta(s: State, id: nat, offset: nat, src: Memory, mem: Memory)
    requires Valid(s) && id in s.regions && offset + |src| <= SizeOf(s, id) && Stored(s, id, offset, src, |src|, mem)
    ensures Valid(s.(mem := mem)) && FREE <= |mem| == |s.mem| && TotalRegions(mem) == TotalRegions(s.mem)
  {
    var s' := s.(mem := mem);
    assert forall p :: 0 <= p < FREE ==> mem[p] == s.mem[p];
    SameTotals(s.mem, mem);
    forall b | 0 <= b < |s.owners|
      ensures GetEntry(mem, b) == Expected(s', b)
    {
      SameEntry(s.mem, mem, b);
    }
    forall i | i in s'.regions
      ensures ObjectRight(s', i)
    {
      assert ObjectRight(s, i);
    }
    forall b | 0 <= b < |s.owners|
      ensures OwnerRight(s', b)
    {
      assert OwnerRight(s, b);
    }
    forall p | s.base <= p < |mem| && !Allocated(s', p)
      ensures mem[p] == 0
    {
      assert !Allocated(s, p);
      assert !Inside(s, id, offset, |src|, p);
    }
  }

  // ---------------------------------------------------------------- growth

  function NewBlocks(id: nat, total: nat, from: nat, to: nat): (r: (seq<nat>, seq<Owner>))
    requires from <= to
    ensures |r.0| == |r.1| == to - from
  {
    (seq(to - from, j requires 0 <= j => total + j), seq(to - from, j requires 0 <= j => Owner(id, from + j)))
  }

  /** The region has grown by `pages`; the new blocks are the next ones of the memory. */
  function Grown(s: State, id: nat, pages: nat, mem: Memory): State
    requires id in s.regions
  {
    var r := s.regions[id];
    var from, to := BlocksFor(r.pageCount), BlocksFor(r.pageCount + pages);
    var (blocks, owners) := NewBlocks(id, |s.owners|, from, to);
    s.(mem := mem, regions := s.regions[id := RegionObject(r.pageCount + pages, r.vecPages + blocks)],
       owners := s.owners + owners)
  }

  /** What growth does to the memory: table, total and size, but no byte of a block. */
  ghost predicate GrownMemory(s: State, s': State) {
    && FREE <= |s.mem| <= |s'.mem| && |s'.mem| % PAGE == 0 && |s'.mem| <= s.limit * PAGE
    && (forall p :: FREE <= p < |s.mem| ==> s'.mem[p] == s.mem[p])
    && (forall p :: |s.mem| <= p < |s'.mem| ==> s'.mem[p] == 0)
    && s.base + |s'.owners| * BLOCK <= |s'.mem|
    && TotalBlocks(s'.mem) == |s'.owners| && TotalRegions(s'.mem) == TotalRegions(s.mem)
    && TableRight(s')
  }

  lemma GrownRegions(s: State, id: nat, pages: nat, mem: Memory)
    requires RegionsRight(s) && id in s.regions && GrownMemory(s, Grown(s, id, pages, mem))
    ensures RegionsRight(Grown(s, id, pages, mem))
  {
    var s' := Grown(s, id, pages, mem);
    forall i | i in s'.regions
      ensures ObjectRight(s', i)
    {
      assert ObjectRight(s, i);
      forall rank | 0 <= rank < |s'.regions[i].vecPages|
        ensures var b := s'.regions[i].vecPages[rank]; b < |s'.owners| && s'.owners[b] == Owner(i, rank)
      {
      }
    }
    assert ObjectRight(s, id);
    forall b | 0 <= b < |s'.owners|
      ensures OwnerRight(s', b)
    {
      if b < |s.owners| {
        assert OwnerRight(s, b);
      } else {
        assert s'.owners[b] == Owner(id, BlocksFor(s.regions[id].pageCount) + (b - |s.owners|));
      }
    }
  }

  /** Blocks keep their owners, and what was allocated stays so. */
  lemma GrownAllocated(s: State, id: nat, pages: nat, mem: Memory, p: nat)
    requires id in s.regions
    ensures Allocated(s, p) ==> Allocated(Grown(s, id, pages, mem), p)
    ensures s.base <= p && (p - s.base) / BLOCK < |s.owners| ==> Offset(Grown(s, id, pages, mem), p) == Offset(s, p)
  {
    hide BLOCK;
  }

  lemma GrownValid(s: State, id: nat, pages: nat, mem: Memory)
    requires Valid(s) && id in s.regions && GrownMemory(s, Grown(s, id, pages, mem))
    ensures Valid(Grown(s, id, pages, mem))
  {
    hide Allocated, RegionsRight, TableRight;
    var s' := Grown(s, id, pages, mem);
    GrownRegions(s, id, pages, mem);
    forall p | s.base <= p < |s'.mem| && !Allocated(s', p)
      ensures s'.mem[p] == 0
    {
      GrownAllocated(s, id, pages, mem, p);
    }
  }

  /** The region is extended by zeros, and the others do not change. */
  lemma GrownContents(s: State, id: nat, pages: nat, mem: Memory)
    requires Valid(s) && id in s.regions && GrownMemory(s, Grown(s, id, pages, mem))
    ensures Valid(Grown(s, id, pages, mem))
    ensures Contents(Grown(s, id, pages, mem), id) == Contents(s, id) + seq(pages * PAGE, _ => 0)
    ensures forall other :: other in s.regions && other != id ==>
              Contents(Grown(s, id, pages, mem), other) == Contents(s, other)
  {
    hide Sized, RegionsRight, TableRight, Zeroed, GrownMemory, Contents;
    GrownValid(s, id, pages, mem);
    var s' := Grown(s, id, pages, mem);
    forall other, k | other in s.regions && 0 <= k < SizeOf(s', other)
      ensures Contents(s', other)[k] == if k < SizeOf(s, other) then Contents(s, other)[k] else 0
    {
      GrownByte(s, id, pages, mem, other, k);
    }
    assert Contents(s', id) == Contents(s, id) + seq(pages * PAGE, _ => 0);
  }

  lemma GrownByte(s: State, id: nat, pages: nat, mem: Memory, other: nat, k: nat)
    requires Valid(s) && id in s.regions && GrownMemory(s, Grown(s, id, pages, mem)) && Valid(Grown(s, id, pages, mem))
    requires other in s.regions && k < SizeOf(Grown(s, id, pages, mem), other)
    ensures Contents(Grown(s, id, pages, mem), other)[k] == if k < SizeOf(s, other) then Contents(s, other)[k] else 0
  {
    hide RegionsRight, TableRight, Allocated, Offset;
    var s' := Grown(s, id, pages, mem);
    ContentsAt(s', other, k);
    AtOffset(s', other, k);
    if k < SizeOf(s, other) {
      ContentsAt(s, other, k);
      AtOffset(s, other, k);
      assert At(s', other, k) == At(s, other, k);
    } else {
      var p := At(s', other, k);
      GrownUnallocated(s, id, pages, mem, other, k, p);
    }
  }

  lemma GrownUnallocated(s: State, id: nat, pages: nat, mem: Memory, other: nat, k: nat, p: nat)
    requires Valid(s) && id in s.regions && other in s.regions && k >= SizeOf(s, other) && p >= s.base
    requires var s' := Grown(s, id, pages, mem);
             (p - s.base) / BLOCK < |s'.owners| && s'.owners[(p - s.base) / BLOCK].id == other && Offset(s', p) == k
    ensures !Allocated(s, p)
  {
    hide Sized, RegionsRight, TableRight, Zeroed, BLOCK;
  }
}
