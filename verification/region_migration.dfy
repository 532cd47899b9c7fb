/** Turning the memory of a program without regions into region 0. */
module RegionMigration {
  import opened RegionLayout
  import opened RegionModel
  import opened RegionManager

  const U32: nat := 0x1_0000_0000

  function Zeros(n: nat): (z: Memory)
    ensures |z| == n
  {
    seq(n, _ => 0)
  }

  // ---------------------------------------------------------------- moving the head block

  /** Where the head block is written: the product is computed with 32 bits. */
  function HeadPlace(blocks: nat): nat {
    blocks * BLOCK % U32
  }

  /** The memory grown to whole blocks and one more. */
  function GrownTo(memory: Memory, blocks: nat): Memory
    requires |memory| <= blocks * BLOCK
  {
    memory + Zeros(blocks * BLOCK + BLOCK - |memory|)
  }

  /** The head block has been copied to its new place, and the first block cleared. */
  function HeadMoved(memory: Memory, blocks: nat): (mem: Memory)
    requires |memory| <= blocks * BLOCK && blocks > 0
    ensures |mem| == blocks * BLOCK + BLOCK
  {
    var grown := GrownTo(memory, blocks);
    assert HeadPlace(blocks) + BLOCK <= |grown| by {
      assert blocks * BLOCK % U32 <= blocks * BLOCK;
    }
    Write(Write(grown, HeadPlace(blocks), Read(grown, 0, BLOCK)), 0, Zeros(BLOCK))
  }

  /** Where byte `k` of region 0 will be sought: the first block is the physically last one. */
  function Place(blocks: nat, k: nat): nat {
    if k < BLOCK then blocks * BLOCK + k else k
  }

  /** Byte `k` of region 0: from 512 blocks on the head block is written over the block that the number of
    * blocks modulo 512 tells, or over its own place and then cleared, and is zero where it is sought. */
  function RegionByte(memory: Memory, blocks: nat, k: nat): Byte
    requires k < |memory|
  {
    if blocks < 512 then memory[k]
    else if k < BLOCK then 0
    else if k / BLOCK == blocks % 512 then memory[k % BLOCK]
    else memory[k]
  }

  function RegionBytes(memory: Memory, blocks: nat): (bytes: Memory)
    ensures |bytes| == |memory|
  {
    seq(|memory|, k requires 0 <= k < |memory| => RegionByte(memory, blocks, k))
  }

  ghost predicate Preserved(memory: Memory, blocks: nat)
    requires 0 < |memory| <= blocks * BLOCK
  {
    forall k :: 0 <= k < |memory| ==> HeadMoved(memory, blocks)[Place(blocks, k)] == memory[k]
  }

  /** Nothing is in the head block, nor in the block that it is written over. */
  ghost predicate NothingToLose(memory: Memory, blocks: nat) {
    && (forall k :: 0 <= k < |memory| && k / BLOCK == 0 ==> memory[k] == 0)
    && (forall k :: 0 <= k < |memory| && k / BLOCK == blocks % 512 ==> memory[k] == 0)
  }

  lemma HeadPlaceRight(blocks: nat)
    ensures blocks < 512 ==> HeadPlace(blocks) == blocks * BLOCK
    ensures blocks >= 512 ==> HeadPlace(blocks) + 512 * BLOCK <= blocks * BLOCK
    ensures blocks >= 512 ==> HeadPlace(blocks) == blocks % 512 * BLOCK
  {
    assert BLOCK * 512 == U32;
    var q, r := blocks / 512, blocks % 512;
    assert blocks * BLOCK == q * U32 + r * BLOCK;
    assert r * BLOCK < U32;
    assert HeadPlace(blocks) == r * BLOCK;
    if blocks >= 512 {
      assert q >= 1 && blocks * BLOCK >= U32 + r * BLOCK;
    }
  }

  /** What is where region 0 has byte `k`: behind its size, zero. */
  lemma HeadMovedAt(memory: Memory, blocks: nat, k: nat)
    requires (blocks - 1) * BLOCK < |memory| <= blocks * BLOCK && k < blocks * BLOCK
    ensures blocks > 0 && Place(blocks, k) < blocks * BLOCK + BLOCK
    ensures HeadMoved(memory, blocks)[Place(blocks, k)] == if k < |memory| then RegionByte(memory, blocks, k) else 0
  {
    hide Write, HeadPlace;
    HeadPlaceRight(blocks);
    var grown, h := GrownTo(memory, blocks), HeadPlace(blocks);
    var moved := Write(grown, h, Read(grown, 0, BLOCK));
    assert blocks * BLOCK >= BLOCK;
    var p := Place(blocks, k);
    assert moved[p] == if h <= p < h + BLOCK then grown[p - h] else grown[p];
    assert HeadMoved(memory, blocks)[p] == moved[p];
  }

  /** The migration keeps a memory if and only if it has less than 512 blocks or nothing to lose. */
  lemma PreservedExact(memory: Memory, blocks: nat)
    requires 0 < |memory| && (blocks - 1) * BLOCK < |memory| <= blocks * BLOCK
    ensures Preserved(memory, blocks) <==> RegionBytes(memory, blocks) == memory
    ensures RegionBytes(memory, blocks) == memory <==> blocks < 512 || NothingToLose(memory, blocks)
  {
    hide HeadMoved, HeadPlace;
    forall k | 0 <= k < |memory|
      ensures HeadMoved(memory, blocks)[Place(blocks, k)] == RegionBytes(memory, blocks)[k]
    {
      HeadMovedAt(memory, blocks, k);
    }
    SameBytes(memory, blocks);
  }

  lemma SameBytes(memory: Memory, blocks: nat)
    requires (blocks - 1) * BLOCK < |memory| <= blocks * BLOCK
    ensures RegionBytes(memory, blocks) == memory <==> blocks < 512 || NothingToLose(memory, blocks)
  {
    hide HeadPlace;
    HeadPlaceRight(blocks);
    var h, bytes := HeadPlace(blocks), RegionBytes(memory, blocks);
    if blocks >= 512 && bytes == memory {
      forall k | 0 <= k < |memory| && k < BLOCK
        ensures memory[k] == 0
      {
        assert bytes[k] == 0;
      }
      forall k | 0 <= k < |memory| && h <= k < h + BLOCK && h > 0
        ensures memory[k] == 0
      {
        assert bytes[k] == memory[k - h];
      }
    }
  }

  /** The migration keeps every memory of a given size exactly when it has less than 512 blocks. */
  lemma MigrationExact(pages: nat)
    requires pages > 0
    ensures BlocksFor(pages) < 512 <==>
              forall memory: Memory :: |memory| == pages * PAGE ==>
                |memory| <= BlocksFor(pages) * BLOCK && Preserved(memory, BlocksFor(pages))
  {
    hide HeadMoved, HeadPlace;
    var blocks := BlocksFor(pages);
    BlocksHold(pages);
    if blocks < 512 {
      forall memory: Memory | |memory| == pages * PAGE
        ensures Preserved(memory, blocks)
      {
        PreservedExact(memory, blocks);
      }
    } else {
      var memory: Memory := [1] + Zeros(pages * PAGE - 1);
      assert memory[0] == 1;
      PreservedExact(memory, blocks);
    }
  }

  lemma BlocksHold(pages: nat)
    requires pages > 0
    ensures (BlocksFor(pages) - 1) * BLOCK < pages * PAGE <= BlocksFor(pages) * BLOCK
  {
  }

  // ---------------------------------------------------------------- the resulting state

  /** Rank 0 is the last block, and the others follow from the first one on. */
  function Vector(blocks: nat): (vec: seq<nat>)
    ensures |vec| == blocks
  {
    seq(blocks, rank requires 0 <= rank < blocks => if rank == 0 then blocks - 1 else rank - 1)
  }

  function Owners(blocks: nat): (owners: seq<Owner>)
    ensures |owners| == blocks
  {
    seq(blocks, b requires 0 <= b < blocks => if b == blocks - 1 then Owner(0, 0) else Owner(0, b + 1))
  }

  function Migrated(mem: Memory, limit: nat, pages: nat): State {
    State(mem, BASE_HIGH, limit, map[0 := RegionObject(pages, Vector(BlocksFor(pages)))], Owners(BlocksFor(pages)))
  }

  lemma MigratedAt(mem: Memory, limit: nat, pages: nat, k: nat)
    requires k < pages * PAGE
    ensures k / BLOCK < BlocksFor(pages) && At(Migrated(mem, limit, pages), 0, k) == Place(BlocksFor(pages), k)
  {
    assert k / BLOCK * BLOCK + k % BLOCK == k;
  }

  lemma MigratedLaid(mem: Memory, limit: nat, pages: nat)
    requires 0 < pages <= MAX_BLOCKS * PAGES_IN_BLOCK
    requires |mem| == BlocksFor(pages) * BLOCK + BLOCK <= limit * PAGE <= BASE_HIGH + MAX_BLOCKS * BLOCK
    requires FREE <= |mem| && TotalBlocks(mem) == BlocksFor(pages) && 0 < TotalRegions(mem) <= MAX_REGIONS
    requires forall b :: 0 <= b < BlocksFor(pages) ==>
               BlocksFor(pages) <= MAX_BLOCKS && GetEntry(mem, b) == Expected(Migrated(mem, limit, pages), b)
    ensures Laid(Migrated(mem, limit, pages))
  {
    hide TotalBlocks, TotalRegions, GetEntry, Expected;
    var s := Migrated(mem, limit, pages);
    assert |mem| == (BlocksFor(pages) + 1) * PAGES_IN_BLOCK * PAGE;
    forall b | 0 <= b < |s.owners|
      ensures OwnerRight(s, b)
    {
    }
    assert ObjectRight(s, 0);
    RankBound(pages);
  }

  /** The moved memory, seen as region 0. */
  lemma MigratedContents(memory: Memory, mem: Memory, limit: nat, pages: nat)
    requires Laid(Migrated(mem, limit, pages)) && 0 < pages && |memory| == pages * PAGE
    requires |memory| <= BlocksFor(pages) * BLOCK && |mem| == BlocksFor(pages) * BLOCK + BLOCK
    requires forall p :: FREE <= p < |mem| ==> mem[p] == HeadMoved(memory, BlocksFor(pages))[p]
    ensures Valid(Migrated(mem, limit, pages))
    ensures Contents(Migrated(mem, limit, pages), 0) == RegionBytes(memory, BlocksFor(pages))
  {
    hide Laid, Sized, TableRight, RegionsRight, HeadMoved, Contents, At, Migrated, HeadPlace;
    var s := Migrated(mem, limit, pages);
    MigratedParts(mem, limit, pages);
    BlocksHold(pages);
    forall k | 0 <= k < |memory|
      ensures Contents(s, 0)[k] == RegionBytes(memory, BlocksFor(pages))[k]
    {
      ContentsAt(s, 0, k);
      MigratedAt(mem, limit, pages, k);
      HeadMovedAt(memory, BlocksFor(pages), k);
    }
    forall p | s.base <= p < |mem| && !Allocated(s, p)
      ensures mem[p] == 0
    {
      MigratedRest(memory, mem, limit, pages, p);
    }
  }

  lemma MigratedParts(mem: Memory, limit: nat, pages: nat)
    requires Laid(Migrated(mem, limit, pages))
    ensures var s := Migrated(mem, limit, pages);
            && Sized(s) && RegionsRight(s) && 0 in s.regions && SizeOf(s, 0) == pages * PAGE
            && s.mem == mem && s.base == BASE_HIGH
  {
  }

  lemma MigratedRest(memory: Memory, mem: Memory, limit: nat, pages: nat, p: nat)
    requires 0 < pages && |memory| == pages * PAGE <= BlocksFor(pages) * BLOCK
    requires |mem| == BlocksFor(pages) * BLOCK + BLOCK && BASE_HIGH <= p < |mem|
    requires mem[p] == HeadMoved(memory, BlocksFor(pages))[p] && !Allocated(Migrated(mem, limit, pages), p)
    ensures mem[p] == 0
  {
    hide HeadMoved, HeadPlace, RegionByte;
    var blocks := BlocksFor(pages);
    BlocksHold(pages);
    var k := if p >= blocks * BLOCK then p - blocks * BLOCK else p;
    assert Place(blocks, k) == p;
    RestOffset(mem, limit, pages, p, k);
    HeadMovedAt(memory, blocks, k);
  }

  lemma RestOffset(mem: Memory, limit: nat, pages: nat, p: nat, k: nat)
    requires 0 < pages && BASE_HIGH <= p < BlocksFor(pages) * BLOCK + BLOCK
    requires k == if p >= BlocksFor(pages) * BLOCK then p - BlocksFor(pages) * BLOCK else p
    ensures k < BlocksFor(pages) * BLOCK
    ensures Allocated(Migrated(mem, limit, pages), p) <==> k < pages * PAGE
  {
    var blocks := BlocksFor(pages);
    var b, i := (p - BASE_HIGH) / BLOCK, (p - BASE_HIGH) % BLOCK;
    assert p - BASE_HIGH == b * BLOCK + i;
    assert b < blocks;
    if b == blocks - 1 {
      assert b * BLOCK == blocks * BLOCK - BLOCK;
    } else {
      assert (b + 2) * BLOCK <= blocks * BLOCK;
    }
  }

  // ---------------------------------------------------------------- the migrations

  /** Magic, version, block size and block base. */
  method WriteMagic(mem: Memory, base: nat) returns (mem': Memory)
    requires FREE <= |mem| && base < Bound(8)
    ensures |mem'| == |mem| && forall p :: TOTAL_BLOCKS <= p < |mem| ==> mem'[p] == mem[p]
    ensures mem'[..8] == [77, 79, 82, 69, 71, 73, 79, 78]
    ensures ReadNat(mem', 8, 4) == 2 && ReadNat(mem', 12, 2) == PAGES_IN_BLOCK && ReadNat(mem', 14, 8) == base
  {
    hide WriteNat, ReadNat, Write;
    Bounds();
    var magic: Memory := [77, 79, 82, 69, 71, 73, 79, 78];
    var m0 := Write(mem, 0, magic);
    var m1 := WriteNat(m0, 8, 4, 2);
    var m2 := WriteNat(m1, 12, 2, PAGES_IN_BLOCK);
    mem' := WriteNat(m2, 14, 8, base);
    ReadWritten(m0, 8, 4, 2);
    ReadElsewhere(m1, 12, 2, PAGES_IN_BLOCK, 8, 4);
    ReadElsewhere(m2, 14, 8, base, 8, 4);
    ReadWritten(m1, 12, 2, PAGES_IN_BLOCK);
    ReadElsewhere(m2, 14, 8, base, 12, 2);
    ReadWritten(m2, 14, 8, base);
    assert forall p :: 0 <= p < 8 ==> mem'[p] == magic[p];
  }

  /** A memory without anything in it: the manager starts with an empty region 0. */
  method MigrateFromNone(limit: nat, granted: bool) returns (r: Result<Memory>)
    requires limit * PAGE <= BASE_LOW + MAX_BLOCKS * BLOCK
    ensures r.Trap? <==> !granted || FREE > limit * PAGE
    ensures r.Ok? ==> Valid(State(r.value, BASE_LOW, limit, map[0 := RegionObject(0, [])], []))
    ensures r.Ok? ==> TotalRegions(r.value) == LAST_RESERVED_REGION + 1
  {
    hide WriteNat, ReadNat;
    var pages := (FREE - 1 + (PAGE - 1)) / PAGE;
    assert pages == 6;
    Bounds();
    if !granted || pages > limit {
      return Trap("migration failure (insufficient pages)");
    }
    var mem := WriteMagic(Zeros(pages * PAGE), BASE_LOW);
    ghost var m0 := mem;
    ZeroTotal(mem);
    mem := WriteNat(mem, TOTAL_REGIONS, 8, LAST_RESERVED_REGION + 1);
    ReadWritten(m0, TOTAL_REGIONS, 8, LAST_RESERVED_REGION + 1);
    ReadElsewhere(m0, TOTAL_REGIONS, 8, LAST_RESERVED_REGION + 1, TOTAL_BLOCKS, 4);
    EmptyValid(mem, limit);
    r := Ok(mem);
  }

  lemma ZeroTotal(mem: Memory)
    requires FREE <= |mem| && forall p :: TOTAL_BLOCKS <= p < TOTAL_REGIONS ==> mem[p] == 0
    ensures TotalBlocks(mem) == 0
  {
    Bounds();
    assert Read(mem, TOTAL_BLOCKS, 4) == [0, 0, 0, 0];
    assert Encode(0, 4) == [0, 0, 0, 0];
    DecodeEncode(0, 4);
  }

  lemma EmptyValid(mem: Memory, limit: nat)
    requires |mem| == 6 * PAGE && limit * PAGE <= BASE_LOW + MAX_BLOCKS * BLOCK && limit >= 6
    requires TotalBlocks(mem) == 0 && TotalRegions(mem) == LAST_RESERVED_REGION + 1
    ensures Valid(State(mem, BASE_LOW, limit, map[0 := RegionObject(0, [])], []))
  {
    hide TotalBlocks, TotalRegions;
    assert ObjectRight(State(mem, BASE_LOW, limit, map[0 := RegionObject(0, [])], []), 0);
  }

  /** Enters the blocks of region 0 into the table. */
  method WriteTable(mem: Memory, limit: nat, pages: nat) returns (mem': Memory)
    requires FREE <= |mem| && 0 < pages <= MAX_BLOCKS * PAGES_IN_BLOCK
    ensures OnlyTable(mem, mem') && BlocksFor(pages) <= MAX_BLOCKS
    ensures forall b :: 0 <= b < BlocksFor(pages) ==> GetEntry(mem', b) == Expected(Migrated(mem', limit, pages), b)
  {
    hide GetEntry, SetEntry, OnlyTable, BlockPageCount;
    var blocks := BlocksFor(pages);
    RankBound(pages);
    OnlyTableSame(mem);
    EntryWritten(mem, blocks - 1, Use(0, 0, BlockPageCount(0, blocks, pages)));
    mem' := SetEntry(mem, blocks - 1, Use(0, 0, BlockPageCount(0, blocks, pages)));
    var i := 0;
    while i < blocks - 1
      invariant 0 <= i <= blocks - 1 && OnlyTable(mem, mem') && |mem'| == |mem|
      invariant GetEntry(mem', blocks - 1) == Use(0, 0, BlockPageCount(0, blocks, pages))
      invariant forall b :: 0 <= b < i ==> GetEntry(mem', b) == Use(0, b + 1, BlockPageCount(b + 1, blocks, pages))
    {
      ghost var m := mem';
      EntryWritten(mem', i, Use(0, i + 1, BlockPageCount(i + 1, blocks, pages)));
      mem' := SetEntry(mem', i, Use(0, i + 1, BlockPageCount(i + 1, blocks, pages)));
      OnlyTableThen(mem, m, mem');
      i := i + 1;
    }
  }

  /** A memory in use becomes region 0; its first block makes room for the tables. */
  method MigrateFromSome(memory: Memory, limit: nat, granted: bool) returns (r: Result<(Memory, RegionObject)>)
    requires |memory| > 0 && |memory| % PAGE == 0 && limit * PAGE <= BASE_HIGH + MAX_BLOCKS * BLOCK
    // It traps exactly for too many pages, at the limit, or if the environment refuses to grow.
    ensures r.Trap? <==>
              || |memory| / PAGE > MAX_BLOCKS * PAGES_IN_BLOCK
              || !granted || BlocksFor(|memory| / PAGE) * BLOCK + BLOCK > limit * PAGE
    ensures r.Ok? ==>
              var s := Migrated(r.value.0, limit, |memory| / PAGE);
              && Valid(s) && r.value.1 == s.regions[0] && TotalRegions(s.mem) == LAST_RESERVED_REGION + 1
              && Contents(s, 0) == RegionBytes(memory, BlocksFor(|memory| / PAGE))
              // Which is the old memory if and only if no block is lost, or nothing in it.
              && (Contents(s, 0) == memory <==>
                    BlocksFor(|memory| / PAGE) < 512 || NothingToLose(memory, BlocksFor(|memory| / PAGE)))
  {
    hide Laid, Valid, Contents, HeadMoved, TotalBlocks, TotalRegions, Migrated, GetEntry, OnlyTable, WriteNat, Expected, NothingToLose;
    var pages := |memory| / PAGE;
    if pages > PAGES_IN_BLOCK * MAX_BLOCKS {
      r := Trap("migration failure (too many pages for region0 )");
      return;
    }
    var blocks := BlocksFor(pages);
    if !granted || blocks * BLOCK + BLOCK > limit * PAGE {
      r := Trap("migration failure (insufficient pages)");
      return;
    }
    Bounds();
    var mem := HeadMoved(memory, blocks);
    ghost var moved := mem;
    mem := WriteMagic(mem, BASE_HIGH);
    ghost var m0 := mem;
    mem := WriteNat(WriteNat(mem, TOTAL_BLOCKS, 4, blocks), TOTAL_REGIONS, 8, 1);
    ghost var m1 := mem;
    HeaderTotals(m0, blocks, 1);
    mem := WriteTable(mem, limit, pages);
    ghost var m2 := mem;
    TableTotals(m1, m2);
    MigratedLaid(m2, limit, pages);
    MigratedObject(m2, limit, pages);
    var region0 := Recover(mem, 0, Migrated(mem, limit, pages));
    mem := WriteNat(mem, TOTAL_REGIONS, 8, LAST_RESERVED_REGION + 1);
    ReservedTotals(m2, LAST_RESERVED_REGION + 1);
    ReservedTable(m2, mem, limit, pages);
    MigratedLaid(mem, limit, pages);
    MigratedObject(mem, limit, pages);
    assert forall p :: FREE <= p < |mem| ==> mem[p] == moved[p] by {
      OnlyTableBytes(m1, m2);
    }
    MigratedContents(memory, mem, limit, pages);
    BlocksHold(pages);
    SameBytes(memory, blocks);
    r := Ok((mem, region0.value));
  }

  lemma OnlyTableBytes(mem: Memory, mem': Memory)
    requires OnlyTable(mem, mem')
    ensures |mem'| == |mem| && forall p :: 0 <= p < |mem| && !(BLOCK_TABLE <= p < FREE) ==> mem'[p] == mem[p]
  {
  }

  lemma MigratedObject(mem: Memory, limit: nat, pages: nat)
    ensures var s := Migrated(mem, limit, pages);
            s.mem == mem && 0 in s.regions && s.regions[0] == RegionObject(pages, Vector(BlocksFor(pages)))
  {
  }

  lemma HeaderTotals(mem: Memory, blocks: nat, regions: nat)
    requires FREE <= |mem| && blocks <= MAX_BLOCKS && regions <= MAX_REGIONS
    ensures var mem' := WriteNat(WriteNat(mem, TOTAL_BLOCKS, 4, blocks), TOTAL_REGIONS, 8, regions);
            TotalBlocks(mem') == blocks && TotalRegions(mem') == regions
  {
    Bounds();
    var m := WriteNat(mem, TOTAL_BLOCKS, 4, blocks);
    ReadWritten(mem, TOTAL_BLOCKS, 4, blocks);
    ReadElsewhere(m, TOTAL_REGIONS, 8, regions, TOTAL_BLOCKS, 4);
    ReadWritten(m, TOTAL_REGIONS, 8, regions);
  }

  lemma TableTotals(mem: Memory, mem': Memory)
    requires OnlyTable(mem, mem') && FREE <= |mem|
    ensures |mem'| == |mem| && TotalBlocks(mem') == TotalBlocks(mem) && TotalRegions(mem') == TotalRegions(mem)
  {
    SameTotals(mem, mem');
  }

  lemma ReservedTotals(mem: Memory, regions: nat)
    requires FREE <= |mem| && regions <= MAX_REGIONS
    ensures var mem' := WriteNat(mem, TOTAL_REGIONS, 8, regions);
            TotalBlocks(mem') == TotalBlocks(mem) && TotalRegions(mem') == regions
  {
    Bounds();
    ReadElsewhere(mem, TOTAL_REGIONS, 8, regions, TOTAL_BLOCKS, 4);
    ReadWritten(mem, TOTAL_REGIONS, 8, regions);
  }

  lemma ReservedTable(mem: Memory, mem': Memory, limit: nat, pages: nat)
    requires FREE <= |mem| && mem' == WriteNat(mem, TOTAL_REGIONS, 8, LAST_RESERVED_REGION + 1)
    requires BlocksFor(pages) <= MAX_BLOCKS
    requires forall b :: 0 <= b < BlocksFor(pages) ==> GetEntry(mem, b) == Expected(Migrated(mem, limit, pages), b)
    ensures forall b :: 0 <= b < BlocksFor(pages) ==> GetEntry(mem', b) == Expected(Migrated(mem', limit, pages), b)
  {
    hide GetEntry, WriteNat;
    forall b | 0 <= b < BlocksFor(pages)
      ensures GetEntry(mem', b) == Expected(Migrated(mem', limit, pages), b)
    {
      SameEntry(mem, mem', b);
    }
  }
}
