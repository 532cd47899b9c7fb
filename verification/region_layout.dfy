/** The stable memory of the region manager as bytes: a header, the block table, and the blocks. */
module RegionLayout {

  type Byte = n: nat | n < 256

  type Memory = seq<Byte>

  const PAGE: nat := 0x1_0000
  const PAGES_IN_BLOCK: nat := 128
  const BLOCK: nat := PAGE * PAGES_IN_BLOCK
  const MAX_BLOCKS: nat := 32 * 1024
  const MAX_REGIONS: nat := 0xffff_ffff_ffff_fffe
  const ENTRY: nat := 11

  const TOTAL_BLOCKS: nat := 22
  const TOTAL_REGIONS: nat := 26
  const BLOCK_TABLE: nat := 34
  const FREE: nat := BLOCK_TABLE + MAX_BLOCKS * ENTRY
  const BASE_LOW: nat := 16 * PAGE
  const BASE_HIGH: nat := BLOCK

  // ---------------------------------------------------------------- little endian numbers

  function Bound(n: nat): (b: nat)
    ensures b > 0
  {
    if n == 0 then 1 else 256 * Bound(n - 1)
  }

  function Encode(v: nat, n: nat): (bytes: seq<Byte>)
    ensures |bytes| == n
  {
    if n == 0 then [] else [v % 256] + Encode(v / 256, n - 1)
  }

  function Decode(bytes: seq<Byte>): nat {
    if bytes == [] then 0 else bytes[0] + 256 * Decode(bytes[1..])
  }

  lemma {:induction false} DecodeEncode(v: nat, n: nat)
    requires v < Bound(n)
    ensures Decode(Encode(v, n)) == v
  {
    if n > 0 {
      DecodeEncode(v / 256, n - 1);
      assert Encode(v, n)[1..] == Encode(v / 256, n - 1);
    }
  }

  lemma Bounds()
    ensures Bound(1) == 0x100 && Bound(2) == 0x1_0000 && Bound(4) == 0x1_0000_0000
    ensures Bound(8) == 0x1_0000_0000_0000_0000
  {
    assert Bound(4) == 256 * 256 * 256 * 256;
    assert Bound(8) == 256 * 256 * 256 * 256 * Bound(4);
  }

  // ---------------------------------------------------------------- reading and writing

  function Read(mem: Memory, at: nat, n: nat): Memory
    requires at + n <= |mem|
  {
    mem[at..at + n]
  }

  function Write(mem: Memory, at: nat, bytes: Memory): (mem': Memory)
    requires at + |bytes| <= |mem|
    ensures |mem'| == |mem|
    ensures forall p :: 0 <= p < |mem| ==> mem'[p] == if at <= p < at + |bytes| then bytes[p - at] else mem[p]
  {
    mem[..at] + bytes + mem[at + |bytes|..]
  }

  lemma ReadOver(mem: Memory, at: nat, bytes: Memory, from: nat, n: nat)
    requires at + |bytes| <= |mem| && from + n <= |mem|
    ensures from == at && n == |bytes| ==> Read(Write(mem, at, bytes), from, n) == bytes
    ensures from + n <= at || at + |bytes| <= from ==> Read(Write(mem, at, bytes), from, n) == Read(mem, from, n)
  {
  }

  function ReadNat(mem: Memory, at: nat, n: nat): nat
    requires at + n <= |mem|
  {
    Decode(Read(mem, at, n))
  }

  function WriteNat(mem: Memory, at: nat, n: nat, v: nat): (mem': Memory)
    requires at + n <= |mem|
    ensures |mem'| == |mem|
    ensures forall p :: 0 <= p < |mem| && !(at <= p < at + n) ==> mem'[p] == mem[p]
  {
    Write(mem, at, Encode(v, n))
  }

  lemma ReadWritten(mem: Memory, at: nat, n: nat, v: nat)
    requires at + n <= |mem| && v < Bound(n)
    ensures ReadNat(WriteNat(mem, at, n, v), at, n) == v
  {
    ReadOver(mem, at, Encode(v, n), at, n);
    DecodeEncode(v, n);
  }

  lemma ReadElsewhere(mem: Memory, at: nat, n: nat, v: nat, from: nat, k: nat)
    requires at + n <= |mem| && from + k <= |mem| && (from + k <= at || at + n <= from)
    ensures ReadNat(WriteNat(mem, at, n, v), from, k) == ReadNat(mem, from, k)
  {
    ReadOver(mem, at, Encode(v, n), from, k);
  }

  // ---------------------------------------------------------------- the block table

  // Block in use by region `id`, as its block number `rank`, with `pages` pages allocated.
  datatype Use = Unused | Use(id: nat, rank: nat, pages: nat)

  predicate UseFits(u: Use) {
    u.Use? ==> u.id <= MAX_REGIONS && u.rank < 0x1_0000 && u.pages < 0x100
  }

  function EntryAt(block: nat): nat {
    BLOCK_TABLE + block * ENTRY
  }

  function GetEntry(mem: Memory, block: nat): Use
    requires FREE <= |mem| && block < MAX_BLOCKS
  {
    var at := EntryAt(block);
    var region := ReadNat(mem, at, 8);
    if region == 0 then Unused else Use(region - 1, ReadNat(mem, at + 8, 2), ReadNat(mem, at + 10, 1))
  }

  function SetEntry(mem: Memory, block: nat, u: Use): (mem': Memory)
    requires FREE <= |mem| && block < MAX_BLOCKS
    ensures |mem'| == |mem|
  {
    var at := EntryAt(block);
    var (region, rank, pages) := match u case Unused => (0, 0, 0) case Use(id, rank, pages) => (id + 1, rank, pages);
    WriteNat(WriteNat(WriteNat(mem, at, 8, region), at + 8, 2, rank), at + 10, 1, pages)
  }

  lemma GetSetEntry(mem: Memory, block: nat, u: Use)
    requires FREE <= |mem| && block < MAX_BLOCKS && UseFits(u)
    ensures GetEntry(SetEntry(mem, block, u), block) == u
  {
    hide ReadNat, WriteNat;
    Bounds();
    var at := EntryAt(block);
    var (region, rank, pages) := match u case Unused => (0, 0, 0) case Use(id, rank, pages) => (id + 1, rank, pages);
    var m1 := WriteNat(mem, at, 8, region);
    var m2 := WriteNat(m1, at + 8, 2, rank);
    ReadWritten(mem, at, 8, region);
    ReadElsewhere(m1, at + 8, 2, rank, at, 8);
    ReadElsewhere(m2, at + 10, 1, pages, at, 8);
    ReadWritten(m1, at + 8, 2, rank);
    ReadElsewhere(m2, at + 10, 1, pages, at + 8, 2);
    ReadWritten(m2, at + 10, 1, pages);
  }

  /** What lies outside of the entry is unchanged. */
  lemma SetEntryOutside(mem: Memory, block: nat, u: Use)
    requires FREE <= |mem| && block < MAX_BLOCKS
    ensures forall p :: 0 <= p < |mem| && !(EntryAt(block) <= p < EntryAt(block) + ENTRY) ==> SetEntry(mem, block, u)[p] == mem[p]
  {
  }

  /** Memories that agree on an entry. */
  lemma SameEntry(mem: Memory, mem': Memory, block: nat)
    requires FREE <= |mem| && FREE <= |mem'| && block < MAX_BLOCKS
    requires forall p :: EntryAt(block) <= p < EntryAt(block) + ENTRY ==> mem'[p] == mem[p]
    ensures GetEntry(mem', block) == GetEntry(mem, block)
  {
    var at := EntryAt(block);
    assert Read(mem', at, 8) == Read(mem, at, 8);
    assert Read(mem', at + 8, 2) == Read(mem, at + 8, 2);
    assert Read(mem', at + 10, 1) == Read(mem, at + 10, 1);
  }

  function TotalBlocks(mem: Memory): nat
    requires FREE <= |mem|
  {
    ReadNat(mem, TOTAL_BLOCKS, 4)
  }

  function TotalRegions(mem: Memory): nat
    requires FREE <= |mem|
  {
    ReadNat(mem, TOTAL_REGIONS, 8)
  }

  lemma SameTotals(mem: Memory, mem': Memory)
    requires FREE <= |mem| && FREE <= |mem'|
    ensures (forall p :: TOTAL_BLOCKS <= p < TOTAL_REGIONS ==> mem'[p] == mem[p]) ==> TotalBlocks(mem') == TotalBlocks(mem)
    ensures (forall p :: TOTAL_REGIONS <= p < BLOCK_TABLE ==> mem'[p] == mem[p]) ==> TotalRegions(mem') == TotalRegions(mem)
  {
    if forall p :: TOTAL_BLOCKS <= p < TOTAL_REGIONS ==> mem'[p] == mem[p] {
      assert Read(mem', TOTAL_BLOCKS, 4) == Read(mem, TOTAL_BLOCKS, 4);
    }
    if forall p :: TOTAL_REGIONS <= p < BLOCK_TABLE ==> mem'[p] == mem[p] {
      assert Read(mem', TOTAL_REGIONS, 8) == Read(mem, TOTAL_REGIONS, 8);
    }
  }
}
