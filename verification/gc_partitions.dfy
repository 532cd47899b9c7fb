/** The partition records of the heap: sizes, flags, blocks and mark bitmaps. */
module GcPartitions {
  import GcModel
  import GcBitmap

  const PARTITION_SIZE: nat := GcModel.PARTITION_SIZE
  const BITMAP_SIZE: nat := GcBitmap.BITMAP_SIZE
  const PARTITIONS_PER_TABLE: nat := 128
  // 128 partition records of seven words and the pointer to the next table.
  const PARTITION_TABLE_SIZE: nat := 7176

  datatype Option<T> = None | Some(value: T)

  // A block of the heap: its size as its header tells it, and whether it forwards to a copy.
  datatype Block = Block(size: nat, forwarded: bool)

  // `blocks` is the memory of the dynamic space, by offset in the partition; `marks` the contents of
  // the bitmap at address `bitmap`.
  datatype Partition = Partition(
    free: bool, largeContent: bool, markedSize: nat, staticSize: nat, dynamicSize: nat,
    bitmap: Option<nat>, marks: set<nat>, temporary: bool, evacuate: bool, update: bool,
    blocks: map<nat, Block>)
  {
    function FreeSize(): int {
      PARTITION_SIZE - staticSize - dynamicSize
    }

    function GarbageAmount(): int {
      dynamicSize - markedSize
    }

    predicate HasDynamicSpace() {
      !free && !temporary && staticSize != PARTITION_SIZE
    }

    predicate IsCompletelyFree() {
      free && FreeSize() == PARTITION_SIZE
    }

    // At most 85 percent of the dynamic heap space survives.
    predicate IsEvacuationCandidate() {
      !free && !largeContent && dynamicSize > 0 && 100 * markedSize <= 85 * (PARTITION_SIZE - staticSize)
    }
  }

  function Unused(staticSize: nat): Partition {
    Partition(true, false, 0, staticSize, 0, None, {}, false, false, false, map[])
  }

  /** What `Partition::free` leaves. */
  function Freed(p: Partition): Partition {
    p.(free := true, dynamicSize := 0, evacuate := false, largeContent := false, temporary := false,
       blocks := map[])
  }

  /** The partitions of a new table. The table itself lies in the first one. */
  function NewTable(): (table: seq<Partition>)
    ensures |table| == PARTITIONS_PER_TABLE
    ensures forall k :: 0 <= k < |table| ==> table[k] == Unused(if k == 0 then PARTITION_TABLE_SIZE else 0)
  {
    seq(PARTITIONS_PER_TABLE, k => if k == 0 then Unused(PARTITION_TABLE_SIZE) else Unused(0))
  }

  /** The number of partitions for a large object. */
  function Span(size: nat): (k: nat)
    ensures size <= k * PARTITION_SIZE && (k > 0 ==> (k - 1) * PARTITION_SIZE < size)
  {
    (size + PARTITION_SIZE - 1) / PARTITION_SIZE
  }

  // ---------------------------------------------------------------- sums over partitions

  ghost function Sum(s: seq<Partition>, f: Partition -> nat): nat {
    if s == [] then 0 else Sum(s[..|s| - 1], f) + f(s[|s| - 1])
  }

  lemma {:induction false} SumUpdate(s: seq<Partition>, i: nat, p: Partition, f: Partition -> nat)
    requires i < |s|
    ensures Sum(s[i := p], f) + f(s[i]) == Sum(s, f) + f(p)
  {
    var t := s[i := p];
    if i == |s| - 1 {
      assert t[..|t| - 1] == s[..|s| - 1];
    } else {
      SumUpdate(s[..|s| - 1], i, p, f);
      assert t[..|t| - 1] == s[..|s| - 1][i := p];
    }
  }

  lemma {:induction false} SumAppend(s: seq<Partition>, t: seq<Partition>, f: Partition -> nat)
    ensures Sum(s + t, f) == Sum(s, f) + Sum(t, f)
  {
    if t == [] {
      assert s + t == s;
    } else {
      SumAppend(s, t[..|t| - 1], f);
      assert (s + t)[..|s + t| - 1] == s + t[..|t| - 1];
    }
  }

  lemma {:induction false} SumEqual(s: seq<Partition>, t: seq<Partition>, f: Partition -> nat)
    requires |s| == |t| && forall i :: 0 <= i < |s| ==> f(s[i]) == f(t[i])
    ensures Sum(s, f) == Sum(t, f)
  {
    if s != [] {
      SumEqual(s[..|s| - 1], t[..|t| - 1], f);
    }
  }

  lemma {:induction false} SumConstant(s: seq<Partition>, f: Partition -> nat, c: nat)
    requires forall i :: 0 <= i < |s| ==> f(s[i]) == c
    ensures Sum(s, f) == c * |s|
  {
    if s != [] {
      SumConstant(s[..|s| - 1], f, c);
      assert c * |s| == c * (|s| - 1) + c;
    }
  }

  lemma {:induction false} SumMember(s: seq<Partition>, f: Partition -> nat, i: nat)
    requires i < |s|
    ensures f(s[i]) <= Sum(s, f)
  {
    if i < |s| - 1 {
      SumMember(s[..|s| - 1], f, i);
    }
  }

  function FreeOne(p: Partition): nat {
    if p.free then 1 else 0
  }

  function StaticOf(p: Partition): nat {
    p.staticSize
  }

  function DynamicOf(p: Partition): nat {
    p.dynamicSize
  }

  // ---------------------------------------------------------------- sums over blocks

  ghost function SizeSum(s: set<nat>, blocks: map<nat, Block>): nat
    requires s <= blocks.Keys
  {
    if s == {} then 0 else
      var x :| x in s;
      blocks[x].size + SizeSum(s - {x}, blocks)
  }

  lemma {:induction false} SizeSumTake(s: set<nat>, blocks: map<nat, Block>, x: nat)
    requires s <= blocks.Keys && x in s
    ensures SizeSum(s, blocks) == blocks[x].size + SizeSum(s - {x}, blocks)
    decreases |s|
  {
    var y :| y in s && SizeSum(s, blocks) == blocks[y].size + SizeSum(s - {y}, blocks);
    if y != x {
      SizeSumTake(s - {y}, blocks, x);
      SizeSumTake(s - {x}, blocks, y);
      assert s - {y} - {x} == s - {x} - {y};
    }
  }

  lemma SizeSumAdd(s: set<nat>, blocks: map<nat, Block>, x: nat)
    requires s <= blocks.Keys && x in blocks && x !in s
    ensures SizeSum(s + {x}, blocks) == SizeSum(s, blocks) + blocks[x].size
  {
    SizeSumTake(s + {x}, blocks, x);
    assert s + {x} - {x} == s;
  }

  lemma {:induction false} SizeSumWithin(s: set<nat>, t: set<nat>, blocks: map<nat, Block>)
    requires s <= t <= blocks.Keys
    ensures SizeSum(s, blocks) <= SizeSum(t, blocks)
    decreases |t|
  {
    if x :| x in t {
      SizeSumTake(t, blocks, x);
      if x in s {
        SizeSumTake(s, blocks, x);
        SizeSumWithin(s - {x}, t - {x}, blocks);
      } else {
        SizeSumWithin(s, t - {x}, blocks);
      }
    }
  }

  lemma {:induction false} SizeSumSame(s: set<nat>, b: map<nat, Block>, c: map<nat, Block>)
    requires s <= b.Keys && s <= c.Keys && forall x :: x in s ==> b[x].size == c[x].size
    ensures SizeSum(s, b) == SizeSum(s, c)
    decreases |s|
  {
    if x :| x in s {
      SizeSumTake(s, b, x);
      SizeSumTake(s, c, x);
      SizeSumSame(s - {x}, b, c);
    }
  }

  function Forwarded(blocks: map<nat, Block>): set<nat> {
    set o | o in blocks && blocks[o].forwarded
  }

  /** Bytes of the blocks that have been copied out of the partition. */
  ghost function CopiedOf(p: Partition): nat {
    SizeSum(Forwarded(p.blocks), p.blocks)
  }

  // ---------------------------------------------------------------- what holds of every partition

  /** The blocks fill the dynamic space, side by side. */
  ghost predicate Tiled(p: Partition) {
    && SizeSum(p.blocks.Keys, p.blocks) == p.dynamicSize
    && (forall o :: o in p.blocks ==>
          p.blocks[o].size > 0 && p.staticSize <= o && o + p.blocks[o].size <= p.staticSize + p.dynamicSize)
    && (forall o, q :: o in p.blocks && q in p.blocks && o < q ==> o + p.blocks[o].size <= q)
  }

  /** The marked size is that of the marked blocks; what is copied is marked and to be evacuated. */
  ghost predicate MarksRight(p: Partition) {
    && p.marks <= p.blocks.Keys && SizeSum(p.marks, p.blocks) == p.markedSize
    && (p.bitmap.None? ==> p.marks == {})
    && (forall o :: o in p.blocks && p.blocks[o].forwarded ==> p.evacuate && o in p.marks)
  }

  predicate Empty(p: Partition) {
    && p.dynamicSize == 0 && p.markedSize == 0 && p.bitmap.None? && p.marks == {} && p.blocks == map[]
    && !p.largeContent && !p.evacuate
  }

  predicate Normal(p: Partition) {
    !p.free && !p.temporary && !p.largeContent
  }

  ghost predicate PartitionOk(p: Partition) {
    && p.staticSize + p.dynamicSize <= PARTITION_SIZE
    && (p.free ==> Empty(p) && !p.temporary && !p.update)
    && (p.temporary ==> Empty(p) && !p.free && p.staticSize == 0)
    && (p.largeContent ==> p.staticSize == 0 && p.bitmap.None? && p.marks == {} && !p.evacuate && Forwarded(p.blocks) == {})
    && (Normal(p) ==> Tiled(p) && MarksRight(p))
  }

  ghost predicate AllOk(ps: seq<Partition>) {
    forall i :: 0 <= i < |ps| ==> PartitionOk(ps[i])
  }

  // ---------------------------------------------------------------- large objects

  /** A large object starts in partition `h`. */
  predicate Head(ps: seq<Partition>, h: nat) {
    h < |ps| && ps[h].largeContent && 0 in ps[h].blocks
  }

  /** Partition `i` is the `i - h`th partition of a large object of this size that starts in `h`. */
  predicate Piece(p: Partition, h: nat, i: nat, size: nat, marked: bool) {
    && p.largeContent && p.staticSize == 0
    && p.dynamicSize == (if i == h + Span(size) - 1 then size - (Span(size) - 1) * PARTITION_SIZE else PARTITION_SIZE)
    && p.markedSize == (if !marked then 0 else if i == h + Span(size) - 1 then size % PARTITION_SIZE else PARTITION_SIZE)
    && (i > h ==> p.blocks == map[])
  }

  ghost predicate SpanOk(ps: seq<Partition>, h: nat)
    requires Head(ps, h)
  {
    var size := ps[h].blocks[0].size;
    var marked := ps[h].markedSize > 0;
    && ps[h].blocks.Keys == {0} && size > PARTITION_SIZE && h + Span(size) <= |ps|
    && forall i :: h <= i < h + Span(size) ==> Piece(ps[i], h, i, size, marked)
  }

  /** Partition `i` belongs to the large object that starts in `h`. */
  predicate Covered(ps: seq<Partition>, h: nat, i: nat) {
    h <= i && Head(ps, h) && i < h + Span(ps[h].blocks[0].size)
  }

  /** A partition with large content belongs to a large object. */
  ghost predicate Owned(ps: seq<Partition>, i: nat)
    requires i < |ps|
  {
    ps[i].largeContent ==> exists h: nat :: Covered(ps, h, i)
  }

  ghost predicate LargeOk(ps: seq<Partition>) {
    && (forall h: nat :: Head(ps, h) ==> SpanOk(ps, h))
    && (forall i: nat :: i < |ps| ==> Owned(ps, i))
  }

  /** Of the large content, nothing changes. */
  predicate SameLarge(p: Partition, q: Partition) {
    && p.largeContent == q.largeContent
    && (p.largeContent ==> p.blocks == q.blocks && p.staticSize == q.staticSize && p.dynamicSize == q.dynamicSize
                           && p.markedSize == q.markedSize)
  }

  lemma LargeKept(ps: seq<Partition>, qs: seq<Partition>)
    requires LargeOk(ps) && |ps| <= |qs|
    requires forall i :: 0 <= i < |ps| ==> SameLarge(ps[i], qs[i])
    requires forall i :: |ps| <= i < |qs| ==> !qs[i].largeContent
    ensures LargeOk(qs)
  {
    forall h: nat | Head(qs, h)
      ensures SpanOk(qs, h)
    {
      assert SameLarge(ps[h], qs[h]) && Head(ps, h);
      SpanKept(ps, qs, h);
    }
    forall i: nat | i < |qs|
      ensures Owned(qs, i)
    {
      if qs[i].largeContent {
        assert SameLarge(ps[i], qs[i]) && Owned(ps, i);
        var h: nat :| Covered(ps, h, i);
        assert SameLarge(ps[h], qs[h]);
        assert Covered(qs, h, i);
      }
    }
  }

  lemma SpanKept(ps: seq<Partition>, qs: seq<Partition>, h: nat)
    requires Head(ps, h) && SpanOk(ps, h) && |ps| <= |qs|
    requires forall i :: 0 <= i < |ps| ==> SameLarge(ps[i], qs[i])
    ensures Head(qs, h) && SpanOk(qs, h)
  {
    assert SameLarge(ps[h], qs[h]);
    forall i | h <= i < h + Span(qs[h].blocks[0].size)
      ensures Piece(qs[i], h, i, qs[h].blocks[0].size, qs[h].markedSize > 0)
    {
      assert SameLarge(ps[i], qs[i]);
      assert Piece(ps[i], h, i, qs[h].blocks[0].size, qs[h].markedSize > 0);
    }
  }

  // ---------------------------------------------------------------- bitmaps

  /** The bitmap at this address lies in a temporary partition, below the allocation pointer. */
  predicate BitmapPlaced(ps: seq<Partition>, a: nat, pointer: nat) {
    && a % BITMAP_SIZE == 0 && a / PARTITION_SIZE < |ps| && ps[a / PARTITION_SIZE].temporary
    && (pointer % PARTITION_SIZE != 0 && pointer / PARTITION_SIZE == a / PARTITION_SIZE ==> a < pointer)
  }

  predicate PointerPlaced(ps: seq<Partition>, pointer: nat) {
    && pointer % BITMAP_SIZE == 0
    && (pointer % PARTITION_SIZE != 0 ==> pointer / PARTITION_SIZE < |ps| && ps[pointer / PARTITION_SIZE].temporary)
  }

  ghost predicate BitmapsOk(ps: seq<Partition>, pointer: nat) {
    && PointerPlaced(ps, pointer)
    && (forall i :: 0 <= i < |ps| && ps[i].bitmap.Some? ==> BitmapPlaced(ps, ps[i].bitmap.value, pointer))
    && (forall i, j :: 0 <= i < j < |ps| && ps[i].bitmap.Some? && ps[j].bitmap.Some? ==>
          ps[i].bitmap.value != ps[j].bitmap.value)
  }

  /** No partition uses this address for its bitmap yet. */
  ghost predicate NewBitmap(ps: seq<Partition>, a: nat, pointer: nat) {
    && BitmapPlaced(ps, a, pointer)
    && forall i :: 0 <= i < |ps| && ps[i].bitmap.Some? ==> ps[i].bitmap.value != a
  }

  lemma BitmapsKept(ps: seq<Partition>, qs: seq<Partition>, pointer: nat)
    requires BitmapsOk(ps, pointer) && |ps| <= |qs|
    requires forall i :: 0 <= i < |ps| ==> (ps[i].temporary ==> qs[i].temporary) && qs[i].bitmap == ps[i].bitmap
    requires forall i :: |ps| <= i < |qs| ==> qs[i].bitmap.None?
    ensures BitmapsOk(qs, pointer)
    ensures forall a :: NewBitmap(ps, a, pointer) ==> NewBitmap(qs, a, pointer)
  {
    assert forall a :: BitmapPlaced(ps, a, pointer) ==> BitmapPlaced(qs, a, pointer);
  }

  lemma BitmapAssigned(ps: seq<Partition>, pointer: nat, a: nat, i: nat, p: Partition)
    requires BitmapsOk(ps, pointer) && NewBitmap(ps, a, pointer)
    requires i < |ps| && ps[i].bitmap.None? && p.bitmap == Some(a) && (ps[i].temporary ==> p.temporary)
    ensures BitmapsOk(ps[i := p], pointer)
  {
    var qs := ps[i := p];
    assert forall b :: BitmapPlaced(ps, b, pointer) ==> BitmapPlaced(qs, b, pointer);
  }

  lemma PointerSteps(a: nat)
    requires a % BITMAP_SIZE == 0
    ensures (a + BITMAP_SIZE) % BITMAP_SIZE == 0
    ensures (a + BITMAP_SIZE) % PARTITION_SIZE != 0 ==> (a + BITMAP_SIZE) / PARTITION_SIZE == a / PARTITION_SIZE
  {
    assert BITMAP_SIZE == 1048576 && PARTITION_SIZE == 67108864;
    var k := a / 1048576;
    var m, r := k / 64, k % 64;
    WithinMillions(m, r);
    if r < 63 {
      WithinMillions(m, r + 1);
    } else {
      WithinMillions(m + 1, 0);
    }
    assert a == 1048576 * k && k == 64 * m + r;
  }

  lemma WithinMillions(m: nat, r: nat)
    requires r < 64
    ensures var a := 67108864 * m + 1048576 * r;
      a / 67108864 == m && a % 67108864 == 1048576 * r && a % 1048576 == 0
  {
    assert 67108864 * m + 1048576 * r == 1048576 * (64 * m + r);
  }

  /** The pointer's bitmap is taken, and the pointer moves past it. */
  lemma BitmapTaken(ps: seq<Partition>, a: nat)
    requires BitmapsOk(ps, a) && a / PARTITION_SIZE < |ps| && ps[a / PARTITION_SIZE].temporary
    requires a % PARTITION_SIZE == 0 ==>
      forall i :: 0 <= i < |ps| && ps[i].bitmap.Some? ==> ps[i].bitmap.value / PARTITION_SIZE != a / PARTITION_SIZE
    ensures BitmapsOk(ps, a + BITMAP_SIZE) && NewBitmap(ps, a, a + BITMAP_SIZE)
  {
    PointerSteps(a);
    forall i | 0 <= i < |ps| && ps[i].bitmap.Some?
      ensures ps[i].bitmap.value != a && BitmapPlaced(ps, ps[i].bitmap.value, a + BITMAP_SIZE)
    {
      assert BitmapPlaced(ps, ps[i].bitmap.value, a);
    }
  }

  // ---------------------------------------------------------------- nothing overlaps

  ghost predicate Apart(a: nat, n: nat, b: nat, m: nat) {
    a + n <= b || b + m <= a
  }

  function Address(i: nat, o: nat): nat {
    i * PARTITION_SIZE + o
  }

  /** Two blocks do not overlap, wherever they are. */
  lemma BlocksApart(ps: seq<Partition>, i: nat, o: nat, j: nat, q: nat)
    requires AllOk(ps) && LargeOk(ps)
    requires i < |ps| && o in ps[i].blocks && j < |ps| && q in ps[j].blocks && (i != j || o != q)
    ensures Apart(Address(i, o), ps[i].blocks[o].size, Address(j, q), ps[j].blocks[q].size)
  {
    if i == j {
      WithinPartition(ps, i, o);
      assert PartitionOk(ps[i]);
    } else if i < j {
      BlockBefore(ps, i, o, j, q);
    } else {
      BlockBefore(ps, j, q, i, o);
    }
  }

  /** A block is in a normal partition, behind the static space, or a large object at the start of its first partition. */
  lemma WithinPartition(ps: seq<Partition>, i: nat, o: nat)
    requires AllOk(ps) && LargeOk(ps) && i < |ps| && o in ps[i].blocks
    ensures !ps[i].free && !ps[i].temporary
    ensures if ps[i].largeContent then Head(ps, i) && SpanOk(ps, i) && o == 0
            else ps[i].staticSize <= o && o + ps[i].blocks[o].size <= PARTITION_SIZE
  {
    assert PartitionOk(ps[i]);
    if ps[i].largeContent {
      assert Owned(ps, i);
      var h: nat :| Covered(ps, h, i);
      assert SpanOk(ps, h);
      assert Piece(ps[i], h, i, ps[h].blocks[0].size, ps[h].markedSize > 0);
    } else {
      assert Normal(ps[i]);
    }
  }

  lemma BlockBefore(ps: seq<Partition>, i: nat, o: nat, j: nat, q: nat)
    requires AllOk(ps) && LargeOk(ps)
    requires i < j < |ps| && o in ps[i].blocks && q in ps[j].blocks
    ensures Address(i, o) + ps[i].blocks[o].size <= Address(j, q)
  {
    hide AllOk, LargeOk, PartitionOk;
    WithinPartition(ps, i, o);
    WithinPartition(ps, j, q);
    if ps[i].largeContent {
      NotInside(ps, i, j);
      SpanBelow(i, ps[i].blocks[o].size, j);
    }
  }

  lemma SpanBelow(i: nat, size: nat, j: nat)
    requires i + Span(size) <= j
    ensures Address(i, 0) + size <= Address(j, 0)
  {
  }

  /** A partition with a block of its own, or one for bitmaps, is no later piece of a large object. */
  lemma NotInside(ps: seq<Partition>, h: nat, j: nat)
    requires AllOk(ps) && Head(ps, h) && SpanOk(ps, h) && h < j < |ps|
    requires ps[j].blocks != map[] || ps[j].temporary
    ensures h + Span(ps[h].blocks[0].size) <= j
  {
    assert PartitionOk(ps[j]);
    var size := ps[h].blocks[0].size;
    assert j < h + Span(size) ==> Piece(ps[j], h, j, size, ps[h].markedSize > 0);
  }

  /** A mark bitmap overlaps no block. */
  lemma BitmapApart(ps: seq<Partition>, pointer: nat, i: nat, j: nat, q: nat)
    requires AllOk(ps) && LargeOk(ps) && BitmapsOk(ps, pointer)
    requires i < |ps| && ps[i].bitmap.Some? && j < |ps| && q in ps[j].blocks
    ensures Apart(ps[i].bitmap.value, BITMAP_SIZE, Address(j, q), ps[j].blocks[q].size)
  {
    var a := ps[i].bitmap.value;
    assert BitmapPlaced(ps, a, pointer);
    BitmapInPartition(a);
    TemporaryApart(ps, a / PARTITION_SIZE, j, q);
  }

  /** No block reaches into a partition that holds bitmaps. */
  lemma TemporaryApart(ps: seq<Partition>, t: nat, j: nat, q: nat)
    requires AllOk(ps) && LargeOk(ps) && t < |ps| && ps[t].temporary && j < |ps| && q in ps[j].blocks
    ensures Apart(Address(t, 0), PARTITION_SIZE, Address(j, q), ps[j].blocks[q].size)
  {
    hide AllOk, LargeOk, PartitionOk;
    WithinPartition(ps, j, q);
    if ps[j].largeContent && j < t {
      NotInside(ps, j, t);
      SpanBelow(j, ps[j].blocks[q].size, t);
    }
  }

  lemma BitmapInPartition(a: nat)
    requires a % BITMAP_SIZE == 0
    ensures var t := a / PARTITION_SIZE; t * PARTITION_SIZE <= a && a + BITMAP_SIZE <= (t + 1) * PARTITION_SIZE
  {
    var k := a / BITMAP_SIZE;
    assert a == BITMAP_SIZE * k;
    assert PARTITION_SIZE == 64 * BITMAP_SIZE;
    var m, r := k / 64, k % 64;
    assert a == PARTITION_SIZE * m + BITMAP_SIZE * r;
  }

  lemma MultiplesApart(a: nat, b: nat)
    requires a % BITMAP_SIZE == 0 && b % BITMAP_SIZE == 0 && a != b
    ensures Apart(a, BITMAP_SIZE, b, BITMAP_SIZE)
  {
    assert BITMAP_SIZE == 1048576;
    MillionsApart(a / 1048576, b / 1048576);
  }

  lemma MillionsApart(k: nat, m: nat)
    requires k != m
    ensures Apart(1048576 * k, 1048576, 1048576 * m, 1048576)
  {
  }

  /** Two partitions do not share bitmap memory. */
  lemma BitmapsApart(ps: seq<Partition>, pointer: nat, i: nat, j: nat)
    requires BitmapsOk(ps, pointer) && i < |ps| && j < |ps| && i != j && ps[i].bitmap.Some? && ps[j].bitmap.Some?
    ensures Apart(ps[i].bitmap.value, BITMAP_SIZE, ps[j].bitmap.value, BITMAP_SIZE)
  {
    var a, b := ps[i].bitmap.value, ps[j].bitmap.value;
    assert BitmapPlaced(ps, a, pointer) && BitmapPlaced(ps, b, pointer);
    assert a != b;
    MultiplesApart(a, b);
  }

  // ---------------------------------------------------------------- the records together

  ghost predicate Shape(ps: seq<Partition>, allocation: nat, pointer: nat, free: nat) {
    && AllOk(ps) && LargeOk(ps) && BitmapsOk(ps, pointer)
    && free == Sum(ps, FreeOne)
    && allocation < |ps| && Normal(ps[allocation]) && !ps[allocation].evacuate
  }

  /** In use for objects: neither free, nor for bitmaps, nor full of static space. */
  ghost predicate HoldsObjects(p: Partition) {
    !p.free && !p.temporary && p.staticSize != PARTITION_SIZE
  }

  /** Bitmaps, marks and flags are there during a collection, and only then. */
  ghost predicate PhaseRight(ps: seq<Partition>, running: bool, evacuating: bool, pointer: nat) {
    && (running ==> forall i :: 0 <= i < |ps| && HoldsObjects(ps[i]) && !ps[i].largeContent ==> ps[i].bitmap.Some?)
    && (!running ==> pointer == 0 && !evacuating && forall i :: 0 <= i < |ps| ==> Idle(ps[i]))
    && (!evacuating ==> forall i :: 0 <= i < |ps| ==> !ps[i].evacuate)
  }

  predicate Idle(p: Partition) {
    !p.temporary && p.bitmap.None? && p.markedSize == 0 && !p.update
  }

  /** The four sums over the partitions. */
  datatype Sums = Sums(free: nat, staticSize: nat, dynamic: nat, copied: nat)

  ghost function SumsOf(ps: seq<Partition>): Sums {
    Sums(Sum(ps, FreeOne), Sum(ps, StaticOf), Sum(ps, DynamicOf), Sum(ps, CopiedOf))
  }

  /** What a change of one partition does to the sums. */
  lemma SumsChanged(ps: seq<Partition>, i: nat, p: Partition)
    requires i < |ps|
    ensures var s, t := SumsOf(ps), SumsOf(ps[i := p]);
      && t.free + FreeOne(ps[i]) == s.free + FreeOne(p)
      && t.staticSize + ps[i].staticSize == s.staticSize + p.staticSize
      && t.dynamic + ps[i].dynamicSize == s.dynamic + p.dynamicSize
      && t.copied + CopiedOf(ps[i]) == s.copied + CopiedOf(p)
  {
    SumUpdate(ps, i, p, FreeOne);
    SumUpdate(ps, i, p, StaticOf);
    SumUpdate(ps, i, p, DynamicOf);
    SumUpdate(ps, i, p, CopiedOf);
  }

  /** A change of one partition that leaves large content and the bitmap alone. */
  lemma OneChanged(ps: seq<Partition>, i: nat, p: Partition, pointer: nat)
    requires AllOk(ps) && LargeOk(ps) && BitmapsOk(ps, pointer) && i < |ps|
    requires PartitionOk(p) && SameLarge(ps[i], p) && p.bitmap == ps[i].bitmap && (ps[i].temporary ==> p.temporary)
    ensures var qs := ps[i := p]; AllOk(qs) && LargeOk(qs) && BitmapsOk(qs, pointer)
    ensures forall a :: NewBitmap(ps, a, pointer) ==> NewBitmap(ps[i := p], a, pointer)
  {
    var qs := ps[i := p];
    forall j | 0 <= j < |ps|
      ensures PartitionOk(qs[j]) && SameLarge(ps[j], qs[j])
    {
      assert PartitionOk(ps[j]);
    }
    LargeKept(ps, qs);
    BitmapsKept(ps, qs, pointer);
  }

  lemma TableAdded(ps: seq<Partition>, pointer: nat)
    requires AllOk(ps) && LargeOk(ps) && BitmapsOk(ps, pointer)
    ensures var qs := ps + NewTable(); AllOk(qs) && LargeOk(qs) && BitmapsOk(qs, pointer)
    ensures var s, t := SumsOf(ps), SumsOf(ps + NewTable());
      && t.free == s.free + PARTITIONS_PER_TABLE && t.staticSize == s.staticSize + PARTITION_TABLE_SIZE
      && t.dynamic == s.dynamic && t.copied == s.copied
    ensures forall a :: NewBitmap(ps, a, pointer) ==> NewBitmap(ps + NewTable(), a, pointer)
  {
    var qs := ps + NewTable();
    forall j | 0 <= j < |qs|
      ensures PartitionOk(qs[j])
    {
      assert j < |ps| ==> qs[j] == ps[j] && PartitionOk(ps[j]);
      assert j >= |ps| ==> qs[j] == NewTable()[j - |ps|];
    }
    LargeKept(ps, qs);
    BitmapsKept(ps, qs, pointer);
    TableSums();
    SumAppend(ps, NewTable(), FreeOne);
    SumAppend(ps, NewTable(), StaticOf);
    SumAppend(ps, NewTable(), DynamicOf);
    SumAppend(ps, NewTable(), CopiedOf);
  }

  lemma TableSums()
    ensures SumsOf(NewTable()) == Sums(PARTITIONS_PER_TABLE, PARTITION_TABLE_SIZE, 0, 0)
  {
    var t := NewTable();
    forall k | 0 <= k < |t|
      ensures CopiedOf(t[k]) == 0
    {
      assert Forwarded(map[]) == {};
    }
    SumConstant(t, FreeOne, 1);
    SumConstant(t, DynamicOf, 0);
    SumConstant(t, CopiedOf, 0);
    SumUpdate(t, 0, Unused(0), StaticOf);
    SumConstant(t[0 := Unused(0)], StaticOf, 0);
  }

  /** Static space stays, and new partitions start with some, for the table. */
  predicate SameStatic(ps: seq<Partition>, qs: seq<Partition>) {
    && |ps| <= |qs|
    && (forall i :: 0 <= i < |ps| ==> qs[i].staticSize == ps[i].staticSize)
    && (|ps| < |qs| ==> qs[|ps|].staticSize > 0)
  }

  /** Not in use, or only for bitmaps. */
  predicate Vacant(p: Partition) {
    Empty(p) && !p.update && (p.free || p.temporary)
  }

  /** The partitions in use are untouched, the others are still vacant, except for one, and the sizes
    * differ by static space that is accounted for. */
  ghost predicate Grown(ps: seq<Partition>, size: nat, qs: seq<Partition>, size': nat, except: nat) {
    && |ps| <= |qs|
    && (forall i :: 0 <= i < |ps| && !ps[i].free ==> qs[i] == ps[i])
    && (forall i :: 0 <= i < |qs| && i != except && (i < |ps| ==> ps[i].free) ==> Vacant(qs[i]))
    && SameStatic(ps, qs)
    && SumsOf(qs).dynamic == SumsOf(ps).dynamic && SumsOf(qs).copied == SumsOf(ps).copied
    && SumsOf(qs).staticSize + size == SumsOf(ps).staticSize + size'
  }

  // ---------------------------------------------------------------- looking for partitions

  datatype Search = FreeSpace(bytes: nat) | Temporary | Contiguous(number: nat)

  /** Nothing is in the partition, neither objects nor static space. */
  ghost predicate Unoccupied(p: Partition) {
    p.free && p.staticSize == 0 && p.dynamicSize == 0
  }

  ghost predicate Suits(ps: seq<Partition>, search: Search, i: nat) {
    match search
    case FreeSpace(bytes) => i < |ps| && ps[i].free && ps[i].staticSize + ps[i].dynamicSize + bytes <= PARTITION_SIZE
    case Temporary => i < |ps| && Unoccupied(ps[i])
    case Contiguous(n) => i + n <= |ps| && forall j :: i <= j < i + n ==> Unoccupied(ps[j])
  }

  ghost predicate SuitedFirst(ps: seq<Partition>, search: Search, r: Option<nat>) {
    match r
    case Some(i) => Suits(ps, search, i) && forall j: nat :: j < i ==> !Suits(ps, search, j)
    case None => forall j: nat :: j <= |ps| ==> !Suits(ps, search, j)
  }

  /** A new table suits, unless the request is for more partitions than it has free of static space. */
  lemma NewTableSuits(ps: seq<Partition>, search: Search)
    requires search.FreeSpace? ==> search.bytes <= PARTITION_SIZE
    requires search.Contiguous? ==> search.number < PARTITIONS_PER_TABLE
    ensures Suits(ps + NewTable(), search, |ps| + 1)
  {
    var qs := ps + NewTable();
    assert forall j :: |ps| <= j < |qs| ==> qs[j] == NewTable()[j - |ps|];
  }
}
