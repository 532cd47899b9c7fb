/** Changes to all partitions at the start and the end of a collection. */
module GcCollection {
  import opened GcPartitions

  // ---------------------------------------------------------------- the first table

  /** The first partition table: static space up to the heap base, which the allocation continues. */
  function InitialTable(heapBase: nat): (ps: seq<Partition>)
    ensures |ps| == PARTITIONS_PER_TABLE
    ensures forall k :: 0 <= k < |ps| ==> ps[k] == InitialPartition(heapBase, k)
  {
    seq(PARTITIONS_PER_TABLE, k requires 0 <= k => InitialPartition(heapBase, k))
  }

  function InitialPartition(heapBase: nat, k: nat): Partition {
    var p := Unused(if k < heapBase / PARTITION_SIZE then PARTITION_SIZE
                    else if k == heapBase / PARTITION_SIZE then heapBase % PARTITION_SIZE else 0);
    p.(free := k > heapBase / PARTITION_SIZE)
  }

  lemma {:induction false} InitialPrefix(heapBase: nat, n: nat)
    requires n <= PARTITIONS_PER_TABLE
    ensures Sum(InitialTable(heapBase)[..n], StaticOf) == if n <= heapBase / PARTITION_SIZE then n * PARTITION_SIZE else heapBase
    ensures Sum(InitialTable(heapBase)[..n], FreeOne) == if n <= heapBase / PARTITION_SIZE then 0 else n - heapBase / PARTITION_SIZE - 1
  {
    if n > 0 {
      InitialPrefix(heapBase, n - 1);
      assert InitialTable(heapBase)[..n][..n - 1] == InitialTable(heapBase)[..n - 1];
    }
  }

  lemma InitialShape(heapBase: nat)
    requires heapBase / PARTITION_SIZE < PARTITIONS_PER_TABLE
    ensures var ps := InitialTable(heapBase); var allocation := heapBase / PARTITION_SIZE;
      && Shape(ps, allocation, 0, PARTITIONS_PER_TABLE - allocation - 1) && PhaseRight(ps, false, false, 0)
      && SumsOf(ps).staticSize == heapBase && SumsOf(ps).dynamic == 0 && SumsOf(ps).copied == 0
      && ps[allocation].dynamicSize == 0
  {
    var ps := InitialTable(heapBase);
    InitialPrefix(heapBase, |ps|);
    assert ps[..|ps|] == ps;
    assert Forwarded(map[]) == {};
    forall k | 0 <= k < |ps|
      ensures PartitionOk(ps[k]) && CopiedOf(ps[k]) == 0 && !ps[k].largeContent && Idle(ps[k]) && !ps[k].evacuate
    {
      assert ps[k] == InitialPartition(heapBase, k);
    }
    SumConstant(ps, DynamicOf, 0);
    SumConstant(ps, CopiedOf, 0);
  }

  // ---------------------------------------------------------------- completion

  /** A partition after the collection: freed, or without marks. */
  function Completed(p: Partition): Partition {
    var q := p.(update := false, markedSize := 0, bitmap := None, marks := {});
    if p.evacuate || p.temporary then Freed(q) else q
  }

  function CompletedUpTo(ps: seq<Partition>, to: nat): (qs: seq<Partition>)
    ensures |qs| == |ps|
    ensures forall j :: 0 <= j < |ps| ==> qs[j] == if j < to then Completed(ps[j]) else ps[j]
  {
    seq(|ps|, j requires 0 <= j < |ps| => if j < to then Completed(ps[j]) else ps[j])
  }

  /** Every marked block of the partition has been copied. */
  predicate AllCopied(p: Partition) {
    p.evacuate ==> forall o :: o in p.marks ==> o in p.blocks && p.blocks[o].forwarded
  }

  lemma CompletedOk(p: Partition)
    requires PartitionOk(p) && (p.free ==> !p.evacuate && !p.temporary)
    ensures PartitionOk(Completed(p)) && CopiedOf(Completed(p)) == 0
    ensures p.evacuate && AllCopied(p) ==> CopiedOf(p) == p.markedSize
    ensures !p.evacuate ==> CopiedOf(p) == 0
  {
    assert Forwarded(map[]) == {};
    if p.evacuate {
      if AllCopied(p) {
        assert Forwarded(p.blocks) == p.marks;
      }
    } else {
      assert Forwarded(p.blocks) == {};
    }
  }

  lemma CompletedMore(ps: seq<Partition>, i: nat)
    requires i < |ps| && PartitionOk(ps[i]) && AllCopied(ps[i])
    ensures var qs, rs := CompletedUpTo(ps, i), CompletedUpTo(ps, i + 1);
      var frees := ps[i].evacuate || ps[i].temporary;
      && qs[i] == ps[i] && rs == qs[i := Completed(ps[i])]
      && SumsOf(rs).staticSize == SumsOf(qs).staticSize
      && SumsOf(rs).free == SumsOf(qs).free + (if frees then 1 else 0)
      && SumsOf(rs).dynamic + (if frees then ps[i].dynamicSize else 0) == SumsOf(qs).dynamic
      && SumsOf(rs).copied + (if ps[i].evacuate then ps[i].markedSize else 0) == SumsOf(qs).copied
  {
    hide Forwarded, Tiled, MarksRight, CopiedOf, AllCopied;
    var qs := CompletedUpTo(ps, i);
    assert CompletedUpTo(ps, i + 1) == qs[i := Completed(ps[i])];
    SumsChanged(qs, i, Completed(ps[i]));
    CompletedOk(ps[i]);
  }

  lemma CompletedNone(ps: seq<Partition>)
    ensures CompletedUpTo(ps, 0) == ps
  {
  }

  /** After the collection, the records are in order and nothing of it is left. */
  lemma CompletedShape(ps: seq<Partition>, allocation: nat, pointer: nat, free: nat)
    requires Shape(ps, allocation, pointer, free)
    ensures var qs := CompletedUpTo(ps, |ps|);
      && AllOk(qs) && LargeOk(qs) && BitmapsOk(qs, 0) && SumsOf(qs).copied == 0
      && PhaseRight(qs, false, false, 0) && Normal(qs[allocation]) && !qs[allocation].evacuate
      && qs[allocation].dynamicSize == ps[allocation].dynamicSize
  {
    hide PartitionOk, LargeOk, CopiedOf;
    var qs := CompletedUpTo(ps, |ps|);
    forall i | 0 <= i < |qs|
      ensures PartitionOk(qs[i]) && CopiedOf(qs[i]) == 0
    {
      assert PartitionOk(ps[i]);
      FreeUnflagged(ps[i]);
      CompletedOk(ps[i]);
    }
    SumConstant(qs, CopiedOf, 0);
    UnmarkedLarge(ps, qs);
  }

  lemma FreeUnflagged(p: Partition)
    requires PartitionOk(p)
    ensures p.free ==> !p.evacuate && !p.temporary
  {
  }

  lemma UnmarkedLarge(ps: seq<Partition>, qs: seq<Partition>)
    requires AllOk(ps) && LargeOk(ps) && qs == CompletedUpTo(ps, |ps|)
    ensures LargeOk(qs)
  {
    hide PartitionOk;
    forall i | 0 <= i < |ps|
      ensures qs[i].largeContent == ps[i].largeContent
      ensures ps[i].largeContent ==> qs[i] == ps[i].(update := false, markedSize := 0, bitmap := None, marks := {})
    {
      LargeUnflagged(ps, i);
    }
    forall h: nat | Head(qs, h)
      ensures SpanOk(qs, h)
    {
      assert Head(ps, h) && SpanOk(ps, h);
      forall i | h <= i < h + Span(qs[h].blocks[0].size)
        ensures Piece(qs[i], h, i, qs[h].blocks[0].size, false)
      {
        assert Piece(ps[i], h, i, ps[h].blocks[0].size, ps[h].markedSize > 0);
      }
    }
    forall i: nat | i < |qs|
      ensures Owned(qs, i)
    {
      assert Owned(ps, i);
      if qs[i].largeContent {
        var h: nat :| Covered(ps, h, i);
        assert Covered(qs, h, i);
      }
    }
  }

  lemma LargeUnflagged(ps: seq<Partition>, i: nat)
    requires AllOk(ps) && i < |ps|
    ensures ps[i].largeContent ==> !ps[i].evacuate && !ps[i].temporary
  {
    assert PartitionOk(ps[i]);
  }

  // ---------------------------------------------------------------- flags

  /** Only the flags for evacuation and update differ. */
  predicate SameButFlags(p: Partition, q: Partition) {
    q == p.(evacuate := q.evacuate, update := q.update)
  }

  lemma FlagsShape(ps: seq<Partition>, qs: seq<Partition>, allocation: nat, pointer: nat, free: nat)
    requires Shape(ps, allocation, pointer, free) && |qs| == |ps|
    requires forall i :: 0 <= i < |ps| ==> SameButFlags(ps[i], qs[i]) && FlagsFit(ps[i], qs[i])
    requires !qs[allocation].evacuate
    ensures Shape(qs, allocation, pointer, free) && SumsOf(qs) == SumsOf(ps)
  {
    hide PartitionOk, LargeOk, BitmapsOk;
    forall i | 0 <= i < |ps|
      ensures PartitionOk(qs[i]) && SameLarge(ps[i], qs[i]) && CopiedOf(qs[i]) == CopiedOf(ps[i])
    {
      assert PartitionOk(ps[i]) && SameButFlags(ps[i], qs[i]);
      FlagsOk(ps[i], qs[i]);
    }
    LargeKept(ps, qs);
    BitmapsKept(ps, qs, pointer);
    SumEqual(qs, ps, FreeOne);
    SumEqual(qs, ps, StaticOf);
    SumEqual(qs, ps, DynamicOf);
    SumEqual(qs, ps, CopiedOf);
  }

  /** Only a normal partition may be evacuated, and a free one is not updated. */
  predicate FlagsFit(p: Partition, q: Partition) {
    && (q.evacuate ==> Normal(p)) && (p.evacuate ==> q.evacuate) && (q.update ==> !p.free)
  }

  lemma FlagsOk(p: Partition, q: Partition)
    requires PartitionOk(p) && SameButFlags(p, q) && FlagsFit(p, q)
    ensures PartitionOk(q) && CopiedOf(q) == CopiedOf(p)
  {
    assert q.blocks == p.blocks;
  }
}
