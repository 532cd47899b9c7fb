/** Large objects in a sequence of partitions. */
module GcLarge {
  import opened GcPartitions

  // ---------------------------------------------------------------- allocation

  /** Partition `i` of a large object that starts in `first`. */
  function LargePiece(p: Partition, first: nat, i: nat, size: nat): Partition {
    p.(free := false, largeContent := true,
       dynamicSize := if i == first + Span(size) - 1 then size - (Span(size) - 1) * PARTITION_SIZE else PARTITION_SIZE,
       blocks := if i == first then map[0 := Block(size, false)] else map[])
  }

  /** The partitions from `first` up to `to` are pieces of a large object. */
  function Filled(ps: seq<Partition>, first: nat, to: nat, size: nat): (qs: seq<Partition>)
    ensures |qs| == |ps|
    ensures forall j :: 0 <= j < |ps| ==> qs[j] == if first <= j < to then LargePiece(ps[j], first, j, size) else ps[j]
  {
    seq(|ps|, j requires 0 <= j < |ps| => if first <= j < to then LargePiece(ps[j], first, j, size) else ps[j])
  }

  /** Bytes in the first pieces. */
  function Taken(n: nat, size: nat): nat {
    if n < Span(size) then n * PARTITION_SIZE else size
  }

  lemma FilledMore(ps: seq<Partition>, first: nat, i: nat, size: nat)
    requires first <= i < first + Span(size) && i < |ps| && ps[i].IsCompletelyFree() && PartitionOk(ps[i])
    ensures var qs := Filled(ps, first, i, size); var rs := Filled(ps, first, i + 1, size);
      && qs[i] == ps[i] && rs == qs[i := LargePiece(ps[i], first, i, size)]
      && SumsOf(rs).free + 1 == SumsOf(qs).free && SumsOf(rs).staticSize == SumsOf(qs).staticSize
      && SumsOf(rs).copied == SumsOf(qs).copied
      && SumsOf(rs).dynamic == SumsOf(qs).dynamic + LargePiece(ps[i], first, i, size).dynamicSize
      && Taken(i + 1 - first, size) == Taken(i - first, size) + LargePiece(ps[i], first, i, size).dynamicSize
  {
    var qs := Filled(ps, first, i, size);
    var p := LargePiece(ps[i], first, i, size);
    assert Filled(ps, first, i + 1, size) == qs[i := p];
    SumsChanged(qs, i, p);
    assert Forwarded(p.blocks) == {} && Forwarded(ps[i].blocks) == {};
  }

  lemma {:induction false} FilledSums(ps: seq<Partition>, first: nat, to: nat, size: nat)
    requires AllOk(ps) && first <= to <= first + Span(size) && to <= |ps|
    requires forall j :: first <= j < to ==> ps[j].IsCompletelyFree()
    ensures var s, t := SumsOf(ps), SumsOf(Filled(ps, first, to, size));
      && t.free + (to - first) == s.free && t.staticSize == s.staticSize && t.copied == s.copied
      && (size > 0 ==> t.dynamic == s.dynamic + Taken(to - first, size))
  {
    hide SumsOf, PartitionOk, LargePiece;
    if to == first {
      FilledNone(ps, first, size);
    } else {
      FilledSums(ps, first, to - 1, size);
      assert PartitionOk(ps[to - 1]);
      FilledMore(ps, first, to - 1, size);
    }
  }

  lemma FilledState(ps: seq<Partition>, allocation: nat, pointer: nat, free: nat, running: bool, evacuating: bool, first: nat, size: nat)
    requires Shape(ps, allocation, pointer, free) && PhaseRight(ps, running, evacuating, pointer)
    requires size > PARTITION_SIZE && Suits(ps, Contiguous(Span(size)), first)
    ensures free >= Span(size)
    ensures var qs := Filled(ps, first, first + Span(size), size);
      && Shape(qs, allocation, pointer, free - Span(size)) && PhaseRight(qs, running, evacuating, pointer)
      && SumsOf(qs).dynamic == SumsOf(ps).dynamic + size && SumsOf(qs).staticSize == SumsOf(ps).staticSize
      && SumsOf(qs).copied == SumsOf(ps).copied
      && qs[allocation] == ps[allocation] && Head(qs, first)
  {
    hide AllOk, LargeOk, BitmapsOk, PhaseRight, Span, LargePiece;
    var qs := Filled(ps, first, first + Span(size), size);
    assert Suits(ps, Contiguous(Span(size)), first);
    FilledSums(ps, first, first + Span(size), size);
    FilledOk(ps, first, size);
    FilledLargeOk(ps, first, size);
    FilledRest(ps, pointer, running, evacuating, first, size);
    assert qs[allocation] == ps[allocation];
  }

  lemma FilledRest(ps: seq<Partition>, pointer: nat, running: bool, evacuating: bool, first: nat, size: nat)
    requires AllOk(ps) && BitmapsOk(ps, pointer) && PhaseRight(ps, running, evacuating, pointer)
    requires size > PARTITION_SIZE && Suits(ps, Contiguous(Span(size)), first)
    ensures var qs := Filled(ps, first, first + Span(size), size);
      BitmapsOk(qs, pointer) && PhaseRight(qs, running, evacuating, pointer) && Head(qs, first)
  {
    hide Span, BitmapsOk;
    var qs := Filled(ps, first, first + Span(size), size);
    forall i | 0 <= i < |ps| && first <= i < first + Span(size)
      ensures ps[i].free && ps[i].bitmap.None? && !ps[i].temporary && !ps[i].evacuate && ps[i].markedSize == 0 && !ps[i].update
    {
      assert PartitionOk(ps[i]);
    }
    BitmapsKept(ps, qs, pointer);
    assert qs[first] == LargePiece(ps[first], first, first, size);
  }

  lemma FilledNone(ps: seq<Partition>, first: nat, size: nat)
    ensures Filled(ps, first, first, size) == ps && Taken(0, size) == if size == 0 then size else 0
  {
  }

  lemma PieceOk(ps: seq<Partition>, first: nat, i: nat, size: nat)
    requires first <= i < first + Span(size) && size > PARTITION_SIZE
    requires i < |ps| && ps[i].IsCompletelyFree() && PartitionOk(ps[i])
    ensures var p := LargePiece(ps[i], first, i, size);
      PartitionOk(p) && Piece(p, first, i, size, false) && p.markedSize == 0 && !p.update
  {
    assert Forwarded(LargePiece(ps[i], first, i, size).blocks) == {};
  }

  lemma FilledOk(ps: seq<Partition>, first: nat, size: nat)
    requires AllOk(ps) && size > PARTITION_SIZE && Suits(ps, Contiguous(Span(size)), first)
    ensures AllOk(Filled(ps, first, first + Span(size), size))
  {
    hide PartitionOk;
    var qs := Filled(ps, first, first + Span(size), size);
    forall i | 0 <= i < |qs|
      ensures PartitionOk(qs[i])
    {
      assert PartitionOk(ps[i]);
      if first <= i < first + Span(size) {
        PieceOk(ps, first, i, size);
      }
    }
  }

  /** The new large object is in order, and the others still are. */
  lemma FilledLargeOk(ps: seq<Partition>, first: nat, size: nat)
    requires AllOk(ps) && LargeOk(ps) && size > PARTITION_SIZE && Suits(ps, Contiguous(Span(size)), first)
    ensures LargeOk(Filled(ps, first, first + Span(size), size))
  {
    hide PartitionOk, Piece;
    var qs := Filled(ps, first, first + Span(size), size);
    forall i | first <= i < first + Span(size)
      ensures Piece(qs[i], first, i, size, false)
    {
      assert PartitionOk(ps[i]);
      PieceOk(ps, first, i, size);
    }
    assert PartitionOk(ps[first]);
    PieceOk(ps, first, first, size);
    assert Head(qs, first) && SpanOk(qs, first);
    forall h: nat | Head(qs, h)
      ensures SpanOk(qs, h)
    {
      if h != first {
        assert Head(ps, h) && SpanOk(ps, h);
        OldSpan(ps, qs, h, first, size);
      }
    }
    forall i: nat | i < |qs|
      ensures Owned(qs, i)
    {
      assert Owned(ps, i);
      if first <= i < first + Span(size) {
        assert Covered(qs, first, i);
      } else if qs[i].largeContent {
        var h: nat :| Covered(ps, h, i);
        FreeNotLarge(ps, h);
        assert Covered(qs, h, i);
      }
    }
  }

  lemma FreeNotLarge(ps: seq<Partition>, i: nat)
    requires AllOk(ps) && i < |ps|
    ensures ps[i].free ==> !ps[i].largeContent
  {
    assert PartitionOk(ps[i]);
  }

  lemma OldSpan(ps: seq<Partition>, qs: seq<Partition>, h: nat, first: nat, size: nat)
    requires AllOk(ps) && Suits(ps, Contiguous(Span(size)), first) && Head(ps, h) && SpanOk(ps, h)
    requires qs == Filled(ps, first, first + Span(size), size)
    ensures Head(qs, h) && SpanOk(qs, h)
  {
    hide PartitionOk;
    FreeNotLarge(ps, h);
    forall i | h <= i < h + Span(ps[h].blocks[0].size)
      ensures qs[i] == ps[i]
    {
      assert Piece(ps[i], h, i, ps[h].blocks[0].size, ps[h].markedSize > 0);
      FreeNotLarge(ps, i);
    }
  }

  // ---------------------------------------------------------------- deallocation

  /** The partitions from `first` up to `to` are freed. */
  function Emptied(ps: seq<Partition>, first: nat, to: nat): (qs: seq<Partition>)
    ensures |qs| == |ps|
    ensures forall j :: 0 <= j < |ps| ==> qs[j] == if first <= j < to then Freed(ps[j].(update := false)) else ps[j]
  {
    seq(|ps|, j requires 0 <= j < |ps| => if first <= j < to then Freed(ps[j].(update := false)) else ps[j])
  }

  lemma EmptiedMore(ps: seq<Partition>, first: nat, i: nat)
    requires first <= i < |ps| && ps[i].largeContent && PartitionOk(ps[i])
    ensures var qs := Emptied(ps, first, i); var rs := Emptied(ps, first, i + 1);
      && qs[i] == ps[i] && rs == qs[i := Freed(ps[i].(update := false))]
      && SumsOf(rs).free == SumsOf(qs).free + 1 && SumsOf(rs).staticSize == SumsOf(qs).staticSize
      && SumsOf(rs).copied == SumsOf(qs).copied
      && SumsOf(rs).dynamic + ps[i].dynamicSize == SumsOf(qs).dynamic
  {
    var qs := Emptied(ps, first, i);
    var p := Freed(ps[i].(update := false));
    assert Emptied(ps, first, i + 1) == qs[i := p];
    SumsChanged(qs, i, p);
    assert Forwarded(p.blocks) == {} && Forwarded(ps[i].blocks) == {};
  }

  /** Without an unmarked large object, the others are still in order. */
  lemma EmptiedOk(ps: seq<Partition>, first: nat)
    requires AllOk(ps) && LargeOk(ps) && Head(ps, first) && ps[first].markedSize == 0
    ensures var qs := Emptied(ps, first, first + Span(ps[first].blocks[0].size)); AllOk(qs) && LargeOk(qs)
  {
    hide PartitionOk;
    var size := ps[first].blocks[0].size;
    var to := first + Span(size);
    var qs := Emptied(ps, first, to);
    assert SpanOk(ps, first);
    forall i | 0 <= i < |qs|
      ensures PartitionOk(qs[i]) && (first <= i < to ==> qs[i].free)
    {
      assert PartitionOk(ps[i]);
      if first <= i < to {
        assert Piece(ps[i], first, i, size, false);
        EmptiedPiece(ps[i]);
      }
    }
    forall h: nat | Head(qs, h)
      ensures SpanOk(qs, h)
    {
      assert Head(ps, h) && SpanOk(ps, h);
      SpanOutside(ps, h, first);
      forall i | h <= i < h + Span(qs[h].blocks[0].size)
        ensures Piece(qs[i], h, i, qs[h].blocks[0].size, qs[h].markedSize > 0)
      {
        assert Piece(ps[i], h, i, ps[h].blocks[0].size, ps[h].markedSize > 0);
      }
    }
    forall i: nat | i < |qs|
      ensures Owned(qs, i)
    {
      assert Owned(ps, i);
      if qs[i].largeContent {
        var h: nat :| Covered(ps, h, i);
        assert SpanOk(ps, h);
        if h != first {
          SpanOutside(ps, h, first);
        }
        assert Covered(qs, h, i);
      }
    }
  }

  lemma EmptiedNone(ps: seq<Partition>, first: nat)
    ensures Emptied(ps, first, first) == ps
  {
  }

  lemma {:induction false} EmptiedSums(ps: seq<Partition>, first: nat, to: nat)
    requires AllOk(ps) && first <= to <= |ps|
    requires forall j :: first <= j < to ==> ps[j].largeContent
    ensures var s, t := SumsOf(ps), SumsOf(Emptied(ps, first, to));
      t.free == s.free + (to - first) && t.staticSize == s.staticSize && t.copied == s.copied
  {
    hide SumsOf, PartitionOk;
    if to == first {
      EmptiedNone(ps, first);
    } else {
      EmptiedSums(ps, first, to - 1);
      assert PartitionOk(ps[to - 1]);
      EmptiedMore(ps, first, to - 1);
    }
  }

  /** The partitions of a large object are no others. */
  lemma PieceAt(ps: seq<Partition>, allocation: nat, pointer: nat, free: nat, first: nat, i: nat)
    requires Shape(ps, allocation, pointer, free) && Head(ps, first) && first <= i < first + Span(ps[first].blocks[0].size)
    ensures first + Span(ps[first].blocks[0].size) <= |ps| && i != allocation && ps[i].largeContent && PartitionOk(ps[i])
  {
    hide BitmapsOk, PartitionOk, Span;
    assert SpanOk(ps, first);
    assert Piece(ps[i], first, i, ps[first].blocks[0].size, ps[first].markedSize > 0);
  }

  lemma EmptiedState(ps: seq<Partition>, allocation: nat, pointer: nat, free: nat, running: bool, evacuating: bool, first: nat)
    requires Shape(ps, allocation, pointer, free) && PhaseRight(ps, running, evacuating, pointer)
    requires Head(ps, first) && ps[first].markedSize == 0
    ensures var n := Span(ps[first].blocks[0].size); var qs := Emptied(ps, first, first + n);
      && Shape(qs, allocation, pointer, free + n) && PhaseRight(qs, running, evacuating, pointer)
      && qs[allocation] == ps[allocation]
  {
    hide LargeOk, BitmapsOk, PartitionOk, Span;
    var n := Span(ps[first].blocks[0].size);
    var qs := Emptied(ps, first, first + n);
    forall i | first <= i < first + n
      ensures first + n <= |ps| && i != allocation && ps[i].largeContent && PartitionOk(ps[i])
    {
      PieceAt(ps, allocation, pointer, free, first, i);
    }
    EmptiedOk(ps, first);
    EmptiedSums(ps, first, first + n);
    EmptiedFlags(ps, pointer, running, evacuating, first, first + n);
  }

  lemma EmptiedFlags(ps: seq<Partition>, pointer: nat, running: bool, evacuating: bool, first: nat, to: nat)
    requires AllOk(ps) && BitmapsOk(ps, pointer) && PhaseRight(ps, running, evacuating, pointer) && to <= |ps|
    requires forall i :: first <= i < to ==> ps[i].largeContent
    ensures var qs := Emptied(ps, first, to); BitmapsOk(qs, pointer) && PhaseRight(qs, running, evacuating, pointer)
  {
    var qs := Emptied(ps, first, to);
    forall i | 0 <= i < |ps|
      ensures ps[i].temporary ==> qs[i].temporary
    {
      assert PartitionOk(ps[i]);
    }
    BitmapsKept(ps, qs, pointer);
  }

  lemma EmptiedPiece(p: Partition)
    requires PartitionOk(p) && p.largeContent && p.markedSize == 0
    ensures PartitionOk(Freed(p.(update := false)))
  {
  }

  /** The spans of two large objects are apart. */
  lemma SpanOutside(ps: seq<Partition>, h: nat, g: nat)
    requires Head(ps, h) && Head(ps, g) && h != g && SpanOk(ps, h) && SpanOk(ps, g)
    ensures h + Span(ps[h].blocks[0].size) <= g || g + Span(ps[g].blocks[0].size) <= h
  {
  }

  /** No partition belongs to two large objects. */
  lemma CoverUnique(ps: seq<Partition>, h: nat, g: nat, i: nat)
    requires LargeOk(ps) && Covered(ps, h, i) && Covered(ps, g, i)
    ensures h == g
  {
    assert SpanOk(ps, h) && SpanOk(ps, g);
    if h != g {
      SpanOutside(ps, h, g);
    }
  }

  /** Partition `i` belongs to an unmarked large object. */
  ghost predicate Dead(ps: seq<Partition>, i: nat) {
    exists h: nat :: Covered(ps, h, i) && ps[h].markedSize == 0
  }

  /** The unmarked large objects before partition `to` are freed, and nothing else has changed. */
  ghost predicate DeadFreed(ps: seq<Partition>, qs: seq<Partition>, to: nat) {
    && |qs| == |ps|
    && forall i: nat :: i < |ps| ==> qs[i] == if i < to && Dead(ps, i) then Freed(ps[i].(update := false)) else ps[i]
  }

  /** No large object reaches over the boundary before partition `i`. */
  ghost predicate Bounded(ps: seq<Partition>, i: nat) {
    forall h: nat :: Head(ps, h) && h < i ==> h + Span(ps[h].blocks[0].size) <= i
  }

  lemma CoveredLarge(ps: seq<Partition>, h: nat, i: nat)
    requires LargeOk(ps) && Covered(ps, h, i)
    ensures i < |ps| && ps[i].largeContent
  {
    assert SpanOk(ps, h);
    assert Piece(ps[i], h, i, ps[h].blocks[0].size, ps[h].markedSize > 0);
  }

  lemma DeadLarge(ps: seq<Partition>, i: nat)
    requires LargeOk(ps) && i < |ps|
    ensures Dead(ps, i) ==> ps[i].largeContent
  {
    if Dead(ps, i) {
      var h: nat :| Covered(ps, h, i) && ps[h].markedSize == 0;
      CoveredLarge(ps, h, i);
    }
  }

  lemma BoundaryHead(ps: seq<Partition>, i: nat)
    requires AllOk(ps) && LargeOk(ps) && Bounded(ps, i) && i < |ps|
    ensures ps[i].largeContent ==> Head(ps, i) && SpanOk(ps, i) && Bounded(ps, i + Span(ps[i].blocks[0].size))
    ensures !ps[i].largeContent ==> Bounded(ps, i + 1) && !Dead(ps, i)
  {
    hide PartitionOk, Span;
    assert Owned(ps, i);
    if ps[i].largeContent {
      var h: nat :| Covered(ps, h, i);
      assert h == i && SpanOk(ps, i);
      var size := ps[i].blocks[0].size;
      forall g: nat | Head(ps, g) && g < i + Span(size)
        ensures g + Span(ps[g].blocks[0].size) <= i + Span(size)
      {
        assert SpanOk(ps, g);
        if g != i {
          SpanOutside(ps, g, i);
        }
      }
    } else {
      DeadLarge(ps, i);
    }
  }

  lemma DeadStep(ps: seq<Partition>, qs: seq<Partition>, i: nat)
    requires AllOk(ps) && LargeOk(ps) && Bounded(ps, i) && i < |ps| && DeadFreed(ps, qs, i)
    ensures qs[i] == ps[i]
    ensures !ps[i].largeContent ==> DeadFreed(ps, qs, i + 1)
    ensures Head(ps, i) ==>
      var to := i + Span(ps[i].blocks[0].size);
      DeadFreed(ps, if ps[i].markedSize == 0 then Emptied(qs, i, to) else qs, to)
  {
    hide AllOk, Span, Piece;
    BoundaryHead(ps, i);
    if Head(ps, i) {
      var to := i + Span(ps[i].blocks[0].size);
      forall j: nat | i <= j < to
        ensures Dead(ps, j) <==> ps[i].markedSize == 0
      {
        assert Covered(ps, i, j);
        forall h: nat | Covered(ps, h, j)
          ensures h == i
        {
          CoverUnique(ps, h, i, j);
        }
      }
    }
  }

  // ---------------------------------------------------------------- marking

  /** The sizes that marking a large object records from partition `first` up to `to`. */
  function MarkedUpTo(ps: seq<Partition>, first: nat, to: nat, size: nat): (qs: seq<Partition>)
    ensures |qs| == |ps|
    ensures forall j :: 0 <= j < |ps| ==>
      qs[j] == if first <= j < to then ps[j].(markedSize := MarkedPiece(first, j, size)) else ps[j]
  {
    seq(|ps|, j requires 0 <= j < |ps| => if first <= j < to then ps[j].(markedSize := MarkedPiece(first, j, size)) else ps[j])
  }

  function MarkedPiece(first: nat, i: nat, size: nat): nat {
    if i == first + Span(size) - 1 then size % PARTITION_SIZE else PARTITION_SIZE
  }

  lemma MarkedMore(ps: seq<Partition>, first: nat, i: nat, size: nat)
    requires first <= i < |ps|
    ensures MarkedUpTo(ps, first, i + 1, size) == MarkedUpTo(ps, first, i, size)[i := ps[i].(markedSize := MarkedPiece(first, i, size))]
  {
  }

  lemma MarkedSums(ps: seq<Partition>, first: nat, to: nat, size: nat)
    ensures SumsOf(MarkedUpTo(ps, first, to, size)) == SumsOf(ps)
  {
    var qs := MarkedUpTo(ps, first, to, size);
    forall i | 0 <= i < |ps|
      ensures CopiedOf(qs[i]) == CopiedOf(ps[i])
    {
      assert qs[i].blocks == ps[i].blocks;
    }
    SumEqual(qs, ps, FreeOne);
    SumEqual(qs, ps, StaticOf);
    SumEqual(qs, ps, DynamicOf);
    SumEqual(qs, ps, CopiedOf);
  }

  lemma MarkedOk(ps: seq<Partition>, first: nat)
    requires AllOk(ps) && LargeOk(ps) && Head(ps, first) && ps[first].markedSize == 0
    ensures var size := ps[first].blocks[0].size; var qs := MarkedUpTo(ps, first, first + Span(size), size);
      AllOk(qs) && LargeOk(qs) && qs[first].markedSize > 0
  {
    hide PartitionOk;
    var size := ps[first].blocks[0].size;
    var to := first + Span(size);
    var qs := MarkedUpTo(ps, first, to, size);
    assert SpanOk(ps, first);
    forall i | 0 <= i < |qs|
      ensures PartitionOk(qs[i])
      ensures first <= i < to ==> Piece(qs[i], first, i, size, true)
    {
      assert PartitionOk(ps[i]);
      if first <= i < to {
        assert Piece(ps[i], first, i, size, false);
        MarkedPieceOk(ps[i], MarkedPiece(first, i, size));
      }
    }
    forall h: nat | Head(qs, h)
      ensures SpanOk(qs, h)
    {
      assert Head(ps, h) && SpanOk(ps, h);
      if h != first {
        SpanOutside(ps, h, first);
        forall i | h <= i < h + Span(qs[h].blocks[0].size)
          ensures Piece(qs[i], h, i, qs[h].blocks[0].size, qs[h].markedSize > 0)
        {
          assert Piece(ps[i], h, i, ps[h].blocks[0].size, ps[h].markedSize > 0);
        }
      }
    }
    forall i: nat | i < |qs|
      ensures Owned(qs, i)
    {
      assert Owned(ps, i);
      if qs[i].largeContent {
        var h: nat :| Covered(ps, h, i);
        assert Covered(qs, h, i);
      }
    }
  }

  /** The marked sizes of `n` partitions from `first` on. */
  function MarkedTotal(ps: seq<Partition>, first: nat, n: nat): nat
    requires first + n <= |ps|
  {
    if n == 0 then 0 else MarkedTotal(ps, first, n - 1) + ps[first + n - 1].markedSize
  }

  lemma {:induction false} MarkedPrefix(ps: seq<Partition>, first: nat, n: nat)
    requires Head(ps, first) && SpanOk(ps, first) && ps[first].markedSize > 0 && n < Span(ps[first].blocks[0].size)
    ensures MarkedTotal(ps, first, n) == n * PARTITION_SIZE
  {
    if n > 0 {
      MarkedPrefix(ps, first, n - 1);
      assert Piece(ps[first + n - 1], first, first + n - 1, ps[first].blocks[0].size, true);
    }
  }

  /** The marked sizes of a marked large object add up to its size if and only if it does not fill its
    * last partition; otherwise they lack that partition. */
  lemma MarkedTotalExact(ps: seq<Partition>, first: nat)
    requires LargeOk(ps) && Head(ps, first) && ps[first].markedSize > 0
    ensures first + Span(ps[first].blocks[0].size) <= |ps|
    ensures var size := ps[first].blocks[0].size; var total := MarkedTotal(ps, first, Span(size));
      && (total == size <==> size % PARTITION_SIZE != 0)
      && (size % PARTITION_SIZE == 0 ==> total + PARTITION_SIZE == size)
  {
    assert SpanOk(ps, first);
    var size := ps[first].blocks[0].size;
    var k := Span(size);
    MarkedPrefix(ps, first, k - 1);
    assert Piece(ps[first + k - 1], first, first + k - 1, size, true);
    LastPartition(size, k);
  }

  lemma LastPartition(size: nat, k: nat)
    requires k == Span(size) && size > 0
    ensures k > 0
    ensures size % PARTITION_SIZE == if size == k * PARTITION_SIZE then 0 else size - (k - 1) * PARTITION_SIZE
  {
  }

  /** An object of exactly two partitions: only the first one records a marked size. */
  lemma LastPieceUnmarked()
    ensures var size := 2 * PARTITION_SIZE;
      var ps := MarkedUpTo(Filled([Unused(0), Unused(0)], 0, 2, size), 0, 2, size);
      && AllOk(ps) && LargeOk(ps) && Head(ps, 0) && ps[0].blocks[0].size == size && ps[0].markedSize > 0
      && MarkedTotal(ps, 0, Span(size)) == PARTITION_SIZE
  {
    var size := 2 * PARTITION_SIZE;
    var free := [Unused(0), Unused(0)];
    assert Span(size) == 2;
    assert Forwarded(map[]) == {};
    assert AllOk(free) && LargeOk(free);
    FilledOk(free, 0, size);
    FilledLargeOk(free, 0, size);
    var filled := Filled(free, 0, 2, size);
    assert Head(filled, 0);
    MarkedOk(filled, 0);
    MarkedTotalExact(MarkedUpTo(filled, 0, 2, size), 0);
  }

  lemma MarkedPieceOk(p: Partition, marked: nat)
    requires PartitionOk(p) && p.largeContent
    ensures PartitionOk(p.(markedSize := marked))
  {
  }
}
