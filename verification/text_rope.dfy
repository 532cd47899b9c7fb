/** Texts as ropes: concatenation, comparison, and flattening into a buffer that doubles as the stack
  * of what is still to be written.
  */
module TextRope {

  type Byte = n: nat | n < 256

  const MAX_STR_SIZE: nat := 0x3fff_ffff_ffff_ffff
  const MIN_CONCAT_SIZE: nat := 9
  const CRUMB_SIZE: nat := 16

  datatype Option<T> = None | Some(value: T)

  datatype Text = Blob(bytes: seq<Byte>) | Concat(nBytes: nat, text1: Text, text2: Text)

  /** The bytes of a text. */
  function Flat(s: Text): seq<Byte> {
    match s
    case Blob(bytes) => bytes
    case Concat(_, s1, s2) => Flat(s1) + Flat(s2)
  }

  /** The length is at the same place in blobs and concatenations. */
  function TextSize(s: Text): nat {
    match s
    case Blob(bytes) => |bytes|
    case Concat(n, _, _) => n
  }

  /** Sizes are right, small texts are blobs, and no part is empty. */
  predicate Valid(s: Text) {
    match s
    case Blob(bytes) => |bytes| <= MAX_STR_SIZE
    case Concat(n, s1, s2) =>
      && Valid(s1) && Valid(s2) && n == TextSize(s1) + TextSize(s2)
      && MIN_CONCAT_SIZE <= n <= MAX_STR_SIZE && TextSize(s1) > 0 && TextSize(s2) > 0
  }

  lemma SizeIsLength(s: Text)
    requires Valid(s)
    ensures TextSize(s) == |Flat(s)|
  {
  }

  function Nodes(s: Text): (n: nat)
    ensures n > 0
  {
    match s
    case Blob(_) => 1
    case Concat(_, s1, s2) => 1 + Nodes(s1) + Nodes(s2)
  }

  // ---------------------------------------------------------------- concatenation

  datatype Result = Ok(text: Text) | Trap

  /** The concatenation; a text that is too large is refused. */
  method TextConcat(s1: Text, s2: Text) returns (r: Result)
    requires Valid(s1) && Valid(s2)
    ensures r.Ok? <==> |Flat(s1)| + |Flat(s2)| <= MAX_STR_SIZE
    ensures r.Ok? ==> Valid(r.text) && Flat(r.text) == Flat(s1) + Flat(s2)
    ensures r.Ok? && |Flat(r.text)| < MIN_CONCAT_SIZE ==> r.text.Blob?
    // Nothing is copied but short texts.
    ensures r.Ok? && |Flat(r.text)| >= MIN_CONCAT_SIZE ==>
              r.text == s1 || r.text == s2 || r.text == Concat(|Flat(r.text)|, s1, s2)
  {
    SizeIsLength(s1);
    SizeIsLength(s2);
    var n1, n2 := TextSize(s1), TextSize(s2);
    if n1 == 0 {
      return Ok(s2);
    }
    if n2 == 0 {
      return Ok(s1);
    }
    if n1 + n2 < MIN_CONCAT_SIZE {
      // Texts of this size are blobs.
      return Ok(Blob(s1.bytes + s2.bytes));
    }
    if n1 + n2 > MAX_STR_SIZE {
      return Trap;
    }
    r := Ok(Concat(n1 + n2, s1, s2));
  }

  // ---------------------------------------------------------------- the buffer

  // A byte of the buffer: written, or one of the bytes of a breadcrumb, which says what to write
  // there and where the next breadcrumb is.
  datatype Cell = Raw | Written(b: Byte) | CrumbByte(t: Text, next: Option<nat>, index: nat)

  function WrittenBytes(bytes: seq<Byte>): (cells: seq<Cell>)
    ensures |cells| == |bytes|
  {
    seq(|bytes|, i requires 0 <= i < |bytes| => Written(bytes[i]))
  }

  predicate CrumbAt(cells: seq<Cell>, at: nat, t: Text, next: Option<nat>)
    requires at + CRUMB_SIZE <= |cells|
  {
    forall i :: at <= i < at + CRUMB_SIZE ==> cells[i] == CrumbByte(t, next, i - at)
  }

  /** Cells `from` to `to` hold their part of the text that starts at `start`. */
  predicate Finished(cells: seq<Cell>, flat: seq<Byte>, start: nat, from: nat, to: nat)
    requires start <= from && to <= |cells| && to <= start + |flat|
  {
    forall i :: from <= i < to ==> cells[i] == Written(flat[i - start])
  }

  predicate Spells(flat: seq<Byte>, start: nat, at: nat, s: Text) {
    start <= at && at - start + |Flat(s)| <= |flat| && flat[at - start..at - start + |Flat(s)|] == Flat(s)
  }

  // A text to be written later, and where.
  datatype Pending = Pending(at: nat, t: Text)

  /** From `from` on: finished cells and, at the places of pending texts, the chain of breadcrumbs
    * that starts with `next`. */
  ghost predicate Tail(cells: seq<Cell>, flat: seq<Byte>, start: nat, from: nat, next: Option<nat>, todo: seq<Pending>)
    requires start <= from && start + |flat| <= |cells|
    decreases |todo|
  {
    if todo == [] then
      next == None && from <= start + |flat| && Finished(cells, flat, start, from, start + |flat|)
    else
      var p := todo[0];
      && next == Some(p.at) && from <= p.at && Valid(p.t) && Spells(flat, start, p.at, p.t) && |Flat(p.t)| >= CRUMB_SIZE
      && Finished(cells, flat, start, from, p.at)
      && exists after :: CrumbAt(cells, p.at, p.t, after) && Tail(cells, flat, start, p.at + |Flat(p.t)|, after, todo[1..])
  }

  /** Cells before `from` play no part. */
  lemma {:induction false} TailFrame(cells: seq<Cell>, cells': seq<Cell>, flat: seq<Byte>, start: nat, from: nat,
                                     next: Option<nat>, todo: seq<Pending>)
    requires start <= from && start + |flat| <= |cells| == |cells'| && Tail(cells, flat, start, from, next, todo)
    requires forall i :: from <= i < start + |flat| ==> cells'[i] == cells[i]
    ensures Tail(cells', flat, start, from, next, todo)
    decreases |todo|
  {
    if todo != [] {
      var p := todo[0];
      var after :| CrumbAt(cells, p.at, p.t, after) && Tail(cells, flat, start, p.at + |Flat(p.t)|, after, todo[1..]);
      TailFrame(cells, cells', flat, start, p.at + |Flat(p.t)|, after, todo[1..]);
      assert CrumbAt(cells', p.at, p.t, after);
    }
  }

  /** Finished cells before `from` join the tail. */
  lemma TailExtend(cells: seq<Cell>, flat: seq<Byte>, start: nat, before: nat, from: nat, next: Option<nat>, todo: seq<Pending>)
    requires start <= before <= from <= start + |flat| <= |cells| && Tail(cells, flat, start, from, next, todo)
    requires Finished(cells, flat, start, before, from)
    ensures Tail(cells, flat, start, before, next, todo)
  {
  }

  function PendingNodes(todo: seq<Pending>): nat {
    if todo == [] then 0 else Nodes(todo[0].t) + PendingNodes(todo[1..])
  }

  /** The two halves of a concatenation spell out side by side. */
  lemma SpellsHalves(flat: seq<Byte>, start: nat, at: nat, s: Text)
    requires s.Concat? && Spells(flat, start, at, s)
    ensures Spells(flat, start, at, s.text1) && Spells(flat, start, at + |Flat(s.text1)|, s.text2)
  {
    var f1, f2 := Flat(s.text1), Flat(s.text2);
    var slice := flat[at - start..at - start + |f1| + |f2|];
    assert slice == f1 + f2;
    assert flat[at - start..at - start + |f1|] == slice[..|f1|];
    assert flat[at - start + |f1|..at - start + |f1| + |f2|] == slice[|f1|..];
  }

  /** Writes the bytes of the text, and nothing else, although what is still to be written is noted
    * in the unwritten part of the same buffer. */
  method TextToBuf(text: Text, cells: array<Cell>, start: nat)
    requires Valid(text) && start + |Flat(text)| <= cells.Length
    modifies cells
    ensures cells[start..start + |Flat(text)|] == WrittenBytes(Flat(text))
    ensures cells[..start] == old(cells[..start])
    ensures cells[start + |Flat(text)|..] == old(cells[start + |Flat(text)|..])
    decreases Nodes(text), 1
  {
    hide Tail, Spells, Valid, Flat, Finished, Outside;
    ghost var flat, before := Flat(text), cells[..];
    var s: Text, buf: nat, nextCrumb: Option<nat> := text, start, None;
    ghost var todo: seq<Pending> := [];
    TailEmpty(cells[..], flat, start);
    Whole(text, start);
    Untouched(before, start, start + |flat|);
    while true
      invariant Valid(s) && Spells(flat, start, buf, s) && start <= buf && buf + |Flat(s)| <= start + |flat|
      invariant start + |flat| <= cells.Length && Finished(cells[..], flat, start, start, buf)
      invariant Tail(cells[..], flat, start, buf + |Flat(s)|, nextCrumb, todo)
      invariant Nodes(s) + PendingNodes(todo) <= Nodes(text)
      invariant Outside(before, cells[..], start, start + |flat|)
      decreases Nodes(s) + PendingNodes(todo)
    {
      SizeIsLength(s);
      SpellsBounds(flat, start, buf, s);
      match s {
        case Blob(bytes) =>
          ghost var now := cells[..];
          WriteBlob(cells, buf, bytes);
          BlobWritten(now, cells[..], flat, start, buf, s, nextCrumb, todo);
          OutsideThen(before, now, cells[..], start, start + |flat|);
          if nextCrumb == None {
            AllWritten(before, cells[..], flat, start, buf + |bytes|, todo);
            return;
          }
          ghost var after := TailNext(cells[..], flat, start, buf + |bytes|, nextCrumb, todo);
          buf := nextCrumb.value;
          var crumb := cells[buf];
          s := crumb.t;
          nextCrumb := crumb.next;
          todo := todo[1..];
        case Concat(_, s1, s2) =>
          SpellsHalves(flat, start, buf, s);
          Halves(s);
          ghost var now := cells[..];
          nextCrumb, todo := SecondHalf(s, cells, buf, nextCrumb, flat, start, todo);
          OutsideThen(before, now, cells[..], start, start + |flat|);
          s := s1;
      }
    }
  }

  /** The second half of a concatenation: written directly if it is smaller than a breadcrumb,
    * otherwise noted at its place. */
  method SecondHalf(s: Text, cells: array<Cell>, buf: nat, nextCrumb: Option<nat>, ghost flat: seq<Byte>, ghost start: nat,
                    ghost todo: seq<Pending>)
    returns (next: Option<nat>, ghost more: seq<Pending>)
    requires s.Concat? && Valid(s) && Spells(flat, start, buf, s) && start <= buf && buf + |Flat(s)| <= start + |flat|
    requires start + |flat| <= cells.Length && Finished(cells[..], flat, start, start, buf)
    requires Tail(cells[..], flat, start, buf + |Flat(s)|, nextCrumb, todo)
    modifies cells
    ensures Finished(cells[..], flat, start, start, buf)
    ensures Tail(cells[..], flat, start, buf + |Flat(s.text1)|, next, more)
    ensures Nodes(s.text1) + PendingNodes(more) < Nodes(s) + PendingNodes(todo)
    ensures Outside(old(cells[..]), cells[..], start, start + |flat|)
    decreases Nodes(s), 0
  {
    hide Tail, Spells, Valid, Flat, Finished, Outside;
    SpellsHalves(flat, start, buf, s);
    Halves(s);
    var middle := buf + TextSize(s.text1);
    ghost var now := cells[..];
    if TextSize(s.text2) < CRUMB_SIZE {
      TextToBuf(s.text2, cells, middle);
      SmallWritten(now, cells[..], flat, start, buf, s, nextCrumb, todo);
      next, more := nextCrumb, todo;
    } else {
      LeaveCrumb(cells, middle, s.text2, nextCrumb);
      CrumbLeft(now, cells[..], flat, start, buf, s, nextCrumb, todo);
      next, more := Some(middle), [Pending(middle, s.text2)] + todo;
    }
  }

  /** `memcpy` of a blob. */
  method WriteBlob(cells: array<Cell>, at: nat, bytes: seq<Byte>)
    requires at + |bytes| <= cells.Length
    modifies cells
    ensures forall i :: 0 <= i < cells.Length ==>
              cells[i] == if at <= i < at + |bytes| then Written(bytes[i - at]) else old(cells[i])
  {
    var k := 0;
    while k < |bytes|
      invariant k <= |bytes|
      invariant forall i :: 0 <= i < cells.Length ==>
                  cells[i] == if at <= i < at + k then Written(bytes[i - at]) else old(cells[i])
    {
      cells[at + k] := Written(bytes[k]);
      k := k + 1;
    }
  }

  method LeaveCrumb(cells: array<Cell>, at: nat, t: Text, next: Option<nat>)
    requires at + CRUMB_SIZE <= cells.Length
    modifies cells
    ensures forall i :: 0 <= i < cells.Length ==>
              cells[i] == if at <= i < at + CRUMB_SIZE then CrumbByte(t, next, i - at) else old(cells[i])
  {
    var k := 0;
    while k < CRUMB_SIZE
      invariant k <= CRUMB_SIZE
      invariant forall i :: 0 <= i < cells.Length ==>
                  cells[i] == if at <= i < at + k then CrumbByte(t, next, i - at) else old(cells[i])
    {
      cells[at + k] := CrumbByte(t, next, k);
      k := k + 1;
    }
  }

  /** Nothing outside of `lo` to `hi` differs. */
  ghost predicate Outside(cells: seq<Cell>, cells': seq<Cell>, lo: nat, hi: nat) {
    |cells'| == |cells| && forall i :: 0 <= i < |cells| && !(lo <= i < hi) ==> cells'[i] == cells[i]
  }

  lemma Untouched(cells: seq<Cell>, lo: nat, hi: nat)
    ensures Outside(cells, cells, lo, hi)
  {
  }

  lemma OutsideThen(c0: seq<Cell>, c1: seq<Cell>, c2: seq<Cell>, lo: nat, hi: nat)
    requires Outside(c0, c1, lo, hi) && Outside(c1, c2, lo, hi)
    ensures Outside(c0, c2, lo, hi)
  {
  }

  lemma TailEmpty(cells: seq<Cell>, flat: seq<Byte>, start: nat)
    requires start + |flat| <= |cells|
    ensures Tail(cells, flat, start, start + |flat|, None, []) && Finished(cells, flat, start, start, start)
  {
  }

  lemma Whole(s: Text, start: nat)
    ensures Spells(Flat(s), start, start, s)
  {
  }

  lemma SpellsBounds(flat: seq<Byte>, start: nat, at: nat, s: Text)
    requires Spells(flat, start, at, s)
    ensures start <= at && at + |Flat(s)| <= start + |flat|
    ensures s.Blob? ==> Flat(s) == s.bytes && forall i :: 0 <= i < |s.bytes| ==> s.bytes[i] == flat[at - start + i]
  {
    assert s.Blob? ==> flat[at - start..at - start + |Flat(s)|] == s.bytes;
  }

  lemma Halves(s: Text)
    requires s.Concat? && Valid(s)
    ensures Valid(s.text1) && Valid(s.text2)
    ensures TextSize(s.text1) == |Flat(s.text1)| && TextSize(s.text2) == |Flat(s.text2)|
    ensures Flat(s) == Flat(s.text1) + Flat(s.text2)
  {
    SizeIsLength(s.text1);
    SizeIsLength(s.text2);
  }

  lemma BlobWritten(now: seq<Cell>, cells: seq<Cell>, flat: seq<Byte>, start: nat, buf: nat, s: Text,
                    next: Option<nat>, todo: seq<Pending>)
    requires s.Blob? && start <= buf && buf + |s.bytes| <= start + |flat| <= |now| == |cells| && Flat(s) == s.bytes
    requires forall i :: 0 <= i < |s.bytes| ==> s.bytes[i] == flat[buf - start + i]
    requires forall i :: 0 <= i < |now| ==> cells[i] == if buf <= i < buf + |s.bytes| then Written(s.bytes[i - buf]) else now[i]
    requires Finished(now, flat, start, start, buf) && Tail(now, flat, start, buf + |s.bytes|, next, todo)
    ensures Finished(cells, flat, start, start, buf + |s.bytes|) && Tail(cells, flat, start, buf + |s.bytes|, next, todo)
    ensures Outside(now, cells, start, start + |flat|)
  {
    hide Tail;
    TailFrame(now, cells, flat, start, buf + |s.bytes|, next, todo);
  }

  /** Without a breadcrumb everything is written. */
  lemma AllWritten(before: seq<Cell>, cells: seq<Cell>, flat: seq<Byte>, start: nat, from: nat, todo: seq<Pending>)
    requires start <= from && start + |flat| <= |cells| && from <= start + |flat|
    requires Finished(cells, flat, start, start, from)
    requires Tail(cells, flat, start, from, None, todo) && Outside(before, cells, start, start + |flat|)
    ensures cells[start..start + |flat|] == WrittenBytes(flat)
    ensures cells[..start] == before[..start] && cells[start + |flat|..] == before[start + |flat|..]
  {
  }

  /** The breadcrumb tells what comes next. */
  lemma TailNext(cells: seq<Cell>, flat: seq<Byte>, start: nat, from: nat, next: Option<nat>, todo: seq<Pending>)
    returns (after: Option<nat>)
    requires start <= from && start + |flat| <= |cells| && from <= start + |flat|
    requires Finished(cells, flat, start, start, from)
    requires Tail(cells, flat, start, from, next, todo) && next.Some?
    ensures todo != [] && next.value == todo[0].at && start <= next.value < |cells| && next.value <= start + |flat|
    ensures var p := todo[0];
            && cells[p.at] == CrumbByte(p.t, after, 0)
            && Valid(p.t) && Spells(flat, start, p.at, p.t) && p.at + |Flat(p.t)| <= start + |flat|
            && Finished(cells, flat, start, start, p.at)
            && Tail(cells, flat, start, p.at + |Flat(p.t)|, after, todo[1..])
            && PendingNodes(todo) == Nodes(p.t) + PendingNodes(todo[1..])
  {
    var p := todo[0];
    after :| CrumbAt(cells, p.at, p.t, after) && Tail(cells, flat, start, p.at + |Flat(p.t)|, after, todo[1..]);
  }

  /** A small second half has been written directly. */
  lemma SmallWritten(now: seq<Cell>, cells: seq<Cell>, flat: seq<Byte>, start: nat, buf: nat, s: Text,
                     next: Option<nat>, todo: seq<Pending>)
    requires s.Concat? && Flat(s) == Flat(s.text1) + Flat(s.text2) && start <= buf
    requires buf + |Flat(s)| <= start + |flat| <= |now| == |cells|
    requires Finished(now, flat, start, start, buf) && Tail(now, flat, start, buf + |Flat(s)|, next, todo)
    requires var middle := buf + |Flat(s.text1)|;
             && Spells(flat, start, middle, s.text2)
             && cells[middle..middle + |Flat(s.text2)|] == WrittenBytes(Flat(s.text2))
             && cells[..middle] == now[..middle] && cells[middle + |Flat(s.text2)|..] == now[middle + |Flat(s.text2)|..]
    ensures Finished(cells, flat, start, start, buf)
    ensures Tail(cells, flat, start, buf + |Flat(s.text1)|, next, todo) && Outside(now, cells, start, start + |flat|)
  {
    hide Tail;
    var middle, end := buf + |Flat(s.text1)|, buf + |Flat(s)|;
    forall i | 0 <= i < |cells| && !(middle <= i < end)
      ensures cells[i] == now[i]
    {
      if i < middle {
        assert cells[i] == cells[..middle][i];
      } else {
        assert cells[i] == cells[end..][i - end];
      }
    }
    forall i | middle <= i < end
      ensures cells[i] == Written(flat[i - start])
    {
      assert cells[i] == cells[middle..end][i - middle];
      assert flat[i - start] == flat[middle - start..middle - start + |Flat(s.text2)|][i - middle];
    }
    TailFrame(now, cells, flat, start, end, next, todo);
    TailExtend(cells, flat, start, middle, end, next, todo);
  }

  /** A breadcrumb has been left at the place of the second half. */
  lemma CrumbLeft(now: seq<Cell>, cells: seq<Cell>, flat: seq<Byte>, start: nat, buf: nat, s: Text,
                  next: Option<nat>, todo: seq<Pending>)
    requires s.Concat? && Flat(s) == Flat(s.text1) + Flat(s.text2) && start <= buf && Valid(s.text2)
    requires buf + |Flat(s)| <= start + |flat| <= |now| == |cells| && |Flat(s.text2)| >= CRUMB_SIZE
    requires Finished(now, flat, start, start, buf) && Tail(now, flat, start, buf + |Flat(s)|, next, todo)
    requires var middle := buf + |Flat(s.text1)|;
             && Spells(flat, start, middle, s.text2)
             && forall i :: 0 <= i < |now| ==>
                  cells[i] == if middle <= i < middle + CRUMB_SIZE then CrumbByte(s.text2, next, i - middle) else now[i]
    ensures var middle := buf + |Flat(s.text1)|;
            && Finished(cells, flat, start, start, buf) && Outside(now, cells, start, start + |flat|)
            && Tail(cells, flat, start, middle, Some(middle), [Pending(middle, s.text2)] + todo)
            && PendingNodes([Pending(middle, s.text2)] + todo) == Nodes(s.text2) + PendingNodes(todo)
  {
    var middle := buf + |Flat(s.text1)|;
    TailFrame(now, cells, flat, start, buf + |Flat(s)|, next, todo);
    var todo' := [Pending(middle, s.text2)] + todo;
    assert todo'[1..] == todo;
    assert CrumbAt(cells, middle, s.text2, next);
  }

  /** The text as a blob. */
  method BlobOfText(s: Text) returns (r: seq<Byte>)
    requires Valid(s)
    ensures r == Flat(s)
  {
    match s {
      case Blob(bytes) =>
        return bytes;
      case Concat(n, _, _) =>
        SizeIsLength(s);
        var cells := new Cell[n](_ => Raw);
        TextToBuf(s, cells, 0);
        assert cells[..] == cells[0..n];
        r := seq(n, i requires 0 <= i < n reads cells => if cells[i].Written? then cells[i].b else 0);
    }
  }
}
