/** What one unfolding of the subtype check asks for. The check scans the two types once, from left
  * to right, and asks for the component pairs it meets, until it fails or has seen everything.
  */
module IdlScan {
  import opened IdlTypes

  // Polarity `p` tells which of the two tables the left type belongs to: the first one if true.
  datatype Query = Query(p: bool, t1: int, t2: int)

  datatype Tables = Tables(first: Table, second: Table)
  {
    function Left(p: bool): Table {
      if p then first else second
    }

    function Right(p: bool): Table {
      if p then second else first
    }

    ghost predicate Valid() {
      WellFormed(first) && WellFormed(second)
    }

    predicate Has(q: Query) {
      IsRef(q.t1, |Left(q.p)|) && IsRef(q.t2, |Right(q.p)|)
    }
  }

  // The pairs asked for in order; `ok` is false when the scan then fails for a reason of its own.
  datatype Scan = Scan(asks: seq<Query>, ok: bool)

  const PASS: Scan := Scan([], true)
  const FAIL: Scan := Scan([], false)

  function Before(q: Query, s: Scan): Scan {
    Scan([q] + s.asks, s.ok)
  }

  function Then(s: Scan, t: Scan): Scan {
    if s.ok then Scan(s.asks + t.asks, t.ok) else s
  }

  // ---------------------------------------------------------------- functions

  /** Parameters of `xs` from `k` on, against `ys`; those that `ys` lacks must be optional. */
  function PositionalScan(p: bool, table: Table, xs: seq<int>, ys: seq<int>, k: nat): Scan
    requires k <= |xs| && forall j :: 0 <= j < |xs| ==> IsRef(xs[j], |table|)
    decreases |xs| - k
  {
    if k == |xs| then PASS
    else if k < |ys| then Before(Query(p, ys[k], xs[k]), PositionalScan(p, table, xs, ys, k + 1))
    else if IsNullOptReserved(table, xs[k]) then PositionalScan(p, table, xs, ys, k + 1)
    else FAIL
  }

  /** Which of the annotations 1, 2 and 3 are present. */
  function Annotations(a: seq<nat>): (bool, bool, bool) {
    (1 in a, 2 in a, 3 in a)
  }

  // ---------------------------------------------------------------- records

  /** Moves on to the first field that is not before `tag`, or to the last one. */
  function Advance(fields: seq<Field>, i: nat, tag: nat): (next: nat)
    requires i < |fields|
    ensures i < next <= |fields|
    decreases |fields| - i
  {
    if fields[i].tag < tag && i + 1 < |fields| then Advance(fields, i + 1, tag) else i + 1
  }

  /** Fields `f2[k..]` are still to be checked, `f1[..i]` have been read. Unless `advance`, the last
    * one read is considered again. */
  function RecordScan(p: bool, table: Table, f1: seq<Field>, f2: seq<Field>, i: nat, advance: bool, k: nat): Scan
    requires i <= |f1| && k <= |f2| && (advance || i > 0)
    requires forall j :: 0 <= j < |f2| ==> IsRef(f2[j].t, |table|)
    decreases |f2| - k
  {
    if k == |f2| then PASS
    else if i == |f1| then
      if IsNullOptReserved(table, f2[k].t) then RecordScan(p, table, f1, f2, i, advance, k + 1) else FAIL
    else
      var next := if advance then Advance(f1, i, f2[k].tag) else i;
      if f1[next - 1].tag > f2[k].tag then
        if IsNullOptReserved(table, f2[k].t) then RecordScan(p, table, f1, f2, next, false, k + 1) else FAIL
      else
        Before(Query(p, f1[next - 1].t, f2[k].t), RecordScan(p, table, f1, f2, next, true, k + 1))
  }

  // ---------------------------------------------------------------- variants and services

  function VariantScan(p: bool, f1: seq<Field>, f2: seq<Field>, k: nat, i: nat): Scan
    requires k <= |f1| && i <= |f2|
    decreases |f1| - k
  {
    if k == |f1| then PASS
    else if i == |f2| then FAIL
    else
      var next := Advance(f2, i, f1[k].tag);
      if f1[k].tag != f2[next - 1].tag then FAIL
      else Before(Query(p, f1[k].t, f2[next - 1].t), VariantScan(p, f1, f2, k + 1, next))
  }

  function AdvanceEntry(entries: seq<Entry>, i: nat, name: Name): (next: nat)
    requires i < |entries|
    ensures i < next <= |entries|
    decreases |entries| - i
  {
    if Compare(entries[i].name, name) < 0 && i + 1 < |entries| then AdvanceEntry(entries, i + 1, name) else i + 1
  }

  function ServiceScan(p: bool, e1: seq<Entry>, e2: seq<Entry>, k: nat, i: nat): Scan
    requires k <= |e2| && i <= |e1|
    decreases |e2| - k
  {
    if k == |e2| then PASS
    else if i == |e1| then FAIL
    else
      var next := AdvanceEntry(e1, i, e2[k].name);
      if e1[next - 1].name != e2[k].name then FAIL
      else Before(Query(p, e1[next - 1].t, e2[k].t), ServiceScan(p, e1, e2, k + 1, next))
  }

  // ---------------------------------------------------------------- all types

  function FuncScan(env: Tables, p: bool, c1: Con, c2: Con): Scan
    requires c1.Func? && ConInTable(c1, |env.Left(p)|)
    requires c2.Func? && ConInTable(c2, |env.Right(p)|)
  {
    Then(PositionalScan(!p, env.Left(p), c1.ins, c2.ins, 0),
         Then(PositionalScan(p, env.Right(p), c2.outs, c1.outs, 0),
              if Annotations(c1.annotations) == Annotations(c2.annotations) then PASS else FAIL))
  }

  function ScanOf(env: Tables, q: Query): Scan
    requires env.Valid() && env.Has(q)
  {
    var u1, u2 := Unfold(env.Left(q.p), q.t1), Unfold(env.Right(q.p), q.t2);
    if IsPrimitive(q.t1) && IsPrimitive(q.t2) && q.t1 == q.t2 then PASS
    else if u2 == PRIM_RESERVED || u1 == PRIM_EMPTY || (u1 == PRIM_NAT && u2 == PRIM_INT) || u2 == CON_OPT then PASS
    else if q.t1 >= 0 && q.t2 >= 0 then ConScan(env, q.p, env.Left(q.p)[q.t1], env.Right(q.p)[q.t2])
    else if u1 == CON_SERVICE && u2 == REF_PRINCIPAL then PASS
    else FAIL
  }

  function ConScan(env: Tables, p: bool, c1: Con, c2: Con): Scan
    requires ConInTable(c1, |env.Left(p)|) && ConInTable(c2, |env.Right(p)|)
  {
    match (c1, c2)
    case (Vec(t1), Vec(t2)) => Scan([Query(p, t1, t2)], true)
    case (Func(_, _, _), Func(_, _, _)) => FuncScan(env, p, c1, c2)
    case (Record(f1), Record(f2)) => RecordScan(p, env.Right(p), f1, f2, 0, true, 0)
    case (Variant(f1), Variant(f2)) => VariantScan(p, f1, f2, 0, 0)
    case (Service(e1), Service(e2)) => ServiceScan(p, e1, e2, 0, 0)
    case (_, _) => FAIL
  }
}
