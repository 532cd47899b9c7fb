/** The recursive subtype check over the bit cache. */
module IdlSub {
  import opened IdlTypes
  import opened IdlScan
  import opened IdlRules
  import opened IdlCheck
  import opened BitRel

  /** The tables that the check works on are those of `env`, exchanged if `p` is false. */
  ghost predicate Fits(rel: Relation, env: Tables, p: bool, table1: Table, table2: Table)
    reads rel
  {
    && rel.Valid() && env.Valid()
    && rel.size1 == |env.first| && rel.size2 == |env.second|
    && table1 == env.Left(p) && table2 == env.Right(p)
  }

  lemma {:induction false} AskAllBefore(env: Tables, c: Cache, q: Query, s: Scan)
    requires env.Valid() && env.Has(q) && AllWithin(env, s)
    ensures AllWithin(env, Before(q, s))
    ensures AskAll(env, c, Before(q, s)) ==
              var o := Ask(env, c, q); if o.ok then AskAll(env, o.cache, s) else o
  {
    assert Before(q, s).asks[1..] == s.asks;
  }

  lemma {:induction false} AskAllThen(env: Tables, c: Cache, s: Scan, t: Scan)
    requires env.Valid() && AllWithin(env, s) && AllWithin(env, t)
    ensures AllWithin(env, Then(s, t))
    ensures AskAll(env, c, Then(s, t)) ==
              var o := AskAll(env, c, s); if o.ok then AskAll(env, o.cache, t) else o
    decreases |s.asks|
  {
    if s.asks == [] {
      assert s.asks + t.asks == t.asks;
      assert s.ok ==> Then(s, t) == t;
    } else {
      var rest := Scan(s.asks[1..], s.ok);
      AskAllThen(env, Ask(env, c, s.asks[0]).cache, rest, t);
      AskAllBefore(env, c, s.asks[0], rest);
      AskAllBefore(env, c, s.asks[0], Then(rest, t));
      assert s == Before(s.asks[0], rest);
      if s.ok {
        assert s.asks + t.asks == [s.asks[0]] + (rest.asks + t.asks);
        assert Then(s, t) == Before(s.asks[0], Then(rest, t));
      }
    }
  }

  method Sub(rel: Relation, p: bool, table1: Table, table2: Table, t1: int, t2: int, ghost env: Tables) returns (r: bool)
    requires Fits(rel, env, p, table1, table2) && env.Has(Query(p, t1, t2))
    modifies rel.words
    ensures Outcome(r, rel.View()) == Ask(env, old(rel.View()), Query(p, t1, t2))
    decreases Universe(env) - rel.View().visited, 0
  {
    hide ScanOf, ConScan, Ask, AskAll, Universe, AllPairs, AllWithin, WellFormed, Marked;
    ghost var c := rel.View();
    var q := Query(p, t1, t2);
    if t1 < 0 || t2 < 0 {
      r := SubPrimitive(p, table1, table2, t1, t2, env);
      AskUncached(env, c, q);
      return;
    }
    InRelation(rel, env, q);
    AskCached(env, c, q);
    if rel.Visited(q) {
      return rel.Related(q);
    }
    rel.Visit(q);
    r := SubTables(rel, p, table1, table2, t1, t2, env);
    if !r {
      rel.Disprove(q);
    }
  }

  lemma {:induction false} InRelation(rel: Relation, env: Tables, q: Query)
    requires rel.Valid() && rel.size1 == |env.first| && rel.size2 == |env.second| && env.Has(q) && Cacheable(q)
    ensures q in AllPairs(rel.size1, rel.size2) && q in Universe(env)
  {
    InUniverse(env, q);
  }

  lemma {:induction false} AskUncached(env: Tables, c: Cache, q: Query)
    requires env.Valid() && env.Has(q) && !Cacheable(q)
    ensures Ask(env, c, q) == Outcome(ScanOf(env, q).ok, c)
  {
  }

  lemma {:induction false} AskCached(env: Tables, c: Cache, q: Query)
    requires env.Valid() && env.Has(q) && Cacheable(q)
    ensures AllWithin(env, ScanOf(env, q))
    ensures q in c.visited ==> Ask(env, c, q) == Outcome(q !in c.disproved, c)
    ensures q !in c.visited ==>
              var o := AskAll(env, c.(visited := c.visited + {q}), ScanOf(env, q));
              Ask(env, c, q) == if o.ok then o else Outcome(false, o.cache.(disproved := o.cache.disproved + {q}))
  {
    hide ScanOf;
    ScanWithin(env, q);
  }

  /** At least one type is primitive: no component is ever compared. */
  method SubPrimitive(p: bool, table1: Table, table2: Table, t1: int, t2: int, ghost env: Tables) returns (r: bool)
    requires env.Valid() && table1 == env.Left(p) && table2 == env.Right(p) && env.Has(Query(p, t1, t2))
    requires t1 < 0 || t2 < 0
    ensures r == ScanOf(env, Query(p, t1, t2)).ok
  {
    hide ConScan;
    if IsPrimitive(t1) && IsPrimitive(t2) && t1 == t2 {
      return true;
    }
    var u1, u2 := Unfold(table1, t1), Unfold(table2, t2);
    return u2 == PRIM_RESERVED || u1 == PRIM_EMPTY || (u1 == PRIM_NAT && u2 == PRIM_INT) || u2 == CON_OPT
           || (u1 == CON_SERVICE && u2 == REF_PRINCIPAL);
  }

  /** Both types are table entries. */
  method SubTables(rel: Relation, p: bool, table1: Table, table2: Table, t1: int, t2: int, ghost env: Tables) returns (r: bool)
    requires Fits(rel, env, p, table1, table2) && env.Has(Query(p, t1, t2)) && t1 >= 0 && t2 >= 0
    modifies rel.words
    ensures AllWithin(env, ScanOf(env, Query(p, t1, t2)))
    ensures Outcome(r, rel.View()) == AskAll(env, old(rel.View()), ScanOf(env, Query(p, t1, t2)))
    decreases Universe(env) - rel.View().visited, 2
  {
    hide ConScan, Ask, Universe, AllPairs, AllWithin, Marked;
    var c1, c2 := table1[t1], table2[t2];
    ScanWithin(env, Query(p, t1, t2));
    TableScan(env, p, t1, t2);
    if c2.Opt? {
      return true;
    }
    r := SubCon(rel, p, table1, table2, c1, c2, env);
  }

  lemma {:induction false} TableScan(env: Tables, p: bool, t1: int, t2: int)
    requires env.Valid() && env.Has(Query(p, t1, t2)) && t1 >= 0 && t2 >= 0
    ensures ConInTable(env.Left(p)[t1], |env.Left(p)|) && ConInTable(env.Right(p)[t2], |env.Right(p)|)
    ensures AllWithin(env, ScanOf(env, Query(p, t1, t2)))
    ensures ScanOf(env, Query(p, t1, t2)) ==
              if env.Right(p)[t2].Opt? then PASS else ConScan(env, p, env.Left(p)[t1], env.Right(p)[t2])
  {
    hide ConScan;
    ScanWithin(env, Query(p, t1, t2));
  }

  method SubCon(rel: Relation, p: bool, table1: Table, table2: Table, c1: Con, c2: Con, ghost env: Tables) returns (r: bool)
    requires Fits(rel, env, p, table1, table2)
    requires ConInTable(c1, |table1|) && ConInTable(c2, |table2|)
    modifies rel.words
    ensures AllWithin(env, ConScan(env, p, c1, c2))
    ensures Outcome(r, rel.View()) == AskAll(env, old(rel.View()), ConScan(env, p, c1, c2))
    decreases Universe(env) - rel.View().visited, 2, 0
  {
    hide Ask, Universe, AllPairs, AllWithin, Marked, Then;
    ConScanWithin(env, p, c1, c2);
    match (c1, c2) {
      case (Vec(t1), Vec(t2)) =>
        AskAllOne(env, rel.View(), Query(p, t1, t2));
        r := Sub(rel, p, table1, table2, t1, t2, env);
      case (Func(_, _, _), Func(_, _, _)) =>
        r := SubFunc(rel, p, table1, table2, c1, c2, env);
      case (Record(f1), Record(f2)) =>
        r := SubRecord(rel, p, table1, table2, f1, f2, env);
      case (Variant(f1), Variant(f2)) =>
        r := SubVariant(rel, p, table1, table2, f1, f2, env);
      case (Service(e1), Service(e2)) =>
        r := SubService(rel, p, table1, table2, e1, e2, env);
      case (_, _) =>
        r := false;
    }
  }

  /** Contravariant in the parameters: polarity and tables are exchanged. */
  method SubFunc(rel: Relation, p: bool, table1: Table, table2: Table, c1: Con, c2: Con, ghost env: Tables) returns (r: bool)
    requires Fits(rel, env, p, table1, table2)
    requires c1.Func? && c2.Func? && ConInTable(c1, |table1|) && ConInTable(c2, |table2|)
    modifies rel.words
    ensures AllWithin(env, FuncScan(env, p, c1, c2))
    ensures Outcome(r, rel.View()) == AskAll(env, old(rel.View()), FuncScan(env, p, c1, c2))
    decreases Universe(env) - rel.View().visited, 1, 1
  {
    hide Ask, AskAll, Universe, AllPairs, AllWithin, Marked, Then, PositionalScan;
    ghost var c := rel.View();
    var flipped := !p;
    ghost var ins := PositionalScan(flipped, table1, c1.ins, c2.ins, 0);
    ghost var outs := PositionalScan(p, table2, c2.outs, c1.outs, 0);
    ghost var notes := if Annotations(c1.annotations) == Annotations(c2.annotations) then PASS else FAIL;
    PositionalWithin(env, flipped, c1.ins, c2.ins, 0);
    PositionalWithin(env, p, c2.outs, c1.outs, 0);
    NotesWithin(env, notes);
    AskAllThen(env, AskAll(env, c, ins).cache, outs, notes);
    AskAllThen(env, c, ins, Then(outs, notes));
    r := SubPositional(rel, flipped, table2, table1, c1.ins, c2.ins, env);
    if !r {
      return;
    }
    r := SubPositional(rel, p, table1, table2, c2.outs, c1.outs, env);
    if !r {
      return;
    }
    NotesAsked(env, rel.View(), notes);
    r := Annotations(c1.annotations) == Annotations(c2.annotations);
  }

  lemma {:induction false} NotesWithin(env: Tables, s: Scan)
    requires s.asks == []
    ensures AllWithin(env, s)
  {
  }

  lemma {:induction false} NotesAsked(env: Tables, c: Cache, s: Scan)
    requires env.Valid() && s.asks == []
    ensures AllWithin(env, s) && AskAll(env, c, s) == Outcome(s.ok, c)
  {
  }

  /** Compares `ys` (types of the first table) with `xs` (types of the second) by position. */
  method SubPositional(rel: Relation, p: bool, table1: Table, table2: Table, xs: seq<int>, ys: seq<int>, ghost env: Tables)
    returns (r: bool)
    requires Fits(rel, env, p, table1, table2)
    requires forall j :: 0 <= j < |xs| ==> IsRef(xs[j], |table2|)
    requires forall j :: 0 <= j < |ys| ==> IsRef(ys[j], |table1|)
    modifies rel.words
    ensures AllWithin(env, PositionalScan(p, table2, xs, ys, 0))
    ensures Outcome(r, rel.View()) == AskAll(env, old(rel.View()), PositionalScan(p, table2, xs, ys, 0))
    decreases Universe(env) - rel.View().visited, 1, 0
  {
    hide Ask, AskAll, Universe, AllPairs, AllWithin, Marked, IsNullOptReserved;
    ghost var c := rel.View();
    PositionalWithin(env, p, xs, ys, 0);
    var k, n := 0, |ys|;
    while k < |xs|
      invariant k <= |xs| && n == if k <= |ys| then |ys| - k else 0
      invariant AllWithin(env, PositionalScan(p, table2, xs, ys, k)) && c.visited <= rel.View().visited
      invariant AskAll(env, rel.View(), PositionalScan(p, table2, xs, ys, k))
             == AskAll(env, c, PositionalScan(p, table2, xs, ys, 0))
    {
      PositionalWithin(env, p, xs, ys, k + 1);
      if n == 0 {
        if !IsNullOptReserved(table2, xs[k]) {
          NotesAsked(env, rel.View(), FAIL);
          return false;
        }
      } else {
        AskAllBefore(env, rel.View(), Query(p, ys[k], xs[k]), PositionalScan(p, table2, xs, ys, k + 1));
        AskGrows(env, rel.View(), Query(p, ys[k], xs[k]));
        r := Sub(rel, p, table1, table2, ys[k], xs[k], env);
        n := n - 1;
        if !r {
          return;
        }
      }
      k := k + 1;
    }
    NotesAsked(env, rel.View(), PASS);
    r := true;
  }

  lemma {:induction false} AskGrows(env: Tables, c: Cache, q: Query)
    requires env.Valid() && env.Has(q)
    ensures c.visited <= Ask(env, c, q).cache.visited
  {
  }

  /** Reads fields until one is not before `tag` or none is left. */
  method NextField(f: seq<Field>, i: nat, tag: nat) returns (next: nat)
    requires i < |f|
    ensures i < next <= |f| && next == Advance(f, i, tag)
  {
    next := i + 1;
    while f[next - 1].tag < tag && next < |f|
      invariant i < next <= |f| && Advance(f, i, tag) == Advance(f, next - 1, tag)
      decreases |f| - next
    {
      next := next + 1;
    }
  }

  method SubRecord(rel: Relation, p: bool, table1: Table, table2: Table, f1: seq<Field>, f2: seq<Field>, ghost env: Tables)
    returns (r: bool)
    requires Fits(rel, env, p, table1, table2) && RefsValid(table1, f1) && RefsValid(table2, f2)
    modifies rel.words
    ensures AllWithin(env, RecordScan(p, table2, f1, f2, 0, true, 0))
    ensures Outcome(r, rel.View()) == AskAll(env, old(rel.View()), RecordScan(p, table2, f1, f2, 0, true, 0))
    decreases Universe(env) - rel.View().visited, 1
  {
    hide Ask, AskAll, Universe, AllPairs, AllWithin, Marked, IsNullOptReserved, Advance;
    ghost var c := rel.View();
    RecordWithin(env, p, f1, f2, 0, true, 0);
    var i, k, advance := 0, 0, true;
    while k < |f2|
      invariant i <= |f1| && k <= |f2| && (advance || i > 0)
      invariant AllWithin(env, RecordScan(p, table2, f1, f2, i, advance, k)) && c.visited <= rel.View().visited
      invariant AskAll(env, rel.View(), RecordScan(p, table2, f1, f2, i, advance, k))
             == AskAll(env, c, RecordScan(p, table2, f1, f2, 0, true, 0))
    {
      var g := f2[k];
      k := k + 1;
      if i == |f1| {
        // All remaining fields must be optional.
        if !IsNullOptReserved(table2, g.t) {
          NotesAsked(env, rel.View(), FAIL);
          return false;
        }
        continue;
      }
      if advance {
        i := NextField(f1, i, g.tag);
      }
      if f1[i - 1].tag > g.tag {
        if !IsNullOptReserved(table2, g.t) {
          NotesAsked(env, rel.View(), FAIL);
          return false;
        }
        // Consider the field again in the next round.
        advance := false;
        continue;
      }
      RecordWithin(env, p, f1, f2, i, true, k);
      AskAllBefore(env, rel.View(), Query(p, f1[i - 1].t, g.t), RecordScan(p, table2, f1, f2, i, true, k));
      AskGrows(env, rel.View(), Query(p, f1[i - 1].t, g.t));
      r := Sub(rel, p, table1, table2, f1[i - 1].t, g.t, env);
      if !r {
        return;
      }
      advance := true;
    }
    NotesAsked(env, rel.View(), PASS);
    r := true;
  }

  method SubVariant(rel: Relation, p: bool, table1: Table, table2: Table, f1: seq<Field>, f2: seq<Field>, ghost env: Tables)
    returns (r: bool)
    requires Fits(rel, env, p, table1, table2) && RefsValid(table1, f1) && RefsValid(table2, f2)
    modifies rel.words
    ensures AllWithin(env, VariantScan(p, f1, f2, 0, 0))
    ensures Outcome(r, rel.View()) == AskAll(env, old(rel.View()), VariantScan(p, f1, f2, 0, 0))
    decreases Universe(env) - rel.View().visited, 1
  {
    hide Ask, AskAll, Universe, AllPairs, AllWithin, Marked, Advance;
    ghost var c := rel.View();
    VariantWithin(env, p, f1, f2, 0, 0);
    var i, k := 0, 0;
    while k < |f1|
      invariant i <= |f2| && k <= |f1|
      invariant AllWithin(env, VariantScan(p, f1, f2, k, i)) && c.visited <= rel.View().visited
      invariant AskAll(env, rel.View(), VariantScan(p, f1, f2, k, i)) == AskAll(env, c, VariantScan(p, f1, f2, 0, 0))
    {
      if i == |f2| {
        NotesAsked(env, rel.View(), FAIL);
        return false;
      }
      i := NextField(f2, i, f1[k].tag);
      if f1[k].tag != f2[i - 1].tag {
        NotesAsked(env, rel.View(), FAIL);
        return false;
      }
      VariantWithin(env, p, f1, f2, k + 1, i);
      AskAllBefore(env, rel.View(), Query(p, f1[k].t, f2[i - 1].t), VariantScan(p, f1, f2, k + 1, i));
      AskGrows(env, rel.View(), Query(p, f1[k].t, f2[i - 1].t));
      r := Sub(rel, p, table1, table2, f1[k].t, f2[i - 1].t, env);
      if !r {
        return;
      }
      k := k + 1;
    }
    NotesAsked(env, rel.View(), PASS);
    r := true;
  }

  method SubService(rel: Relation, p: bool, table1: Table, table2: Table, e1: seq<Entry>, e2: seq<Entry>, ghost env: Tables)
    returns (r: bool)
    requires Fits(rel, env, p, table1, table2)
    requires forall j :: 0 <= j < |e1| ==> IsRef(e1[j].t, |table1|)
    requires forall j :: 0 <= j < |e2| ==> IsRef(e2[j].t, |table2|)
    modifies rel.words
    ensures AllWithin(env, ServiceScan(p, e1, e2, 0, 0))
    ensures Outcome(r, rel.View()) == AskAll(env, old(rel.View()), ServiceScan(p, e1, e2, 0, 0))
    decreases Universe(env) - rel.View().visited, 1
  {
    hide Ask, AskAll, Universe, AllPairs, AllWithin, Marked;
    ghost var c := rel.View();
    ServiceWithin(env, p, e1, e2, 0, 0);
    var i, k := 0, 0;
    while k < |e2|
      invariant i <= |e1| && k <= |e2|
      invariant AllWithin(env, ServiceScan(p, e1, e2, k, i)) && c.visited <= rel.View().visited
      invariant AskAll(env, rel.View(), ServiceScan(p, e1, e2, k, i)) == AskAll(env, c, ServiceScan(p, e1, e2, 0, 0))
    {
      if i == |e1| {
        NotesAsked(env, rel.View(), FAIL);
        return false;
      }
      i := NextEntry(e1, i, e2[k].name);
      if Compare(e1[i - 1].name, e2[k].name) != 0 {
        NotesAsked(env, rel.View(), FAIL);
        return false;
      }
      ServiceWithin(env, p, e1, e2, k + 1, i);
      AskAllBefore(env, rel.View(), Query(p, e1[i - 1].t, e2[k].t), ServiceScan(p, e1, e2, k + 1, i));
      AskGrows(env, rel.View(), Query(p, e1[i - 1].t, e2[k].t));
      r := Sub(rel, p, table1, table2, e1[i - 1].t, e2[k].t, env);
      if !r {
        return;
      }
      k := k + 1;
    }
    NotesAsked(env, rel.View(), PASS);
    r := true;
  }

  method NextEntry(e: seq<Entry>, i: nat, name: Name) returns (next: nat)
    requires i < |e|
    ensures i < next <= |e| && next == AdvanceEntry(e, i, name)
  {
    next := i + 1;
    while Compare(e[next - 1].name, name) < 0 && next < |e|
      invariant i < next <= |e| && AdvanceEntry(e, i, name) == AdvanceEntry(e, next - 1, name)
      decreases |e| - next
    {
      next := next + 1;
    }
  }

  /** The entry point, on a cache that has seen any queries: a denial is right, and the answer is exactly
    * whether the types are related if the cache is settled. It stays settled after a success, and a cache
    * that has seen nothing but successes stays such. */
  method IdlSub(rel: Relation, table1: Table, table2: Table, t1: int, t2: int) returns (r: bool)
    requires WellFormed(table1) && WellFormed(table2) && IsRef(t1, |table1|) && IsRef(t2, |table2|)
    requires rel.Valid() && rel.size1 == |table1| && rel.size2 == |table2|
    requires Used(Tables(table1, table2), rel.View())
    modifies rel.words
    ensures var env, q := Tables(table1, table2), Query(true, t1, t2);
      && Outcome(r, rel.View()) == Ask(env, old(rel.View()), q) && Used(env, rel.View())
      && (IdlCheck.Related(env, q) ==> r)
      && (Settled(env, old(rel.View())) ==> (r <==> IdlCheck.Related(env, q)) && (r ==> Settled(env, rel.View())))
      && (Exact(env, old(rel.View())) ==> (r <==> IdlCheck.Related(env, q)) && (r ==> Exact(env, rel.View())))
  {
    hide Ask, Exact, Used, Settled, IdlCheck.Related, Marked, ScanOf;
    ghost var env, q := Tables(table1, table2), Query(true, t1, t2);
    Answer(env, rel.View(), q);
    r := Sub(rel, true, table1, table2, t1, t2, env);
  }

  lemma Answer(env: Tables, c: Cache, q: Query)
    requires env.Valid() && env.Has(q) && Used(env, c)
    ensures Used(env, Ask(env, c, q).cache)
    ensures IdlCheck.Related(env, q) ==> Ask(env, c, q).ok
    ensures Settled(env, c) ==>
      (Ask(env, c, q).ok <==> IdlCheck.Related(env, q)) && (Ask(env, c, q).ok ==> Settled(env, Ask(env, c, q).cache))
    ensures Exact(env, c) ==>
      (Ask(env, c, q).ok <==> IdlCheck.Related(env, q)) && (Ask(env, c, q).ok ==> Exact(env, Ask(env, c, q).cache))
  {
    hide Ask, Exact, Used, Settled, IdlCheck.Related, ScanOf;
    AskKeepsUsed(env, c, q);
    if IdlCheck.Related(env, q) {
      DenialRight(env, c, q);
    }
    if Settled(env, c) && Ask(env, c, q).ok {
      SettledSound(env, c, q);
    }
    if Exact(env, c) {
      AskExact(env, c, q);
    }
  }
}
