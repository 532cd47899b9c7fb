/** The subtype relation of the check, on all types: its rule, one head against another, and the laws
  * that follow.
  */
module IdlLaws {
  import opened IdlTypes
  import opened IdlScan
  import opened IdlRules
  import opened IdlCheck

  // ---------------------------------------------------------------- the rule

  /** Fields and methods come in order, and the fields of two records are such that the scan keeps them apart. */
  ghost predicate Orderly(c1: Con, c2: Con) {
    match (c1, c2)
    case (Record(f1), Record(f2)) => Sorted(f1) && Sorted(f2) && Aligned(f1, f2)
    case (Variant(f1), Variant(f2)) => Sorted(f1) && Sorted(f2)
    case (Service(e1), Service(e2)) => SortedEntries(e1) && SortedEntries(e2)
    case (_, _) => true
  }

  ghost predicate OrderlyHeads(env: Tables, q: Query)
    requires env.Has(q)
  {
    q.t1 >= 0 && q.t2 >= 0 ==> Orderly(env.Left(q.p)[q.t1], env.Right(q.p)[q.t2])
  }

  /** Between two primitive types: equal ones, nat below int, empty below and reserved above all. */
  ghost predicate PrimitiveRule(t1: int, t2: int) {
    t1 == t2 || (t1 == PRIM_NAT && t2 == PRIM_INT) || t1 == PRIM_EMPTY || t2 == PRIM_RESERVED
  }

  /** Between two constructed types, the upper one no option. */
  ghost predicate ConRule(env: Tables, p: bool, c1: Con, c2: Con, related: iset<Query>)
    requires ConInTable(c1, |env.Left(p)|) && ConInTable(c2, |env.Right(p)|)
  {
    match (c1, c2)
    case (Vec(t1), Vec(t2)) => Query(p, t1, t2) in related
    case (Record(f1), Record(f2)) => RecordRule(p, env.Right(p), f1, f2, related, 0)
    case (Variant(f1), Variant(f2)) => forall j :: 0 <= j < |f1| ==> HasAlternative(p, f1[j], f2, related)
    case (Func(ins1, outs1, _), Func(ins2, outs2, _)) =>
      && AllPositional(!p, env.Left(p), ins1, ins2, related)
      && AllPositional(p, env.Right(p), outs2, outs1, related)
      && KnownAnnotations(c1) == KnownAnnotations(c2)
    case (Service(e1), Service(e2)) => forall j :: 0 <= j < |e2| ==> HasEntry(p, e2[j], e1, related)
    case (_, _) => false
  }

  /** What must be related for the left type to be a subtype of the right one. */
  ghost predicate Rule(env: Tables, q: Query, related: iset<Query>)
    requires env.Valid() && env.Has(q)
  {
    if q.t1 < 0 && q.t2 < 0 then PrimitiveRule(q.t1, q.t2)
    else if q.t2 < 0 then
      q.t2 == PRIM_RESERVED || (q.t2 == REF_PRINCIPAL && env.Left(q.p)[q.t1].Service?)
    else if q.t1 < 0 then
      q.t1 == PRIM_EMPTY || env.Right(q.p)[q.t2].Opt?
    else
      || env.Right(q.p)[q.t2].Opt?
      || ConRule(env, q.p, env.Left(q.p)[q.t1], env.Right(q.p)[q.t2], related)
  }

  /** For every pair of heads the scan is the rule. */
  lemma ScanOfExact(env: Tables, q: Query, related: iset<Query>)
    requires env.Valid() && env.Has(q) && OrderlyHeads(env, q)
    ensures Holds(ScanOf(env, q), related) <==> Rule(env, q, related)
  {
    hide ConScan, ConRule, Orderly;
    if q.t1 >= 0 && q.t2 >= 0 && !env.Right(q.p)[q.t2].Opt? {
      assert ConInTable(env.Left(q.p)[q.t1], |env.Left(q.p)|);
      assert ConInTable(env.Right(q.p)[q.t2], |env.Right(q.p)|);
      ConScanExact(env, q.p, env.Left(q.p)[q.t1], env.Right(q.p)[q.t2], related);
    }
  }

  lemma ConScanExact(env: Tables, p: bool, c1: Con, c2: Con, related: iset<Query>)
    requires ConInTable(c1, |env.Left(p)|) && ConInTable(c2, |env.Right(p)|) && Orderly(c1, c2)
    ensures Holds(ConScan(env, p, c1, c2), related) <==> ConRule(env, p, c1, c2, related)
  {
    hide Sorted, Aligned, SortedEntries, RecordRule, AllPositional, HasAlternative, HasEntry, KnownAnnotations;
    hide FuncScan, RecordScan, VariantScan, ServiceScan, NamesBehind, OnTrack;
    match (c1, c2) {
      case (Func(_, _, _), Func(_, _, _)) => FuncScanExact(env, p, c1, c2, related);
      case (Record(f1), Record(f2)) => RecordWhole(p, env.Right(p), f1, f2, related);
      case (Variant(f1), Variant(f2)) => VariantScanExact(p, f1, f2, 0, 0, related);
      case (Service(e1), Service(e2)) => ServiceWhole(p, e1, e2, related);
      case (Vec(t1), Vec(t2)) => assert ConScan(env, p, c1, c2).asks[0] == Query(p, t1, t2);
      case (_, _) =>
    }
  }

  lemma RecordWhole(p: bool, table: Table, f1: seq<Field>, f2: seq<Field>, related: iset<Query>)
    requires Sorted(f1) && Sorted(f2) && Aligned(f1, f2) && RefsValid(table, f2)
    ensures Holds(RecordScan(p, table, f1, f2, 0, true, 0), related) <==> RecordRule(p, table, f1, f2, related, 0)
  {
    hide RecordScan, RecordRule, Aligned, Sorted;
    RecordScanAligned(p, table, f1, f2, 0, true, 0, related);
  }

  lemma ServiceWhole(p: bool, e1: seq<Entry>, e2: seq<Entry>, related: iset<Query>)
    requires SortedEntries(e1) && SortedEntries(e2)
    ensures Holds(ServiceScan(p, e1, e2, 0, 0), related) <==> forall j :: 0 <= j < |e2| ==> HasEntry(p, e2[j], e1, related)
  {
    hide ServiceScan, SortedEntries, HasEntry;
    ServiceScanExact(p, e1, e2, 0, 0, related);
  }

  // ---------------------------------------------------------------- laws

  /** The relation unfolds by the rule. */
  lemma RelatedRule(env: Tables, q: Query)
    requires env.Valid() && env.Has(q) && OrderlyHeads(env, q)
    ensures Related(env, q) <==> Rule(env, q, AllRelated(env))
  {
    hide Rule, Related, ScanOf, Holds, OrderlyHeads, AllRelated;
    RelatedUnfolds(env, q);
    ScanOfExact(env, q, AllRelated(env));
  }

  /** The whole table of primitive types. */
  lemma PrimitivesRelated(env: Tables, p: bool, t1: int, t2: int)
    requires env.Valid() && IsPrimitive(t1) && IsPrimitive(t2)
    ensures Related(env, Query(p, t1, t2)) <==> PrimitiveRule(t1, t2)
  {
    hide Related, AllRelated;
    RelatedRule(env, Query(p, t1, t2));
  }

  lemma NatBelowInt(env: Tables, p: bool)
    requires env.Valid()
    ensures Related(env, Query(p, PRIM_NAT, PRIM_INT)) && !Related(env, Query(p, PRIM_INT, PRIM_NAT))
  {
    hide Related;
    PrimitivesRelated(env, p, PRIM_NAT, PRIM_INT);
    PrimitivesRelated(env, p, PRIM_INT, PRIM_NAT);
  }

  /** Below every type is empty, and above every type are reserved and all options. */
  lemma LeastAndGreatest(env: Tables, p: bool, t1: int, t2: int)
    requires env.Valid() && IsRef(t1, |env.Left(p)|) && IsRef(t2, |env.Right(p)|)
    ensures Related(env, Query(p, PRIM_EMPTY, t2)) && Related(env, Query(p, t1, PRIM_RESERVED))
    ensures t2 >= 0 && env.Right(p)[t2].Opt? ==> Related(env, Query(p, t1, t2))
  {
    hide Related, AllRelated, ConRule;
    RelatedRule(env, Query(p, PRIM_EMPTY, t2));
    RelatedRule(env, Query(p, t1, PRIM_RESERVED));
    if t2 >= 0 && env.Right(p)[t2].Opt? {
      RelatedRule(env, Query(p, t1, t2));
    }
  }

  /** Nothing but empty is below empty, and nothing but reserved and options is above reserved. */
  lemma OnlyEmptyBelow(env: Tables, q: Query)
    requires env.Valid() && env.Has(q) && Related(env, q)
    ensures q.t2 == PRIM_EMPTY ==> q.t1 == PRIM_EMPTY
    ensures q.t1 == PRIM_RESERVED ==> q.t2 == PRIM_RESERVED || (q.t2 >= 0 && env.Right(q.p)[q.t2].Opt?)
  {
    hide Related, AllRelated, ConRule;
    if q.t1 < 0 || q.t2 < 0 {
      RelatedRule(env, q);
    }
  }

  /** Vectors are covariant. */
  lemma VectorsRelated(env: Tables, p: bool, t1: nat, t2: nat)
    requires env.Valid() && t1 < |env.Left(p)| && t2 < |env.Right(p)| && env.Left(p)[t1].Vec? && env.Right(p)[t2].Vec?
    ensures Related(env, Query(p, t1, t2)) <==> Related(env, Query(p, env.Left(p)[t1].t, env.Right(p)[t2].t))
  {
    hide Related;
    assert ConInTable(env.Left(p)[t1], |env.Left(p)|) && ConInTable(env.Right(p)[t2], |env.Right(p)|);
    RelatedRule(env, Query(p, t1, t2));
  }

  /** Different constructors are unrelated, but for options above everything. */
  lemma ConstructorsApart(env: Tables, p: bool, t1: nat, t2: nat)
    requires env.Valid() && t1 < |env.Left(p)| && t2 < |env.Right(p)|
    requires Opcode(env.Left(p)[t1]) != Opcode(env.Right(p)[t2])
    ensures Related(env, Query(p, t1, t2)) <==> env.Right(p)[t2].Opt?
  {
    hide Related;
    RelatedRule(env, Query(p, t1, t2));
  }

  // ---------------------------------------------------------------- reflexivity

  ghost predicate OrderlyTable(table: Table) {
    forall k :: 0 <= k < |table| ==>
      match table[k]
      case Record(fields) => Sorted(fields)
      case Variant(fields) => Sorted(fields)
      case Service(entries) => SortedEntries(entries)
      case _ => true
  }

  ghost predicate ComponentsIn(c: Con, s: iset<int>) {
    match c
    case Opt(_) => true
    case Vec(t) => t in s
    case Record(fields) => forall k :: 0 <= k < |fields| ==> fields[k].t in s
    case Variant(fields) => forall k :: 0 <= k < |fields| ==> fields[k].t in s
    case Func(ins, outs, _) => (forall k :: 0 <= k < |ins| ==> ins[k] in s) && (forall k :: 0 <= k < |outs| ==> outs[k] in s)
    case Service(entries) => forall k :: 0 <= k < |entries| ==> entries[k].t in s
    case Future(_) => false
  }

  /** No future type is met from the types of the set, except behind options. */
  ghost predicate Known(table: Table, s: iset<int>) {
    forall t :: t in s ==> IsRef(t, |table|) && (t >= 0 ==> ComponentsIn(table[t], s))
  }

  ghost predicate WithoutFuture(table: Table, t: int) {
    exists s: iset<int> :: Known(table, s) && t in s
  }

  lemma SelfAligned(f: seq<Field>)
    requires Sorted(f)
    ensures Aligned(f, f)
  {
    forall m | 0 <= m < |f|
      ensures AlignedAt(f, f, m)
    {
      assert HasTag(f, f[m].tag);
      forall j | 0 <= j < |f|
        ensures !(f[j].tag < f[m].tag && (m > 0 ==> f[m - 1].tag < f[j].tag))
      {
        assert j < m ==> j == m - 1 || f[j].tag < f[m - 1].tag;
      }
    }
  }

  lemma SelfOrderly(env: Tables, q: Query)
    requires env.Valid() && env.first == env.second && OrderlyTable(env.first) && env.Has(q) && q.t1 == q.t2
    ensures OrderlyHeads(env, q)
  {
    hide Sorted, SortedEntries, Aligned;
    if q.t1 >= 0 && env.first[q.t1].Record? {
      SelfAligned(env.first[q.t1].fields);
    }
  }

  /** A type is a subtype of itself if and only if no future type is met in it, except behind options. */
  lemma ReflexiveExact(env: Tables, p: bool, t: int)
    requires env.Valid() && env.first == env.second && OrderlyTable(env.first) && IsRef(t, |env.first|)
    ensures Related(env, Query(p, t, t)) <==> WithoutFuture(env.first, t)
  {
    hide ScanOf, Holds, OrderlyTable, Known;
    if WithoutFuture(env.first, t) {
      var s: iset<int> :| Known(env.first, s) && t in s;
      KnownRelated(env, s, p, t);
    }
    if Related(env, Query(p, t, t)) {
      SelfRelatedKnown(env);
      assert t in SelfRelated(env);
    }
  }

  ghost function Diagonal(s: iset<int>): iset<Query> {
    iset q: Query | q.t1 == q.t2 && q.t1 in s
  }

  lemma KnownRelated(env: Tables, s: iset<int>, p: bool, t: int)
    requires env.Valid() && env.first == env.second && OrderlyTable(env.first) && Known(env.first, s) && t in s
    ensures Related(env, Query(p, t, t))
  {
    hide ScanOf, Holds, Rule, OrderlyTable;
    forall q | q in Diagonal(s)
      ensures env.Has(q) && Holds(ScanOf(env, q), Diagonal(s))
    {
      SelfOrderly(env, q);
      ScanOfExact(env, q, Diagonal(s));
      DiagonalRule(env, s, q);
    }
    assert Consistent(env, Diagonal(s));
  }

  lemma DiagonalRule(env: Tables, s: iset<int>, q: Query)
    requires env.Valid() && env.first == env.second && Known(env.first, s) && q in Diagonal(s) && env.Has(q)
    ensures Rule(env, q, Diagonal(s))
  {
    hide ConRule, ComponentsIn;
    if q.t1 >= 0 && !env.first[q.t1].Opt? {
      assert ConInTable(env.first[q.t1], |env.first|);
      DiagonalCon(env, s, q.p, env.first[q.t1]);
    }
  }

  lemma DiagonalCon(env: Tables, s: iset<int>, p: bool, c: Con)
    requires env.first == env.second && ConInTable(c, |env.first|) && ComponentsIn(c, s) && !c.Opt?
    ensures ConRule(env, p, c, c, Diagonal(s))
  {
    match c {
      case Record(f) =>
        forall j | 0 <= j < |f|
          ensures Supplied(p, env.Right(p), f[j], f, Diagonal(s))
        {
          assert f[j].tag == f[j].tag && Query(p, f[j].t, f[j].t) in Diagonal(s);
        }
      case Variant(f) =>
        forall j | 0 <= j < |f|
          ensures HasAlternative(p, f[j], f, Diagonal(s))
        {
          assert f[j].tag == f[j].tag && Query(p, f[j].t, f[j].t) in Diagonal(s);
        }
      case Service(e) =>
        forall j | 0 <= j < |e|
          ensures HasEntry(p, e[j], e, Diagonal(s))
        {
          assert e[j].name == e[j].name && Query(p, e[j].t, e[j].t) in Diagonal(s);
        }
      case _ =>
    }
  }

  ghost function SelfRelated(env: Tables): iset<int>
    requires env.Valid()
  {
    iset t, p | IsRef(t, |env.first|) && IsRef(t, |env.second|) && Related(env, Query(p, t, t)) :: t
  }

  lemma SelfRelatedFields(env: Tables, p: bool, t: nat)
    requires env.Valid() && env.first == env.second && OrderlyTable(env.first) && t < |env.first|
    requires env.first[t].Record? && Rule(env, Query(p, t, t), AllRelated(env))
    ensures ComponentsIn(env.first[t], SelfRelated(env))
  {
    hide Related;
    var f := env.first[t].fields;
    assert ConInTable(env.first[t], |env.first|);
    forall j | 0 <= j < |f|
      ensures f[j].t in SelfRelated(env)
    {
      assert HasTag(f, f[j].tag);
      assert Supplied(p, env.Right(p), f[j], f, AllRelated(env));
      var m :| 0 <= m < |f| && f[m].tag == f[j].tag && Query(p, f[m].t, f[j].t) in AllRelated(env);
      assert m == j;
    }
  }

  lemma SelfRelatedAlternatives(env: Tables, p: bool, t: nat)
    requires env.Valid() && env.first == env.second && OrderlyTable(env.first) && t < |env.first|
    requires env.first[t].Variant? && Rule(env, Query(p, t, t), AllRelated(env))
    ensures ComponentsIn(env.first[t], SelfRelated(env))
  {
    hide Related;
    var f := env.first[t].fields;
    assert ConInTable(env.first[t], |env.first|);
    forall j | 0 <= j < |f|
      ensures f[j].t in SelfRelated(env)
    {
      assert HasAlternative(p, f[j], f, AllRelated(env));
      var m :| 0 <= m < |f| && f[m].tag == f[j].tag && Query(p, f[j].t, f[m].t) in AllRelated(env);
      assert m == j;
    }
  }

  lemma SelfRelatedEntries(env: Tables, p: bool, t: nat)
    requires env.Valid() && env.first == env.second && OrderlyTable(env.first) && t < |env.first|
    requires env.first[t].Service? && Rule(env, Query(p, t, t), AllRelated(env))
    ensures ComponentsIn(env.first[t], SelfRelated(env))
  {
    hide Related;
    var e := env.first[t].entries;
    assert ConInTable(env.first[t], |env.first|);
    forall j | 0 <= j < |e|
      ensures e[j].t in SelfRelated(env)
    {
      assert HasEntry(p, e[j], e, AllRelated(env));
      var m :| 0 <= m < |e| && e[m].name == e[j].name && Query(p, e[m].t, e[j].t) in AllRelated(env);
      assert m == j;
    }
  }

  lemma SelfRelatedFunc(env: Tables, p: bool, t: nat)
    requires env.Valid() && env.first == env.second && OrderlyTable(env.first) && t < |env.first|
    requires env.first[t].Func? && Rule(env, Query(p, t, t), AllRelated(env))
    ensures ComponentsIn(env.first[t], SelfRelated(env))
  {
    hide Related;
    var ins, outs := env.first[t].ins, env.first[t].outs;
    assert ConInTable(env.first[t], |env.first|);
    forall j | 0 <= j < |ins|
      ensures ins[j] in SelfRelated(env)
    {
      assert Positional(!p, env.Left(p), ins, ins, AllRelated(env), j);
    }
    forall j | 0 <= j < |outs|
      ensures outs[j] in SelfRelated(env)
    {
      assert Positional(p, env.Right(p), outs, outs, AllRelated(env), j);
    }
  }

  lemma SelfRelatedCon(env: Tables, p: bool, t: nat)
    requires env.Valid() && env.first == env.second && OrderlyTable(env.first) && t < |env.first|
    requires Rule(env, Query(p, t, t), AllRelated(env))
    ensures ComponentsIn(env.first[t], SelfRelated(env))
  {
    hide Related, OrderlyTable;
    match env.first[t] {
      case Record(_) => SelfRelatedFields(env, p, t);
      case Variant(_) => SelfRelatedAlternatives(env, p, t);
      case Service(_) => SelfRelatedEntries(env, p, t);
      case Func(_, _, _) => SelfRelatedFunc(env, p, t);
      case _ =>
    }
  }

  lemma SelfRelatedKnown(env: Tables)
    requires env.Valid() && env.first == env.second && OrderlyTable(env.first)
    ensures Known(env.first, SelfRelated(env))
  {
    hide Rule, Related, ComponentsIn, OrderlyTable, AllRelated;
    forall t | t in SelfRelated(env) && t >= 0
      ensures ComponentsIn(env.first[t], SelfRelated(env))
    {
      var p :| Related(env, Query(p, t, t));
      SelfOrderly(env, Query(p, t, t));
      RelatedRule(env, Query(p, t, t));
      SelfRelatedCon(env, p, t);
    }
  }
}
