/** The scans against the declarative rules of structural subtyping.
  *
  * `related` is any set of pairs; a scan holds in it when it asks for nothing outside of it. For
  * functions, variants and services the scan is the rule. For records it is not: the scan may
  * compare two fields with different tags, or forget a field that it has put back. `Aligned` is the
  * exact condition on the tags under which it does not.
  */
module IdlRules {
  import opened IdlTypes
  import opened IdlScan

  ghost predicate Holds(s: Scan, related: iset<Query>) {
    s.ok && forall k :: 0 <= k < |s.asks| ==> s.asks[k] in related
  }

  lemma HoldsBefore(q: Query, s: Scan, related: iset<Query>)
    ensures Holds(Before(q, s), related) <==> q in related && Holds(s, related)
  {
    var t := Before(q, s);
    assert t.asks[0] == q;
    assert forall k :: 0 <= k < |s.asks| ==> t.asks[k + 1] == s.asks[k];
    assert forall k :: 0 < k < |t.asks| ==> t.asks[k] == s.asks[k - 1];
  }

  lemma HoldsThen(s: Scan, t: Scan, related: iset<Query>)
    ensures Holds(Then(s, t), related) <==> Holds(s, related) && Holds(t, related)
  {
    var u := Then(s, t);
    if s.ok {
      assert forall k :: 0 <= k < |s.asks| ==> u.asks[k] == s.asks[k];
      assert forall k :: 0 <= k < |t.asks| ==> u.asks[|s.asks| + k] == t.asks[k];
    }
  }

  ghost predicate Sorted(f: seq<Field>) {
    forall i, j :: 0 <= i < j < |f| ==> f[i].tag < f[j].tag
  }

  ghost predicate HasTag(f: seq<Field>, tag: nat) {
    exists j :: 0 <= j < |f| && f[j].tag == tag
  }

  lemma AdvanceStops(f: seq<Field>, i: nat, tag: nat)
    requires i < |f|
    ensures var next := Advance(f, i, tag);
            && (forall m :: i <= m < next - 1 ==> f[m].tag < tag)
            && (f[next - 1].tag < tag ==> next == |f|)
    decreases |f| - i
  {
    if f[i].tag < tag && i + 1 < |f| {
      AdvanceStops(f, i + 1, tag);
    }
  }

  /** A value of the type may be missing: the type is null, reserved, or an option. */
  ghost predicate Omissible(table: Table, t: int) {
    t == PRIM_NULL || t == PRIM_RESERVED || (0 <= t < |table| && table[t].Opt?)
  }

  // ---------------------------------------------------------------- functions

  /** Parameter `j` of `xs` is matched by position; one without a partner must be optional. */
  ghost predicate Positional(p: bool, table: Table, xs: seq<int>, ys: seq<int>, related: iset<Query>, j: nat)
    requires j < |xs| && IsRef(xs[j], |table|)
  {
    if j < |ys| then Query(p, ys[j], xs[j]) in related else Omissible(table, xs[j])
  }

  ghost predicate AllPositional(p: bool, table: Table, xs: seq<int>, ys: seq<int>, related: iset<Query>)
    requires forall j :: 0 <= j < |xs| ==> IsRef(xs[j], |table|)
  {
    forall j :: 0 <= j < |xs| ==> Positional(p, table, xs, ys, related, j)
  }

  lemma {:induction false} PositionalScanExact(p: bool, table: Table, xs: seq<int>, ys: seq<int>, k: nat, related: iset<Query>)
    requires k <= |xs| && forall j :: 0 <= j < |xs| ==> IsRef(xs[j], |table|)
    ensures Holds(PositionalScan(p, table, xs, ys, k), related) <==>
              forall j :: k <= j < |xs| ==> Positional(p, table, xs, ys, related, j)
    decreases |xs| - k
  {
    if k < |xs| {
      PositionalScanExact(p, table, xs, ys, k + 1, related);
      assert (forall j :: k <= j < |xs| ==> Positional(p, table, xs, ys, related, j)) <==>
             Positional(p, table, xs, ys, related, k) && forall j :: k + 1 <= j < |xs| ==> Positional(p, table, xs, ys, related, j);
      if k < |ys| {
        HoldsBefore(Query(p, ys[k], xs[k]), PositionalScan(p, table, xs, ys, k + 1), related);
      }
    }
  }

  /** Which of the annotations 1, 2 and 3 are present. */
  function KnownAnnotations(c: Con): set<nat>
    requires c.Func?
  {
    set k | 0 <= k < |c.annotations| && 1 <= c.annotations[k] <= 3 :: c.annotations[k]
  }

  /** Contravariant in the parameters, covariant in the results, with the same annotations. */
  lemma FuncScanExact(env: Tables, p: bool, c1: Con, c2: Con, related: iset<Query>)
    requires c1.Func? && ConInTable(c1, |env.Left(p)|)
    requires c2.Func? && ConInTable(c2, |env.Right(p)|)
    ensures Holds(FuncScan(env, p, c1, c2), related) <==>
              && AllPositional(!p, env.Left(p), c1.ins, c2.ins, related)
              && AllPositional(p, env.Right(p), c2.outs, c1.outs, related)
              && KnownAnnotations(c1) == KnownAnnotations(c2)
  {
    var ins := PositionalScan(!p, env.Left(p), c1.ins, c2.ins, 0);
    var outs := PositionalScan(p, env.Right(p), c2.outs, c1.outs, 0);
    var notes := if Annotations(c1.annotations) == Annotations(c2.annotations) then PASS else FAIL;
    PositionalScanExact(!p, env.Left(p), c1.ins, c2.ins, 0, related);
    PositionalScanExact(p, env.Right(p), c2.outs, c1.outs, 0, related);
    HoldsThen(outs, notes, related);
    HoldsThen(ins, Then(outs, notes), related);
    var a1, a2 := KnownAnnotations(c1), KnownAnnotations(c2);
    assert Annotations(c1.annotations) == (1 in a1, 2 in a1, 3 in a1);
    assert Annotations(c2.annotations) == (1 in a2, 2 in a2, 3 in a2);
  }

  // ---------------------------------------------------------------- variants

  /** Some alternative of `f2` has the tag of `f` and a related type. */
  ghost predicate HasAlternative(p: bool, f: Field, f2: seq<Field>, related: iset<Query>) {
    exists m :: 0 <= m < |f2| && f2[m].tag == f.tag && Query(p, f.t, f2[m].t) in related
  }

  lemma {:induction false} VariantScanExact(p: bool, f1: seq<Field>, f2: seq<Field>, k: nat, i: nat, related: iset<Query>)
    requires Sorted(f1) && Sorted(f2) && k <= |f1| && i <= |f2|
    requires forall m, j :: 0 <= m < i && k <= j < |f1| ==> f2[m].tag < f1[j].tag
    ensures Holds(VariantScan(p, f1, f2, k, i), related) <==>
              forall j :: k <= j < |f1| ==> HasAlternative(p, f1[j], f2, related)
    decreases |f1| - k
  {
    if k < |f1| && i < |f2| {
      var next := Advance(f2, i, f1[k].tag);
      AdvanceStops(f2, i, f1[k].tag);
      if f1[k].tag == f2[next - 1].tag {
        VariantScanExact(p, f1, f2, k + 1, next, related);
        HoldsBefore(Query(p, f1[k].t, f2[next - 1].t), VariantScan(p, f1, f2, k + 1, next), related);
      } else {
        assert !HasAlternative(p, f1[k], f2, related);
      }
    } else if k < |f1| {
      assert !HasAlternative(p, f1[k], f2, related);
    }
  }

  // ---------------------------------------------------------------- services

  ghost predicate SortedEntries(e: seq<Entry>) {
    forall i, j :: 0 <= i < j < |e| ==> Compare(e[i].name, e[j].name) < 0
  }

  ghost predicate HasEntry(p: bool, e: Entry, e1: seq<Entry>, related: iset<Query>) {
    exists m :: 0 <= m < |e1| && e1[m].name == e.name && Query(p, e1[m].t, e.t) in related
  }

  lemma AdvanceEntryStops(e: seq<Entry>, i: nat, name: Name)
    requires i < |e|
    ensures var next := AdvanceEntry(e, i, name);
            && (forall m :: i <= m < next - 1 ==> Compare(e[m].name, name) < 0)
            && (Compare(e[next - 1].name, name) < 0 ==> next == |e|)
    decreases |e| - i
  {
    if Compare(e[i].name, name) < 0 && i + 1 < |e| {
      AdvanceEntryStops(e, i + 1, name);
    }
  }

  /** All names of `e1[..i]` come before all names of `e2[k..]`. */
  ghost predicate NamesBehind(e1: seq<Entry>, e2: seq<Entry>, i: nat, k: nat)
    requires i <= |e1|
  {
    forall m, j :: 0 <= m < i && k <= j < |e2| ==> Compare(e1[m].name, e2[j].name) < 0
  }

  lemma NamesBehindStep(e1: seq<Entry>, e2: seq<Entry>, next: nat, k: nat)
    requires SortedEntries(e2) && k < |e2| && 0 < next <= |e1| && e1[next - 1].name == e2[k].name
    requires forall m :: 0 <= m < next - 1 ==> Compare(e1[m].name, e2[k].name) < 0
    ensures NamesBehind(e1, e2, next, k + 1)
  {
    hide Compare;
    forall m, j | 0 <= m < next && k + 1 <= j < |e2|
      ensures Compare(e1[m].name, e2[j].name) < 0
    {
      assert Compare(e2[k].name, e2[j].name) < 0;
      if m < next - 1 {
        CompareTransitive(e1[m].name, e2[k].name, e2[j].name);
      }
    }
  }

  lemma {:induction false} ServiceScanExact(p: bool, e1: seq<Entry>, e2: seq<Entry>, k: nat, i: nat, related: iset<Query>)
    requires SortedEntries(e1) && SortedEntries(e2) && k <= |e2| && i <= |e1| && NamesBehind(e1, e2, i, k)
    ensures Holds(ServiceScan(p, e1, e2, k, i), related) <==>
              forall j :: k <= j < |e2| ==> HasEntry(p, e2[j], e1, related)
    decreases |e2| - k
  {
    hide Compare, SortedEntries, HasEntry;
    if k < |e2| {
      EntriesSplit(p, e1, e2, k, related);
      if i == |e1| {
        NoEntry(p, e1, e2, k, related);
      } else {
        var next := AdvanceEntry(e1, i, e2[k].name);
        AdvanceEntryStops(e1, i, e2[k].name);
        if e1[next - 1].name == e2[k].name {
          NamesBehindStep(e1, e2, next, k);
          ServiceScanExact(p, e1, e2, k + 1, next, related);
          HoldsBefore(Query(p, e1[next - 1].t, e2[k].t), ServiceScan(p, e1, e2, k + 1, next), related);
          EntryFound(p, e2[k], e1, next - 1, related);
        } else {
          EntryMissing(p, e2[k], e1, next, related);
        }
      }
    }
  }

  lemma EntriesSplit(p: bool, e1: seq<Entry>, e2: seq<Entry>, k: nat, related: iset<Query>)
    requires k < |e2|
    ensures (forall j :: k <= j < |e2| ==> HasEntry(p, e2[j], e1, related)) <==>
              HasEntry(p, e2[k], e1, related) && forall j :: k + 1 <= j < |e2| ==> HasEntry(p, e2[j], e1, related)
  {
    hide HasEntry;
  }

  lemma NoEntry(p: bool, e1: seq<Entry>, e2: seq<Entry>, k: nat, related: iset<Query>)
    requires k < |e2| && NamesBehind(e1, e2, |e1|, k)
    ensures !HasEntry(p, e2[k], e1, related)
  {
  }

  lemma EntryFound(p: bool, e: Entry, e1: seq<Entry>, m: nat, related: iset<Query>)
    requires SortedEntries(e1) && m < |e1| && e1[m].name == e.name
    ensures HasEntry(p, e, e1, related) <==> Query(p, e1[m].t, e.t) in related
  {
    forall n | 0 <= n < |e1| && n != m
      ensures e1[n].name != e.name
    {
      assert Compare(e1[if n < m then n else m].name, e1[if n < m then m else n].name) < 0;
    }
  }

  lemma EntryMissing(p: bool, e: Entry, e1: seq<Entry>, next: nat, related: iset<Query>)
    requires SortedEntries(e1) && 0 < next <= |e1| && e1[next - 1].name != e.name
    requires forall m :: 0 <= m < next - 1 ==> Compare(e1[m].name, e.name) < 0
    requires Compare(e1[next - 1].name, e.name) < 0 ==> next == |e1|
    ensures !HasEntry(p, e, e1, related)
  {
    forall m | 0 <= m < |e1|
      ensures e1[m].name != e.name
    {
      if m >= next {
        CompareAntisymmetric(e1[next - 1].name, e.name);
        CompareAntisymmetric(e.name, e1[next - 1].name);
        CompareTransitive(e.name, e1[next - 1].name, e1[m].name);
      }
    }
  }

  // ---------------------------------------------------------------- records

  /** Field `f` of the supertype has a related counterpart, or is optional and has none. */
  ghost predicate Supplied(p: bool, table: Table, f: Field, f1: seq<Field>, related: iset<Query>)
    requires IsRef(f.t, |table|)
  {
    || (exists m :: 0 <= m < |f1| && f1[m].tag == f.tag && Query(p, f1[m].t, f.t) in related)
    || (!HasTag(f1, f.tag) && Omissible(table, f.t))
  }

  ghost predicate RefsValid(table: Table, f: seq<Field>) {
    forall j :: 0 <= j < |f| ==> IsRef(f[j].t, |table|)
  }

  ghost predicate RecordRule(p: bool, table: Table, f1: seq<Field>, f2: seq<Field>, related: iset<Query>, k: nat)
    requires RefsValid(table, f2)
  {
    forall j :: k <= j < |f2| ==> Supplied(p, table, f2[j], f1, related)
  }

  /** Some tag of `f2` lies between field `m` of `f1` and its predecessor. */
  ghost predicate Gap(f1: seq<Field>, f2: seq<Field>, m: nat)
    requires m < |f1|
  {
    exists j :: 0 <= j < |f2| && f2[j].tag < f1[m].tag && (m > 0 ==> f1[m - 1].tag < f2[j].tag)
  }

  ghost predicate Beyond(f2: seq<Field>, tag: nat) {
    exists j :: 0 <= j < |f2| && f2[j].tag > tag
  }

  /** A field that the scan reads too early is compared with its counterpart in the end. The last
    * field must not be read too early when it has a counterpart, and must be read at all before
    * tags beyond it. */
  ghost predicate AlignedAt(f1: seq<Field>, f2: seq<Field>, m: nat)
    requires m < |f1|
  {
    var tag := f1[m].tag;
    if m + 1 < |f1| then
      Gap(f1, f2, m) && Beyond(f2, tag) ==> HasTag(f2, tag)
    else if Gap(f1, f2, m) then
      !HasTag(f2, tag)
    else
      Beyond(f2, tag) ==> HasTag(f2, tag)
  }

  ghost predicate Aligned(f1: seq<Field>, f2: seq<Field>) {
    forall m :: 0 <= m < |f1| ==> AlignedAt(f1, f2, m)
  }

  /** Where the scan stands as long as it has gone right: the last field read has just been matched,
    * or has been put back because it lies beyond the last tag of `f2` seen. */
  ghost predicate OnTrack(f1: seq<Field>, f2: seq<Field>, i: nat, advance: bool, k: nat) {
    && i <= |f1| && k <= |f2| && (advance || i > 0)
    && (forall m, j :: 0 <= m < (if advance then i else i - 1) && k <= j < |f2| ==> f1[m].tag < f2[j].tag)
    && (advance && i == 0 ==> k == 0 || |f1| == 0)
    && (advance && i > 0 ==> k > 0 && f2[k - 1].tag == f1[i - 1].tag)
    && (!advance ==> k > 0 && f2[k - 1].tag < f1[i - 1].tag && (i > 1 ==> f1[i - 2].tag < f2[k - 1].tag))
  }

  /** After the last field of `f1` has been read, the rest must be optional. */
  lemma {:induction false} TailScan(p: bool, table: Table, f1: seq<Field>, f2: seq<Field>, advance: bool, k: nat)
    requires k <= |f2| && (advance || |f1| > 0) && RefsValid(table, f2)
    ensures var s := RecordScan(p, table, f1, f2, |f1|, advance, k);
            s.asks == [] && (s.ok <==> forall j :: k <= j < |f2| ==> Omissible(table, f2[j].t))
    decreases |f2| - k
  {
    if k < |f2| {
      TailScan(p, table, f1, f2, advance, k + 1);
    }
  }

  /** The next position of the scan, and whether it is a match. */
  lemma TrackStep(f1: seq<Field>, f2: seq<Field>, i: nat, advance: bool, k: nat) returns (next: nat)
    requires Sorted(f1) && Sorted(f2) && OnTrack(f1, f2, i, advance, k) && k < |f2| && i < |f1|
    ensures next == if advance then Advance(f1, i, f2[k].tag) else i
    ensures 0 < next <= |f1|
    ensures f1[next - 1].tag > f2[k].tag ==> OnTrack(f1, f2, next, false, k + 1) && !HasTag(f1, f2[k].tag)
    ensures f1[next - 1].tag == f2[k].tag ==> OnTrack(f1, f2, next, true, k + 1)
    ensures f1[next - 1].tag < f2[k].tag ==> !AlignedAt(f1, f2, next - 1) && !HasTag(f2, f1[next - 1].tag)
  {
    next := if advance then Advance(f1, i, f2[k].tag) else i;
    if advance {
      AdvanceStops(f1, i, f2[k].tag);
    }
    if f1[next - 1].tag < f2[k].tag {
      forall j | 0 <= j < |f2|
        ensures f2[j].tag != f1[next - 1].tag
        ensures advance ==> !(f2[j].tag < f1[next - 1].tag && (next > 1 ==> f1[next - 2].tag < f2[j].tag))
      {
        if j < k {
          assert f2[j].tag <= f2[k - 1].tag;
        } else {
          assert f2[k].tag <= f2[j].tag;
        }
      }
    }
  }

  /** What is left when all fields of `f1` have been read. */
  lemma TailAligned(p: bool, table: Table, f1: seq<Field>, f2: seq<Field>, advance: bool, k: nat, related: iset<Query>)
    requires Sorted(f1) && Sorted(f2) && Aligned(f1, f2) && RefsValid(table, f2) && OnTrack(f1, f2, |f1|, advance, k)
    ensures Holds(RecordScan(p, table, f1, f2, |f1|, advance, k), related) <==> RecordRule(p, table, f1, f2, related, k)
  {
    hide RecordScan, Aligned;
    TailScan(p, table, f1, f2, advance, k);
    if !advance {
      assert AlignedAt(f1, f2, |f1| - 1) by {
        AlignedEverywhere(f1, f2, |f1| - 1);
      }
      assert Gap(f1, f2, |f1| - 1);
    }
    forall j | k <= j < |f2|
      ensures !HasTag(f1, f2[j].tag)
    {
    }
  }

  lemma AlignedEverywhere(f1: seq<Field>, f2: seq<Field>, m: nat)
    requires Aligned(f1, f2) && m < |f1|
    ensures AlignedAt(f1, f2, m)
  {
  }

  /** On aligned tags the scan is the declarative rule. */
  lemma {:induction false} RecordScanAligned(p: bool, table: Table, f1: seq<Field>, f2: seq<Field>, i: nat, advance: bool, k: nat, related: iset<Query>)
    requires Sorted(f1) && Sorted(f2) && Aligned(f1, f2) && RefsValid(table, f2)
    requires i <= |f1| && k <= |f2| && (advance || i > 0) && OnTrack(f1, f2, i, advance, k)
    ensures Holds(RecordScan(p, table, f1, f2, i, advance, k), related) <==> RecordRule(p, table, f1, f2, related, k)
    decreases |f2| - k
  {
    hide Sorted, Aligned, AlignedAt, OnTrack, Supplied;
    if k == |f2| {
    } else if i == |f1| {
      TailAligned(p, table, f1, f2, advance, k, related);
    } else {
      var next := TrackStep(f1, f2, i, advance, k);
      AlignedEverywhere(f1, f2, next - 1);
      RuleSplit(p, table, f1, f2, k, related);
      if f1[next - 1].tag > f2[k].tag {
        RecordScanAligned(p, table, f1, f2, next, false, k + 1, related);
        MissingField(p, table, f1, f2, k, related);
      } else {
        RecordScanAligned(p, table, f1, f2, next, true, k + 1, related);
        HoldsBefore(Query(p, f1[next - 1].t, f2[k].t), RecordScan(p, table, f1, f2, next, true, k + 1), related);
        MatchedField(p, table, f1, f2, k, next - 1, related);
      }
    }
  }

  lemma RuleSplit(p: bool, table: Table, f1: seq<Field>, f2: seq<Field>, k: nat, related: iset<Query>)
    requires RefsValid(table, f2) && k < |f2|
    ensures RecordRule(p, table, f1, f2, related, k) <==>
              Supplied(p, table, f2[k], f1, related) && RecordRule(p, table, f1, f2, related, k + 1)
  {
    hide Supplied;
  }

  lemma MissingField(p: bool, table: Table, f1: seq<Field>, f2: seq<Field>, k: nat, related: iset<Query>)
    requires RefsValid(table, f2) && k < |f2| && !HasTag(f1, f2[k].tag)
    ensures Supplied(p, table, f2[k], f1, related) <==> Omissible(table, f2[k].t)
  {
  }

  lemma MatchedField(p: bool, table: Table, f1: seq<Field>, f2: seq<Field>, k: nat, m: nat, related: iset<Query>)
    requires Sorted(f1) && RefsValid(table, f2) && k < |f2| && m < |f1| && f1[m].tag == f2[k].tag
    ensures Supplied(p, table, f2[k], f1, related) <==> Query(p, f1[m].t, f2[k].t) in related
  {
  }

  // ---------------------------------------------------------------- the condition is exact

  ghost predicate SameTags(f: seq<Field>, g: seq<Field>) {
    |f| == |g| && forall k :: 0 <= k < |f| ==> f[k].tag == g[k].tag
  }

  /** Whatever the types of the fields and whatever is related, the scan holds as the rule does. */
  ghost predicate ScanIsRule(f1: seq<Field>, f2: seq<Field>) {
    forall p, table, g1, g2, related: iset<Query> ::
      SameTags(f1, g1) && SameTags(f2, g2) && RefsValid(table, g2) ==>
        (Holds(RecordScan(p, table, g1, g2, 0, true, 0), related) <==> RecordRule(p, table, g1, g2, related, 0))
  }

  const PROBE: int := -5
  const OTHER: int := -2

  /** Types that make a comparison with field `m` visible. */
  ghost predicate Probing(f1: seq<Field>, f2: seq<Field>, m: nat) {
    && m < |f1| && f1[m].t == PROBE
    && (forall n :: 0 <= n < |f1| && n != m ==> f1[n].t == OTHER)
    && (forall j :: 0 <= j < |f2| ==> f2[j].t == PRIM_NULL)
  }

  predicate IsProbe(p: bool, q: Query) {
    q == Query(p, PROBE, PRIM_NULL)
  }

  ghost function AllBut(p: bool): iset<Query> {
    iset q: Query | !IsProbe(p, q)
  }

  ghost predicate FirstMisaligned(f1: seq<Field>, f2: seq<Field>, m: nat) {
    m < |f1| && !AlignedAt(f1, f2, m) && forall n :: 0 <= n < m ==> AlignedAt(f1, f2, n)
  }

  lemma ProbeRule(p: bool, table: Table, f1: seq<Field>, f2: seq<Field>, m: nat)
    requires Sorted(f1) && Probing(f1, f2, m) && RefsValid(table, f2)
    ensures RecordRule(p, table, f1, f2, AllBut(p), 0) <==> !HasTag(f2, f1[m].tag)
  {
    forall j | 0 <= j < |f2|
      ensures Supplied(p, table, f2[j], f1, AllBut(p)) <==> f2[j].tag != f1[m].tag
    {
      if HasTag(f1, f2[j].tag) {
        var n :| 0 <= n < |f1| && f1[n].tag == f2[j].tag;
        assert f1[n].tag == f1[m].tag <==> n == m;
      }
    }
  }

  /** Before the first misaligned field `m` has been matched, the scan does not get past it. */
  lemma ProbeNext(f1: seq<Field>, f2: seq<Field>, m: nat, i: nat, advance: bool, k: nat, next: nat)
    requires Sorted(f1) && Sorted(f2) && FirstMisaligned(f1, f2, m) && i < |f1| && k < |f2|
    requires (if advance then i else i - 1) <= m && OnTrack(f1, f2, i, advance, k)
    requires next == if advance then Advance(f1, i, f2[k].tag) else i
    ensures next - 1 <= m
    ensures f1[next - 1].tag == f2[k].tag ==> next <= m
  {
    if advance {
      AdvanceStops(f1, i, f2[k].tag);
      forall j | 0 <= j < k
        ensures i > 0 && f2[j].tag <= f1[i - 1].tag <= f1[m - 1].tag
      {
        assert f2[j].tag <= f2[k - 1].tag;
      }
      assert f2[k].tag >= f1[m].tag ==> !Gap(f1, f2, m);
    } else {
      assert Gap(f1, f2, i - 1);
    }
  }

  /** The scan does not get to the end before it has come to the misaligned field. */
  lemma ProbeEnd(f1: seq<Field>, f2: seq<Field>, m: nat, i: nat, advance: bool)
    requires Sorted(f1) && Sorted(f2) && FirstMisaligned(f1, f2, m)
    requires (if advance then i else i - 1) <= m
    ensures !OnTrack(f1, f2, i, advance, |f2|)
  {
  }

  lemma {:induction false} ProbeScan(p: bool, table: Table, f1: seq<Field>, f2: seq<Field>, m: nat, i: nat, advance: bool, k: nat)
    requires Sorted(f1) && Sorted(f2) && RefsValid(table, f2) && Probing(f1, f2, m) && FirstMisaligned(f1, f2, m)
    requires i <= |f1| && k <= |f2| && (advance || i > 0) && OnTrack(f1, f2, i, advance, k)
    requires (if advance then i else i - 1) <= m
    ensures Holds(RecordScan(p, table, f1, f2, i, advance, k), AllBut(p)) <==> HasTag(f2, f1[m].tag)
    decreases |f2| - k
  {
    hide Sorted, OnTrack, AlignedAt, HasTag;
    if k == |f2| {
      ProbeEnd(f1, f2, m, i, advance);
    } else if i == |f1| {
      TailScan(p, table, f1, f2, advance, k);
      ProbeTail(f1, f2, m, k);
    } else {
      var next := TrackStep(f1, f2, i, advance, k);
      ProbeNext(f1, f2, m, i, advance, k, next);
      if f1[next - 1].tag > f2[k].tag {
        ProbeScan(p, table, f1, f2, m, next, false, k + 1);
      } else {
        HoldsBefore(Query(p, f1[next - 1].t, f2[k].t), RecordScan(p, table, f1, f2, next, true, k + 1), AllBut(p));
        if f1[next - 1].tag == f2[k].tag {
          ProbeScan(p, table, f1, f2, m, next, true, k + 1);
        }
      }
    }
  }

  lemma ProbeTail(f1: seq<Field>, f2: seq<Field>, m: nat, k: nat)
    requires Sorted(f1) && FirstMisaligned(f1, f2, m) && |f1| - 1 <= m && OnTrack(f1, f2, |f1|, false, k)
    ensures HasTag(f2, f1[m].tag)
  {
    assert Gap(f1, f2, m);
  }

  lemma MisalignedFirst(f1: seq<Field>, f2: seq<Field>, n: nat) returns (m: nat)
    requires n < |f1| && !AlignedAt(f1, f2, n)
    ensures FirstMisaligned(f1, f2, m)
  {
    m := 0;
    while AlignedAt(f1, f2, m)
      invariant m <= n && forall l :: 0 <= l < m ==> AlignedAt(f1, f2, l)
      decreases n - m
    {
      m := m + 1;
    }
  }

  function Probed(f: seq<Field>, m: nat): (g: seq<Field>)
    ensures |g| == |f|
  {
    seq(|f|, k requires 0 <= k < |f| => Field(f[k].tag, if k == m then PROBE else OTHER))
  }

  function Nulls(f: seq<Field>): (g: seq<Field>)
    ensures |g| == |f|
  {
    seq(|f|, k requires 0 <= k < |f| => Field(f[k].tag, PRIM_NULL))
  }

  lemma TagsDecide(f1: seq<Field>, f2: seq<Field>, g1: seq<Field>, g2: seq<Field>)
    requires SameTags(f1, g1) && SameTags(f2, g2)
    ensures Sorted(f1) ==> Sorted(g1)
    ensures Sorted(f2) ==> Sorted(g2)
    ensures forall m :: 0 <= m < |f1| ==> (AlignedAt(f1, f2, m) <==> AlignedAt(g1, g2, m))
  {
    forall m | 0 <= m < |f1|
      ensures Gap(f1, f2, m) <==> Gap(g1, g2, m)
      ensures Beyond(f2, f1[m].tag) <==> Beyond(g2, g1[m].tag)
      ensures HasTag(f2, f1[m].tag) <==> HasTag(g2, g1[m].tag)
    {
      TagsGap(f1, f2, g1, g2, m);
      TagsGap(g1, g2, f1, f2, m);
    }
  }

  lemma TagsGap(f1: seq<Field>, f2: seq<Field>, g1: seq<Field>, g2: seq<Field>, m: nat)
    requires SameTags(f1, g1) && SameTags(f2, g2) && m < |f1|
    ensures Gap(f1, f2, m) ==> Gap(g1, g2, m)
    ensures Beyond(f2, f1[m].tag) ==> Beyond(g2, g1[m].tag)
    ensures HasTag(f2, f1[m].tag) ==> HasTag(g2, g1[m].tag)
  {
    if j :| 0 <= j < |f2| && f2[j].tag < f1[m].tag && (m > 0 ==> f1[m - 1].tag < f2[j].tag) {
      assert g2[j].tag < g1[m].tag;
    }
    if j :| 0 <= j < |f2| && f2[j].tag > f1[m].tag {
      assert g2[j].tag > g1[m].tag;
    }
    if j :| 0 <= j < |f2| && f2[j].tag == f1[m].tag {
      assert g2[j].tag == g1[m].tag;
    }
  }

  /** The record scan is the declarative rule exactly on aligned tags. */
  lemma RecordScanExact(f1: seq<Field>, f2: seq<Field>)
    requires Sorted(f1) && Sorted(f2)
    ensures ScanIsRule(f1, f2) <==> Aligned(f1, f2)
  {
    if Aligned(f1, f2) {
      AlignedIsRule(f1, f2);
    } else {
      var n :| 0 <= n < |f1| && !AlignedAt(f1, f2, n);
      var m := MisalignedFirst(f1, f2, n);
      MisalignedIsNotRule(f1, f2, m);
    }
  }

  lemma AlignedIsRule(f1: seq<Field>, f2: seq<Field>)
    requires Sorted(f1) && Sorted(f2) && Aligned(f1, f2)
    ensures ScanIsRule(f1, f2)
  {
    hide RecordScan, RecordRule, AlignedAt, Sorted, Holds;
    forall p, table, g1, g2, related: iset<Query> | SameTags(f1, g1) && SameTags(f2, g2) && RefsValid(table, g2)
      ensures Holds(RecordScan(p, table, g1, g2, 0, true, 0), related) <==> RecordRule(p, table, g1, g2, related, 0)
    {
      TagsDecide(f1, f2, g1, g2);
      RecordScanAligned(p, table, g1, g2, 0, true, 0, related);
    }
  }

  lemma MisalignedIsNotRule(f1: seq<Field>, f2: seq<Field>, m: nat)
    requires Sorted(f1) && Sorted(f2) && FirstMisaligned(f1, f2, m)
    ensures !ScanIsRule(f1, f2)
  {
    hide RecordScan, RecordRule, AlignedAt, Sorted, Holds, HasTag;
    var g1, g2 := Probed(f1, m), Nulls(f2);
    TagsDecide(f1, f2, g1, g2);
    ProbeRule(true, [], g1, g2, m);
    ProbeScan(true, [], g1, g2, m, 0, true, 0);
    assert !(Holds(RecordScan(true, [], g1, g2, 0, true, 0), AllBut(true)) <==> RecordRule(true, [], g1, g2, AllBut(true), 0));
  }
}
