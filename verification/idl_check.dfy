/** The memoised subtype check on values: what it answers, what it leaves in the cache, and what the
  * answers mean.
  */
module IdlCheck {
  import opened IdlTypes
  import opened IdlScan
  import opened IdlRules

  // Pairs that have been asked for, and those among them found not to be related.
  datatype Cache = Cache(visited: set<Query>, disproved: set<Query>)

  datatype Outcome = Outcome(ok: bool, cache: Cache)

  const FRESH: Cache := Cache({}, {})

  /** Only pairs of table entries are cached. */
  predicate Cacheable(q: Query) {
    q.t1 >= 0 && q.t2 >= 0
  }

  function AllPairs(n1: nat, n2: nat): set<Query> {
    (set i, j | 0 <= i < n1 && 0 <= j < n2 :: Query(true, i, j)) +
    (set i, j | 0 <= i < n1 && 0 <= j < n2 :: Query(false, j, i))
  }

  function Universe(env: Tables): set<Query> {
    AllPairs(|env.first|, |env.second|)
  }

  lemma InUniverse(env: Tables, q: Query)
    requires env.Has(q) && Cacheable(q)
    ensures q in Universe(env)
  {
    assert q == Query(q.p, q.t1, q.t2);
  }

  lemma ScanWithin(env: Tables, q: Query)
    requires env.Valid() && env.Has(q)
    ensures forall k :: 0 <= k < |ScanOf(env, q).asks| ==> env.Has(ScanOf(env, q).asks[k])
    ensures !Cacheable(q) ==> ScanOf(env, q).asks == []
  {
    if Cacheable(q) {
      var c1, c2 := env.Left(q.p)[q.t1], env.Right(q.p)[q.t2];
      assert ConInTable(c1, |env.Left(q.p)|) && ConInTable(c2, |env.Right(q.p)|);
      ConScanWithin(env, q.p, c1, c2);
    }
  }

  ghost predicate AllWithin(env: Tables, s: Scan) {
    forall k :: 0 <= k < |s.asks| ==> env.Has(s.asks[k])
  }

  lemma ConScanWithin(env: Tables, p: bool, c1: Con, c2: Con)
    requires ConInTable(c1, |env.Left(p)|) && ConInTable(c2, |env.Right(p)|)
    ensures AllWithin(env, ConScan(env, p, c1, c2))
  {
    match (c1, c2) {
      case (Func(_, _, _), Func(_, _, _)) =>
        PositionalWithin(env, !p, c1.ins, c2.ins, 0);
        PositionalWithin(env, p, c2.outs, c1.outs, 0);
      case (Record(f1), Record(f2)) => RecordWithin(env, p, f1, f2, 0, true, 0);
      case (Variant(f1), Variant(f2)) => VariantWithin(env, p, f1, f2, 0, 0);
      case (Service(e1), Service(e2)) => ServiceWithin(env, p, e1, e2, 0, 0);
      case (_, _) =>
    }
  }

  lemma PositionalWithin(env: Tables, p: bool, xs: seq<int>, ys: seq<int>, k: nat)
    requires k <= |xs|
    requires forall j :: 0 <= j < |xs| ==> IsRef(xs[j], |env.Right(p)|)
    requires forall j :: 0 <= j < |ys| ==> IsRef(ys[j], |env.Left(p)|)
    ensures AllWithin(env, PositionalScan(p, env.Right(p), xs, ys, k))
    decreases |xs| - k
  {
    if k < |xs| {
      PositionalWithin(env, p, xs, ys, k + 1);
    }
  }

  lemma RecordWithin(env: Tables, p: bool, f1: seq<Field>, f2: seq<Field>, i: nat, advance: bool, k: nat)
    requires i <= |f1| && k <= |f2| && (advance || i > 0)
    requires RefsValid(env.Left(p), f1) && RefsValid(env.Right(p), f2)
    ensures AllWithin(env, RecordScan(p, env.Right(p), f1, f2, i, advance, k))
    decreases |f2| - k
  {
    if k < |f2| && i == |f1| {
      RecordWithin(env, p, f1, f2, i, advance, k + 1);
    } else if k < |f2| {
      var next := if advance then Advance(f1, i, f2[k].tag) else i;
      RecordWithin(env, p, f1, f2, next, false, k + 1);
      RecordWithin(env, p, f1, f2, next, true, k + 1);
    }
  }

  lemma VariantWithin(env: Tables, p: bool, f1: seq<Field>, f2: seq<Field>, k: nat, i: nat)
    requires k <= |f1| && i <= |f2|
    requires RefsValid(env.Left(p), f1) && RefsValid(env.Right(p), f2)
    ensures AllWithin(env, VariantScan(p, f1, f2, k, i))
    decreases |f1| - k
  {
    if k < |f1| && i < |f2| {
      VariantWithin(env, p, f1, f2, k + 1, Advance(f2, i, f1[k].tag));
    }
  }

  lemma ServiceWithin(env: Tables, p: bool, e1: seq<Entry>, e2: seq<Entry>, k: nat, i: nat)
    requires k <= |e2| && i <= |e1|
    requires forall j :: 0 <= j < |e1| ==> IsRef(e1[j].t, |env.Left(p)|)
    requires forall j :: 0 <= j < |e2| ==> IsRef(e2[j].t, |env.Right(p)|)
    ensures AllWithin(env, ServiceScan(p, e1, e2, k, i))
    decreases |e2| - k
  {
    if k < |e2| && i < |e1| {
      ServiceWithin(env, p, e1, e2, k + 1, AdvanceEntry(e1, i, e2[k].name));
    }
  }

  // ---------------------------------------------------------------- the check

  /** Answers `q` from the cache, or assumes it, scans its components and remembers a failure. */
  function Ask(env: Tables, c: Cache, q: Query): (o: Outcome)
    requires env.Valid() && env.Has(q)
    ensures c.visited <= o.cache.visited
    decreases Universe(env) - c.visited, 0
  {
    if !Cacheable(q) then Outcome(ScanOf(env, q).ok, c)
    else if q in c.visited then Outcome(q !in c.disproved, c)
    else
      InUniverse(env, q);
      ScanWithin(env, q);
      var o := AskAll(env, c.(visited := c.visited + {q}), ScanOf(env, q));
      if o.ok then o else Outcome(false, o.cache.(disproved := o.cache.disproved + {q}))
  }

  /** Asks for one pair after the other, up to the first that is not related. */
  function AskAll(env: Tables, c: Cache, s: Scan): (o: Outcome)
    requires env.Valid() && AllWithin(env, s)
    ensures c.visited <= o.cache.visited
    decreases Universe(env) - c.visited, 1 + |s.asks|
  {
    if s.asks == [] then Outcome(s.ok, c)
    else
      var o := Ask(env, c, s.asks[0]);
      if !o.ok then o
      else
        assert Universe(env) - o.cache.visited <= Universe(env) - c.visited;
        AskAll(env, o.cache, Scan(s.asks[1..], s.ok))
  }

  // ---------------------------------------------------------------- what the answers mean

  /** Every pair in the set is accepted by its scan if the pairs of the set are related. */
  ghost predicate Consistent(env: Tables, related: iset<Query>)
    requires env.Valid()
  {
    forall q :: q in related ==> env.Has(q) && Holds(ScanOf(env, q), related)
  }

  /** The greatest relation that the rules allow. */
  ghost predicate Related(env: Tables, q: Query)
    requires env.Valid()
  {
    exists related: iset<Query> :: Consistent(env, related) && q in related
  }

  /** The check never denies what is related, whatever it has been asked before. */
  lemma {:induction false} AskComplete(env: Tables, c: Cache, q: Query, related: iset<Query>)
    requires env.Valid() && env.Has(q) && Consistent(env, related)
    requires forall x :: x in c.disproved ==> x !in related
    ensures q in related ==> Ask(env, c, q).ok
    ensures forall x :: x in Ask(env, c, q).cache.disproved ==> x !in related
    decreases Universe(env) - c.visited, 0
  {
    ScanWithin(env, q);
    if Cacheable(q) && q !in c.visited {
      InUniverse(env, q);
      AskAllComplete(env, c.(visited := c.visited + {q}), ScanOf(env, q), related);
    }
  }

  lemma {:induction false} AskAllComplete(env: Tables, c: Cache, s: Scan, related: iset<Query>)
    requires env.Valid() && AllWithin(env, s) && Consistent(env, related)
    requires forall x :: x in c.disproved ==> x !in related
    ensures Holds(s, related) ==> AskAll(env, c, s).ok
    ensures forall x :: x in AskAll(env, c, s).cache.disproved ==> x !in related
    decreases Universe(env) - c.visited, 1 + |s.asks|
  {
    if s.asks != [] {
      AskComplete(env, c, s.asks[0], related);
      var o := Ask(env, c, s.asks[0]);
      if o.ok {
        var rest := Scan(s.asks[1..], s.ok);
        assert Universe(env) - o.cache.visited <= Universe(env) - c.visited;
        assert s == Before(s.asks[0], rest);
        HoldsBefore(s.asks[0], rest, related);
        AskAllComplete(env, o.cache, rest, related);
      }
    }
  }

  /** The pairs that the cache takes for related, and those that need no cache. */
  ghost function Believed(env: Tables, c: Cache): iset<Query>
    requires env.Valid()
  {
    iset q: Query | env.Has(q) && (if Cacheable(q) then q in c.visited && q !in c.disproved else ScanOf(env, q).ok)
  }

  /** What a successful check adds to the cache is justified by what is in the cache then. */
  ghost predicate Justifies(env: Tables, c: Cache, c': Cache)
    requires env.Valid()
  {
    && c'.disproved == c.disproved
    && forall q :: q in c'.visited && q !in c.visited ==> env.Has(q) && Holds(ScanOf(env, q), Believed(env, c'))
  }

  lemma HoldsMore(s: Scan, r: iset<Query>, r': iset<Query>)
    requires Holds(s, r) && r <= r'
    ensures Holds(s, r')
  {
  }

  lemma JustifiesThen(env: Tables, c: Cache, c': Cache, c'': Cache)
    requires env.Valid() && Justifies(env, c, c') && Justifies(env, c', c'')
    requires c.visited <= c'.visited <= c''.visited
    ensures Justifies(env, c, c'') && Believed(env, c') <= Believed(env, c'')
  {
    hide ScanOf, Holds, Cacheable;
    forall q | q in c''.visited && q !in c.visited
      ensures env.Has(q) && Holds(ScanOf(env, q), Believed(env, c''))
    {
      if q in c'.visited {
        HoldsMore(ScanOf(env, q), Believed(env, c'), Believed(env, c''));
      }
    }
  }

  lemma {:induction false} AskSound(env: Tables, c: Cache, q: Query)
    requires env.Valid() && env.Has(q) && c.disproved <= c.visited && Ask(env, c, q).ok
    ensures Justifies(env, c, Ask(env, c, q).cache) && q in Believed(env, Ask(env, c, q).cache)
    decreases Universe(env) - c.visited, 0
  {
    hide ScanOf, Holds;
    if Cacheable(q) && q !in c.visited {
      InUniverse(env, q);
      ScanWithin(env, q);
      AskAllSound(env, c.(visited := c.visited + {q}), ScanOf(env, q));
    }
  }

  lemma {:induction false} AskAllSound(env: Tables, c: Cache, s: Scan)
    requires env.Valid() && AllWithin(env, s) && c.disproved <= c.visited && AskAll(env, c, s).ok
    ensures Justifies(env, c, AskAll(env, c, s).cache) && Holds(s, Believed(env, AskAll(env, c, s).cache))
    decreases Universe(env) - c.visited, 1 + |s.asks|
  {
    hide ScanOf;
    if s.asks != [] {
      AskSound(env, c, s.asks[0]);
      var o := Ask(env, c, s.asks[0]);
      var rest := Scan(s.asks[1..], s.ok);
      assert Universe(env) - o.cache.visited <= Universe(env) - c.visited;
      AskAllSound(env, o.cache, rest);
      JustifiesThen(env, c, o.cache, AskAll(env, o.cache, rest).cache);
      assert s == Before(s.asks[0], rest);
      HoldsBefore(s.asks[0], rest, Believed(env, AskAll(env, c, s).cache));
    }
  }

  /** All that the cache takes for related is justified by the cache, and nothing is disproved: the
    * state of a cache that is fresh or has only seen successful queries. */
  ghost predicate Exact(env: Tables, c: Cache)
    requires env.Valid()
  {
    Justifies(env, FRESH, c)
  }

  /** On a fresh cache, or after nothing but successful queries, the check answers exactly whether
    * the two types are related, and a success keeps the cache exact. */
  lemma AskExact(env: Tables, c: Cache, q: Query)
    requires env.Valid() && env.Has(q) && Exact(env, c)
    ensures Ask(env, c, q).ok <==> Related(env, q)
    ensures Ask(env, c, q).ok ==> Exact(env, Ask(env, c, q).cache)
  {
    hide Ask, ScanOf, Holds;
    if Ask(env, c, q).ok {
      AskSound(env, c, q);
      var c' := Ask(env, c, q).cache;
      JustifiesThen(env, FRESH, c, c');
      BelievedConsistent(env, c');
    }
    if Related(env, q) {
      var related: iset<Query> :| Consistent(env, related) && q in related;
      AskComplete(env, c, q, related);
    }
  }

  lemma BelievedConsistent(env: Tables, c: Cache)
    requires env.Valid() && Exact(env, c)
    ensures Consistent(env, Believed(env, c))
  {
    forall q | q in Believed(env, c)
      ensures Holds(ScanOf(env, q), Believed(env, c))
    {
      if !Cacheable(q) {
        ScanWithin(env, q);
      }
    }
  }

  ghost function AllRelated(env: Tables): iset<Query>
    requires env.Valid()
  {
    iset q: Query | env.Has(q) && Related(env, q)
  }

  /** Two types are related exactly when their scan asks for related components only: the rules of
    * the scans, `FuncScanExact` to `RecordScanExact`, are the rules of the relation. */
  lemma RelatedUnfolds(env: Tables, q: Query)
    requires env.Valid() && env.Has(q)
    ensures Related(env, q) <==> Holds(ScanOf(env, q), AllRelated(env))
  {
    hide ScanOf, Holds;
    forall x | env.Has(x) && Related(env, x)
      ensures Holds(ScanOf(env, x), AllRelated(env))
    {
      var related: iset<Query> :| Consistent(env, related) && x in related;
      forall y | y in related
        ensures y in AllRelated(env)
      {
      }
      HoldsMore(ScanOf(env, x), related, AllRelated(env));
    }
    if Holds(ScanOf(env, q), AllRelated(env)) {
      var more := AllRelated(env) + iset{q};
      forall x | x in more
        ensures Holds(ScanOf(env, x), more)
      {
        HoldsMore(ScanOf(env, x), AllRelated(env), more);
      }
      assert Consistent(env, more);
    }
  }

  // ---------------------------------------------------------------- caches in use

  /** The scan is fine, and each of its components is in the cache or needs none. */
  ghost predicate Answered(env: Tables, c: Cache, s: Scan)
    requires env.Valid() && AllWithin(env, s)
  {
    s.ok && forall k :: 0 <= k < |s.asks| ==> Seen(env, c, s.asks[k])
  }

  ghost predicate Seen(env: Tables, c: Cache, q: Query)
    requires env.Valid() && env.Has(q)
  {
    if Cacheable(q) then q in c.visited else ScanOf(env, q).ok
  }

  /** A pair that the cache takes for related has had all of its components answered. */
  ghost predicate Recorded(env: Tables, c: Cache, q: Query)
    requires env.Valid()
  {
    env.Has(q) && Cacheable(q) && AllWithin(env, ScanOf(env, q)) && (q !in c.disproved ==> Answered(env, c, ScanOf(env, q)))
  }

  /** What every query adds to the cache, whether it succeeds or not. */
  ghost predicate Records(env: Tables, c: Cache, c': Cache)
    requires env.Valid()
  {
    && c.visited <= c'.visited && c.disproved <= c'.disproved
    && (forall q :: q in c'.visited && q !in c.visited ==> Recorded(env, c', q))
    && (forall q :: q in c'.disproved && q !in c.disproved ==> q in c'.visited)
  }

  lemma RecordedMore(env: Tables, c: Cache, c': Cache, q: Query)
    requires env.Valid() && Recorded(env, c, q) && c.visited <= c'.visited && c.disproved <= c'.disproved
    ensures Recorded(env, c', q)
  {
    hide ScanOf;
    if q !in c'.disproved {
      forall k | 0 <= k < |ScanOf(env, q).asks|
        ensures Seen(env, c', ScanOf(env, q).asks[k])
      {
        assert Seen(env, c, ScanOf(env, q).asks[k]);
      }
    }
  }

  lemma RecordsThen(env: Tables, c: Cache, c': Cache, c'': Cache)
    requires env.Valid() && Records(env, c, c') && Records(env, c', c'')
    ensures Records(env, c, c'')
  {
    hide Recorded;
    forall q | q in c''.visited && q !in c.visited
      ensures Recorded(env, c'', q)
    {
      if q in c'.visited {
        RecordedMore(env, c', c'', q);
      }
    }
  }

  lemma {:induction false} AskRecords(env: Tables, c: Cache, q: Query)
    requires env.Valid() && env.Has(q)
    ensures Records(env, c, Ask(env, c, q).cache)
    ensures Ask(env, c, q).ok ==> Seen(env, Ask(env, c, q).cache, q)
    decreases Universe(env) - c.visited, 0
  {
    hide ScanOf;
    if Cacheable(q) && q !in c.visited {
      InUniverse(env, q);
      ScanWithin(env, q);
      var before := c.(visited := c.visited + {q});
      AskAllRecords(env, before, ScanOf(env, q));
      var o := AskAll(env, before, ScanOf(env, q));
      var c' := Ask(env, c, q).cache;
      forall x | x in c'.visited && x !in c.visited
        ensures Recorded(env, c', x)
      {
        if x != q {
          RecordedMore(env, o.cache, c', x);
        }
      }
    }
  }

  lemma {:induction false} AskAllRecords(env: Tables, c: Cache, s: Scan)
    requires env.Valid() && AllWithin(env, s)
    ensures Records(env, c, AskAll(env, c, s).cache)
    ensures AskAll(env, c, s).ok ==> Answered(env, AskAll(env, c, s).cache, s)
    decreases Universe(env) - c.visited, 1 + |s.asks|
  {
    hide ScanOf, Recorded;
    if s.asks != [] {
      AskRecords(env, c, s.asks[0]);
      var o := Ask(env, c, s.asks[0]);
      if o.ok {
        var rest := Scan(s.asks[1..], s.ok);
        assert Universe(env) - o.cache.visited <= Universe(env) - c.visited;
        AskAllRecords(env, o.cache, rest);
        var c' := AskAll(env, o.cache, rest).cache;
        RecordsThen(env, c, o.cache, c');
        if AskAll(env, c, s).ok {
          forall k | 0 <= k < |s.asks|
            ensures Seen(env, c', s.asks[k])
          {
            if k > 0 {
              assert s.asks[k] == rest.asks[k - 1];
            }
          }
        }
      }
    }
  }

  /** The state of a cache after any queries: what it denies is not related, and what it affirms has
    * had all of its components answered. */
  ghost predicate Used(env: Tables, c: Cache)
    requires env.Valid()
  {
    Records(env, FRESH, c) && forall q :: q in c.disproved ==> q !in AllRelated(env)
  }

  /** Nothing is affirmed that has a component which was denied. */
  ghost predicate Settled(env: Tables, c: Cache)
    requires env.Valid()
  {
    forall q, k :: q in c.visited && env.Has(q) && q !in c.disproved && 0 <= k < |ScanOf(env, q).asks| ==>
      ScanOf(env, q).asks[k] !in c.disproved
  }

  lemma AllRelatedConsistent(env: Tables)
    requires env.Valid()
    ensures Consistent(env, AllRelated(env))
  {
    hide ScanOf, Holds;
    forall q | q in AllRelated(env)
      ensures Holds(ScanOf(env, q), AllRelated(env))
    {
      RelatedUnfolds(env, q);
    }
  }

  lemma FreshUsed(env: Tables)
    requires env.Valid()
    ensures Used(env, FRESH) && Settled(env, FRESH)
  {
  }

  /** Any further query, successful or not, keeps the cache such. */
  lemma AskKeepsUsed(env: Tables, c: Cache, q: Query)
    requires env.Valid() && env.Has(q) && Used(env, c)
    ensures Used(env, Ask(env, c, q).cache)
  {
    hide Ask, Recorded, AllRelated;
    AllRelatedConsistent(env);
    AskRecords(env, c, q);
    AskComplete(env, c, q, AllRelated(env));
    RecordsThen(env, FRESH, c, Ask(env, c, q).cache);
  }

  /** The caches of the earlier result are a special case. */
  lemma ExactUsed(env: Tables, c: Cache)
    requires env.Valid() && Exact(env, c) && forall q :: q in c.visited ==> Cacheable(q)
    ensures Used(env, c) && Settled(env, c)
  {
    hide ScanOf;
    forall q | q in c.visited
      ensures Recorded(env, c, q)
    {
      ScanWithin(env, q);
      assert Holds(ScanOf(env, q), Believed(env, c));
    }
  }

  /** In a settled cache, what is affirmed is closed under the rules. */
  lemma SettledConsistent(env: Tables, c: Cache)
    requires env.Valid() && Used(env, c) && Settled(env, c)
    ensures Consistent(env, Believed(env, c))
  {
    hide ScanOf;
    forall q | q in Believed(env, c)
      ensures Holds(ScanOf(env, q), Believed(env, c))
    {
      ScanWithin(env, q);
      if Cacheable(q) {
        assert Recorded(env, c, q);
        forall k | 0 <= k < |ScanOf(env, q).asks|
          ensures ScanOf(env, q).asks[k] in Believed(env, c)
        {
          assert Seen(env, c, ScanOf(env, q).asks[k]);
        }
      }
    }
  }

  /** An affirmation from a settled cache is right, and keeps the cache settled. */
  lemma SettledSound(env: Tables, c: Cache, q: Query)
    requires env.Valid() && env.Has(q) && Used(env, c) && Settled(env, c) && Ask(env, c, q).ok
    ensures Related(env, q) && Settled(env, Ask(env, c, q).cache)
  {
    hide Ask, ScanOf, Recorded;
    var c' := Ask(env, c, q).cache;
    AskSound(env, c, q);
    SettledConsistent(env, c);
    forall x | x in Believed(env, c)
      ensures x in Believed(env, c') && Holds(ScanOf(env, x), Believed(env, c))
    {
    }
    forall x | x in Believed(env, c')
      ensures Holds(ScanOf(env, x), Believed(env, c'))
    {
      ScanWithin(env, x);
      if x in Believed(env, c) {
        HoldsMore(ScanOf(env, x), Believed(env, c), Believed(env, c'));
      }
    }
    forall x, k | x in c'.visited && env.Has(x) && x !in c'.disproved && 0 <= k < |ScanOf(env, x).asks|
      ensures ScanOf(env, x).asks[k] !in c'.disproved
    {
      if x !in c.visited {
        assert ScanOf(env, x).asks[k] in Believed(env, c');
        DeniedCacheable(env, c, ScanOf(env, x).asks[k]);
      }
    }
  }

  lemma DeniedCacheable(env: Tables, c: Cache, q: Query)
    requires env.Valid() && Used(env, c)
    ensures q in c.disproved ==> q in c.visited && Cacheable(q) && env.Has(q)
  {
    assert q in c.disproved ==> Recorded(env, c, q);
  }

  /** A denial is always right. */
  lemma DenialRight(env: Tables, c: Cache, q: Query)
    requires env.Valid() && env.Has(q) && Used(env, c) && Related(env, q)
    ensures Ask(env, c, q).ok
  {
    hide Ask;
    AllRelatedConsistent(env);
    AskComplete(env, c, q, AllRelated(env));
  }

  ghost predicate AnswersExactly(env: Tables, c: Cache)
    requires env.Valid()
  {
    forall q :: env.Has(q) ==> (Ask(env, c, q).ok <==> Related(env, q))
  }

  /** Whatever queries a cache has seen, its answers are right if and only if nothing is affirmed that
    * has a component which was denied. */
  lemma UsedExact(env: Tables, c: Cache)
    requires env.Valid() && Used(env, c)
    ensures AnswersExactly(env, c) <==> Settled(env, c)
  {
    hide ScanOf, Related, Recorded, Used;
    if Settled(env, c) {
      forall q | env.Has(q)
        ensures Ask(env, c, q).ok <==> Related(env, q)
      {
        ExactAnswer(env, c, q);
      }
    }
    if AnswersExactly(env, c) {
      forall q, k | q in c.visited && env.Has(q) && q !in c.disproved && 0 <= k < |ScanOf(env, q).asks|
        ensures ScanOf(env, q).asks[k] !in c.disproved
      {
        ComponentKept(env, c, q, k);
      }
    }
  }

  lemma ExactAnswer(env: Tables, c: Cache, q: Query)
    requires env.Valid() && env.Has(q) && Used(env, c) && Settled(env, c)
    ensures Ask(env, c, q).ok <==> Related(env, q)
  {
    hide Ask, ScanOf;
    if Ask(env, c, q).ok {
      SettledSound(env, c, q);
    }
    if Related(env, q) {
      DenialRight(env, c, q);
    }
  }

  lemma ComponentKept(env: Tables, c: Cache, q: Query, k: nat)
    requires env.Valid() && Used(env, c) && AnswersExactly(env, c)
    requires q in c.visited && env.Has(q) && q !in c.disproved && k < |ScanOf(env, q).asks|
    ensures ScanOf(env, q).asks[k] !in c.disproved
  {
    hide ScanOf, Related;
    var r := ScanOf(env, q).asks[k];
    assert Recorded(env, c, q);
    assert Ask(env, c, q).ok;
    RelatedUnfolds(env, q);
    assert r in AllRelated(env);
  }

  /** The cache after a sequence of queries. */
  function After(env: Tables, queries: seq<Query>): Cache
    requires env.Valid() && forall k :: 0 <= k < |queries| ==> env.Has(queries[k])
  {
    if queries == [] then FRESH
    else Ask(env, After(env, queries[..|queries| - 1]), queries[|queries| - 1]).cache
  }

  lemma {:induction false} AfterUsed(env: Tables, queries: seq<Query>)
    requires env.Valid() && forall k :: 0 <= k < |queries| ==> env.Has(queries[k])
    ensures Used(env, After(env, queries))
    decreases |queries|
  {
    hide Ask, Used;
    if queries == [] {
      FreshUsed(env);
    } else {
      AfterUsed(env, queries[..|queries| - 1]);
      AskKeepsUsed(env, After(env, queries[..|queries| - 1]), queries[|queries| - 1]);
    }
  }

  /** After any sequence of queries, the answers are right if and only if the cache is settled. */
  lemma AfterExact(env: Tables, queries: seq<Query>)
    requires env.Valid() && forall k :: 0 <= k < |queries| ==> env.Has(queries[k])
    ensures AnswersExactly(env, After(env, queries)) <==> Settled(env, After(env, queries))
  {
    hide Ask, Used, AnswersExactly, Settled;
    AfterUsed(env, queries);
    UsedExact(env, After(env, queries));
  }

  // ---------------------------------------------------------------- what it does not mean

  // Two recursive record types and vectors of them that differ in the type of one field.
  const TEXT_TABLE: Table := [Record([Field(1, 1), Field(2, PRIM_TEXT)]), Vec(0)]
  const NAT_TABLE: Table := [Record([Field(1, 1), Field(2, PRIM_NAT)]), Vec(0)]
  const MIXED: Tables := Tables(TEXT_TABLE, NAT_TABLE)

  /** After a failed query the check may affirm what is false: the vectors were found related under
    * the assumption that the records are, and the cache does not forget it. */
  lemma StaleAnswer()
    ensures MIXED.Valid() && MIXED.Has(Query(true, 0, 0)) && MIXED.Has(Query(true, 1, 1))
    ensures !Ask(MIXED, FRESH, Query(true, 0, 0)).ok
    ensures Ask(MIXED, Ask(MIXED, FRESH, Query(true, 0, 0)).cache, Query(true, 1, 1)).ok
    ensures !Related(MIXED, Query(true, 1, 1)) && !Settled(MIXED, Ask(MIXED, FRESH, Query(true, 0, 0)).cache)
  {
    var q0, q1, q2 := Query(true, 0, 0), Query(true, 1, 1), Query(true, PRIM_TEXT, PRIM_NAT);
    var f1, f2 := TEXT_TABLE[0].fields, NAT_TABLE[0].fields;
    assert RecordScan(true, NAT_TABLE, f1, f2, 2, true, 2) == PASS;
    assert RecordScan(true, NAT_TABLE, f1, f2, 1, true, 1) == Scan([q2], true);
    assert ScanOf(MIXED, q0) == Scan([q1, q2], true);
    assert ScanOf(MIXED, q1) == Scan([q0], true);
    assert ScanOf(MIXED, q2) == FAIL;
    var c0, c1 := Cache({q0}, {}), Cache({q0, q1}, {});
    assert FRESH.(visited := FRESH.visited + {q0}) == c0 && c0.(visited := c0.visited + {q1}) == c1;
    AskAllOne(MIXED, c1, q0);
    assert Ask(MIXED, c0, q1) == Outcome(true, c1);
    AskAllTwo(MIXED, c0, q1, q2);
    assert Ask(MIXED, FRESH, q0) == Outcome(false, Cache({q0, q1}, {q0}));
    assert ScanOf(MIXED, q1).asks[0] == q0;
    forall related: iset<Query> | Consistent(MIXED, related)
      ensures q1 !in related
    {
      assert q2 !in related;
      assert ScanOf(MIXED, q0).asks[1] == q2 && q0 !in related;
      assert ScanOf(MIXED, q1).asks[0] == q0;
    }
  }

  /** Not every failed query spoils the cache: here all later answers are right. */
  lemma HarmlessFailure()
    ensures var env := Tables([Record([Field(1, PRIM_TEXT)])], [Record([Field(1, PRIM_NAT)])]);
      && env.Valid() && env.Has(Query(true, 0, 0)) && !Ask(env, FRESH, Query(true, 0, 0)).ok
      && AnswersExactly(env, Ask(env, FRESH, Query(true, 0, 0)).cache)
  {
    var env := Tables([Record([Field(1, PRIM_TEXT)])], [Record([Field(1, PRIM_NAT)])]);
    var f1, f2 := env.first[0].fields, env.second[0].fields;
    var q, r := Query(true, 0, 0), Query(true, PRIM_TEXT, PRIM_NAT);
    assert RecordScan(true, env.second, f1, f2, 1, true, 1) == PASS;
    assert ScanOf(env, q) == Scan([r], true) && ScanOf(env, r) == FAIL;
    assert FRESH.(visited := FRESH.visited + {q}) == Cache({q}, {});
    AskAllOne(env, Cache({q}, {}), r);
    assert Ask(env, FRESH, q) == Outcome(false, Cache({q}, {q}));
    FreshUsed(env);
    AskKeepsUsed(env, FRESH, q);
    UsedExact(env, Cache({q}, {q}));
  }

  lemma AskAllOne(env: Tables, c: Cache, q: Query)
    requires env.Valid() && env.Has(q)
    ensures AskAll(env, c, Scan([q], true)) == Ask(env, c, q)
  {
    var s := Scan([q], true);
    assert s.asks[1..] == [];
  }

  lemma AskAllTwo(env: Tables, c: Cache, q: Query, r: Query)
    requires env.Valid() && env.Has(q) && env.Has(r) && Ask(env, c, q).ok
    ensures AllWithin(env, Scan([q, r], true))
    ensures AskAll(env, c, Scan([q, r], true)) == Ask(env, Ask(env, c, q).cache, r)
  {
    var s := Scan([q, r], true);
    assert s.asks[1..] == [r];
    AskAllOne(env, Ask(env, c, q).cache, r);
  }

  /** Compared with a longer record, the last field of a shorter one is taken for a later one: a
    * record with the single field 1 passes as one with the single field 2. */
  lemma MissingFieldAccepted()
    ensures var env := Tables([Record([Field(1, PRIM_NAT)])], [Record([Field(2, PRIM_NAT)])]);
            env.Valid() && env.Has(Query(true, 0, 0)) && Ask(env, FRESH, Query(true, 0, 0)).ok
  {
    var env := Tables([Record([Field(1, PRIM_NAT)])], [Record([Field(2, PRIM_NAT)])]);
    var f1, f2 := env.first[0].fields, env.second[0].fields;
    var q := Query(true, PRIM_NAT, PRIM_NAT);
    assert RecordScan(true, env.second, f1, f2, 1, true, 1) == PASS;
    assert ScanOf(env, Query(true, 0, 0)) == Scan([q], true);
    AskAllOne(env, Cache({Query(true, 0, 0)}, {}), q);
    assert FRESH.(visited := FRESH.visited + {Query(true, 0, 0)}) == Cache({Query(true, 0, 0)}, {});
  }

  /** A field read too early is forgotten if it is the last one: adding an optional field 2 before a
    * field 3 is denied. */
  lemma OptionalFieldDenied()
    ensures var env := Tables([Record([Field(3, PRIM_NAT)])], [Record([Field(2, 1), Field(3, PRIM_NAT)]), Opt(PRIM_NAT)]);
            env.Valid() && env.Has(Query(true, 0, 0)) && !Ask(env, FRESH, Query(true, 0, 0)).ok
  {
    var env := Tables([Record([Field(3, PRIM_NAT)])], [Record([Field(2, 1), Field(3, PRIM_NAT)]), Opt(PRIM_NAT)]);
    var f1, f2 := env.first[0].fields, env.second[0].fields;
    assert RecordScan(true, env.second, f1, f2, 1, false, 1) == FAIL;
    assert ScanOf(env, Query(true, 0, 0)) == FAIL;
  }
}
