/** Object graphs, and what it means that one is a copy of another. */
module CopyModel {

  type Addr = nat

  datatype Option<T> = None | Some(value: T)

  datatype Value = Scalar(raw: nat) | Null | Ptr(addr: Addr)

  datatype Kind =
    | ArrayImmutable | ArrayMutable | ArrayTuple | ArraySharedFunction
    | MutBox | Object
    | BlobBytes | BlobText | BlobPrincipal | BlobActor
    | Bits64Unsigned | Bits64Signed | Bits64Float
    | Region | Variant | Concat | BigInt | OptionSome | WeakRef
    | Closure

  predicate IsArray(k: Kind) {
    k == ArrayImmutable || k == ArrayMutable || k == ArrayTuple || k == ArraySharedFunction
  }

  // `data` is the payload without pointers.
  datatype Node = Node(kind: Kind, data: seq<nat>, fields: seq<Value>)

  type Graph = map<Addr, Node>

  /** The values with every pointer renamed by `m`. */
  ghost predicate Renamed(m: map<Addr, Addr>, from: seq<Value>, to: seq<Value>) {
    && |to| == |from|
    && forall i :: 0 <= i < |from| ==>
         to[i] == if from[i].Ptr? && from[i].addr in m then Ptr(m[from[i].addr]) else from[i]
  }

  ghost predicate PointsInto(values: seq<Value>, s: set<Addr>) {
    forall i :: 0 <= i < |values| && values[i].Ptr? ==> values[i].addr in s
  }

  ghost predicate Injective(m: map<Addr, Addr>) {
    forall a, b :: a in m && b in m && m[a] == m[b] ==> a == b
  }

  /** `m` renames a closed part of `g` to all of `h`. */
  ghost predicate IsCopy(g: Graph, h: Graph, m: map<Addr, Addr>) {
    && m.Keys <= g.Keys && m.Values == h.Keys && Injective(m)
    && forall a :: a in m ==>
         && PointsInto(g[a].fields, m.Keys)
         && m[a] in h
         && h[m[a]].kind == g[a].kind && h[m[a]].data == g[a].data
         && Renamed(m, g[a].fields, h[m[a]].fields)
  }

  /** `s` holds the roots and whatever its members point to. */
  ghost predicate Closed(g: Graph, roots: set<Addr>, s: set<Addr>) {
    && roots <= s
    && forall a :: a in s && a in g ==> PointsInto(g[a].fields, s)
  }

  /** `s` is what is reachable from the roots. */
  ghost predicate IsReachable(g: Graph, roots: set<Addr>, s: set<Addr>) {
    && s <= g.Keys && Closed(g, roots, s)
    && forall c: set<Addr> :: Closed(g, roots, c) ==> s <= c
  }

  ghost function Compose(m: map<Addr, Addr>, n: map<Addr, Addr>): map<Addr, Addr>
    requires m.Values <= n.Keys
  {
    map a | a in m :: n[m[a]]
  }

  /** A copy of a copy is a copy. */
  lemma CopyOfCopy(g: Graph, h: Graph, k: Graph, m: map<Addr, Addr>, n: map<Addr, Addr>)
    requires IsCopy(g, h, m) && IsCopy(h, k, n) && n.Keys == h.Keys
    ensures IsCopy(g, k, Compose(m, n))
  {
    var c := Compose(m, n);
    forall a | a in m
      ensures a in c && c[a] == n[m[a]]
    {
    }
    forall x | x in k
      ensures x in c.Values
    {
      var b :| b in n && n[b] == x;
      var a :| a in m && m[a] == b;
      assert c[a] == x;
    }
    forall x | x in c.Values
      ensures x in k
    {
      var a :| a in c && c[a] == x;
      assert n[m[a]] in n.Values;
    }
    forall a | a in c
      ensures c[a] in k && Renamed(c, g[a].fields, k[c[a]].fields)
    {
      assert m[a] in n;
      RenamedTwice(m, n, g[a].fields, h[m[a]].fields, k[c[a]].fields);
    }
  }

  lemma RenamedTwice(m: map<Addr, Addr>, n: map<Addr, Addr>, from: seq<Value>, via: seq<Value>, to: seq<Value>)
    requires m.Values <= n.Keys && PointsInto(from, m.Keys)
    requires Renamed(m, from, via) && Renamed(n, via, to)
    ensures Renamed(Compose(m, n), from, to)
  {
    forall i | 0 <= i < |from| && from[i].Ptr?
      ensures to[i] == Ptr(Compose(m, n)[from[i].addr])
    {
      assert m[from[i].addr] in m.Values;
    }
  }

  /** A copy of all that is reachable has nothing unreachable. */
  lemma CopyReachable(g: Graph, h: Graph, m: map<Addr, Addr>, roots: set<Addr>)
    requires IsCopy(g, h, m) && IsReachable(g, roots, m.Keys)
    ensures roots <= m.Keys
    ensures IsReachable(h, set r | r in roots :: m[r], h.Keys)
  {
    var roots' := set r | r in roots :: m[r];
    forall r' | r' in roots'
      ensures r' in h
    {
      var r :| r in roots && m[r] == r';
    }
    forall b | b in h
      ensures PointsInto(h[b].fields, h.Keys)
    {
      var a :| a in m && m[a] == b;
      forall i | 0 <= i < |h[b].fields| && h[b].fields[i].Ptr?
        ensures h[b].fields[i].addr in h
      {
        assert g[a].fields[i].Ptr?;
      }
    }
    forall c: set<Addr> | Closed(h, roots', c)
      ensures h.Keys <= c
    {
      CopyReachableIn(g, h, m, roots, c);
    }
  }

  lemma CopyReachableIn(g: Graph, h: Graph, m: map<Addr, Addr>, roots: set<Addr>, c: set<Addr>)
    requires IsCopy(g, h, m) && IsReachable(g, roots, m.Keys)
    requires Closed(h, set r | r in roots :: m[r], c)
    ensures h.Keys <= c
  {
    var back := set a | a in m && m[a] in c;
    forall a | a in back
      ensures PointsInto(g[a].fields, back)
    {
      forall i | 0 <= i < |g[a].fields| && g[a].fields[i].Ptr?
        ensures g[a].fields[i].addr in back
      {
        assert h[m[a]].fields[i] == Ptr(m[g[a].fields[i].addr]);
      }
    }
    assert Closed(g, roots, back);
    forall b | b in h
      ensures b in c
    {
      var a :| a in m && m[a] == b;
      assert a in back;
    }
  }
}
