/** Incremental deserialization of a stable stream into the heap. */
module CopyDeserialization {
  import opened CopyModel
  import opened CopyHeap
  import opened CopyLimit
  import opened CopySerialization

  const SLICE_INCREMENT: nat := 128
  const HEADER_WORDS: nat := 2
  const MAX_CHUNK_WORDS: nat := 1024 * 1024 / 8

  // A word of the stable memory: the head of a copied object is overwritten.
  datatype Cell = Stored(word: Word) | FwdPtr(target: Addr) | Zero

  // `slice` is the slice start that an array header carries (0: the ordinary tag).
  datatype Obj = Obj(kind: Kind, data: seq<nat>, fields: seq<Value>, slice: nat)

  type Objects = map<Addr, Obj>

  // `stream0` is the stable memory before deserialization, `heap0` the heap; `moves` maps the stable
  // addresses to heap addresses. The program has none of them.
  datatype LoadState = LoadState(stable: seq<Cell>, heap: Objects, stack: seq<Addr>,
                         stream0: seq<Word>, heap0: Objects, moves: map<Addr, Addr>)

  // The fields of an object that the running scan has taken on.
  datatype Work = Work(owner: Addr, from: nat, to: nat)

  /** A complete stream: every object lies in it, and pointers lead to objects. */
  ghost predicate StreamOk(stream: seq<Word>) {
    forall t :: 0 <= t < |stream| && stream[t].Head? ==> ObjectOk(stream, t)
  }

  ghost predicate ObjectOk(stream: seq<Word>, t: nat)
    requires t < |stream| && stream[t].Head?
  {
    && t + stream[t].size < |stream|
    && forall w :: t < w <= t + stream[t].size ==> FieldOk(stream, w)
  }

  ghost predicate FieldOk(stream: seq<Word>, w: nat) {
    && w < |stream| && stream[w].Val?
    && (stream[w].v.Ptr? ==> stream[w].v.addr < |stream| && stream[stream[w].v.addr].Head?)
  }

  // ---------------------------------------------------------------- the invariant

  ghost predicate CellsRight(stable: seq<Cell>, stream0: seq<Word>, moves: map<Addr, Addr>) {
    && |stable| == |stream0|
    && forall t :: 0 <= t < |stable| ==> stable[t] == if t in moves then FwdPtr(moves[t]) else Stored(stream0[t])
  }

  ghost predicate TargetRight(heap: Objects, heap0: Objects, stream0: seq<Word>, t: Addr, a: Addr) {
    && t < |stream0| && stream0[t].Head?
    && a in heap && a !in heap0
    && heap[a].kind == stream0[t].kind && heap[a].data == stream0[t].data && |heap[a].fields| == stream0[t].size
  }

  ghost predicate TargetsRight(heap: Objects, heap0: Objects, stream0: seq<Word>, moves: map<Addr, Addr>) {
    && Injective(moves)
    && (forall t :: t in moves ==> TargetRight(heap, heap0, stream0, t, moves[t]))
    && (forall a :: a in heap0 ==> a in heap && heap[a] == heap0[a])
    && (forall a :: a in heap && a !in heap0 ==> a in moves.Values)
  }

  /** The stack holds copies, each once; only arrays on it are partly scanned. */
  ghost predicate StackRight(heap: Objects, heap0: Objects, stack: seq<Addr>) {
    && (forall j, k :: 0 <= j < k < |stack| ==> stack[j] != stack[k])
    && (forall k :: 0 <= k < |stack| ==> stack[k] in heap && stack[k] !in heap0)
    && (forall a :: a in heap && a !in heap0 ==>
          && heap[a].slice <= |heap[a].fields|
          && (heap[a].slice > 0 ==> IsArray(heap[a].kind) && a in stack))
  }

  /** Field `i` of `a` still holds a stable pointer. */
  ghost predicate Unscanned(heap: Objects, stack: seq<Addr>, work: Work, a: Addr, i: nat)
    requires a in heap
  {
    (a in stack && i >= heap[a].slice) || (a == work.owner && work.from <= i < work.to)
  }

  ghost predicate FieldRight(heap: Objects, stack: seq<Addr>, stream0: seq<Word>, moves: map<Addr, Addr>, work: Work,
                             t: Addr, a: Addr, i: nat)
  {
    && a in heap && i < |heap[a].fields| && t + 1 + i < |stream0| && stream0[t + 1 + i].Val?
    && if Unscanned(heap, stack, work, a, i) then heap[a].fields[i] == stream0[t + 1 + i].v
       else RenamedMeaning(moves, stream0[t + 1 + i].v, heap[a].fields[i])
  }

  ghost predicate FieldsRight(heap: Objects, stack: seq<Addr>, stream0: seq<Word>, moves: map<Addr, Addr>, work: Work) {
    forall t, i :: t in moves && moves[t] in heap && 0 <= i < |heap[moves[t]].fields| ==>
      FieldRight(heap, stack, stream0, moves, work, t, moves[t], i)
  }

  ghost predicate LoadInv(s: LoadState, work: Work) {
    && StreamOk(s.stream0)
    && CellsRight(s.stable, s.stream0, s.moves)
    && TargetsRight(s.heap, s.heap0, s.stream0, s.moves)
    && StackRight(s.heap, s.heap0, s.stack)
    && FieldsRight(s.heap, s.stack, s.stream0, s.moves, work)
  }

  const NO_WORK: Work := Work(0, 0, 0)

  // ---------------------------------------------------------------- evacuation

  function FieldsAt(stable: seq<Cell>, t: nat, size: nat): (fields: seq<Value>)
    requires t + size < |stable|
    requires forall w :: t < w <= t + size ==> stable[w].Stored? && stable[w].word.Val?
    ensures |fields| == size
  {
    seq(size, i requires 0 <= i < size => stable[t + 1 + i].word.v)
  }

  /** An object of the stream that has not been copied can be read. */
  lemma Readable(s: LoadState, work: Work, t: Addr)
    requires LoadInv(s, work) && t < |s.stream0| && s.stream0[t].Head?
    ensures |s.stable| == |s.stream0|
    ensures t in s.moves ==> s.stable[t] == FwdPtr(s.moves[t])
    ensures t !in s.moves ==>
              && s.stable[t] == Stored(s.stream0[t]) && t + s.stream0[t].size < |s.stable|
              && (forall w :: t < w <= t + s.stream0[t].size ==> s.stable[w] == Stored(s.stream0[w]) && s.stream0[w].Val?)
  {
    hide StackRight, FieldsRight;
    assert ObjectOk(s.stream0, t);
    forall w | t < w <= t + s.stream0[t].size
      ensures s.stream0[w].Val? && w !in s.moves
    {
      assert FieldOk(s.stream0, w);
      assert w in s.moves ==> TargetRight(s.heap, s.heap0, s.stream0, w, s.moves[w]);
    }
  }

  /** The object at `t` is copied to `a`; its fields keep their stable pointers. */
  ghost function CopiedTo(s: LoadState, t: Addr, a: Addr, o: Obj): LoadState
    requires t < |s.stable|
  {
    s.(stable := s.stable[t := FwdPtr(a)], heap := s.heap[a := o], stack := s.stack + [a], moves := s.moves[t := a])
  }

  /** The fields of the object are those that the stream has behind its head. */
  ghost predicate FieldsRead(stream0: seq<Word>, t: Addr, o: Obj) {
    forall i :: 0 <= i < |o.fields| ==> t + 1 + i < |stream0| && stream0[t + 1 + i] == Val(o.fields[i])
  }

  lemma CopiedToKeeps(s: LoadState, work: Work, t: Addr, a: Addr, o: Obj)
    requires LoadInv(s, work) && t < |s.stream0| && s.stream0[t].Head? && t !in s.moves && |s.stable| == |s.stream0|
    requires a !in s.heap && o.kind == s.stream0[t].kind && o.data == s.stream0[t].data && o.slice == 0
    requires |o.fields| == s.stream0[t].size
    requires FieldsRead(s.stream0, t, o)
    requires work.owner in s.heap || work.from == work.to
    ensures LoadInv(CopiedTo(s, t, a, o), work)
  {
    hide StreamOk, RenamedMeaning, FieldRight, FieldsRead, TargetsRight, StackRight;
    var s' := CopiedTo(s, t, a, o);
    OldObjects(s, a);
    CopiedTargets(s, work, t, a, o);
    CopiedStack(s, work, t, a, o);
    forall u, i | u in s'.moves && s'.moves[u] in s'.heap && 0 <= i < |s'.heap[s'.moves[u]].fields|
      ensures FieldRight(s'.heap, s'.stack, s'.stream0, s'.moves, work, u, s'.moves[u], i)
    {
      CopiedFieldRight(s, work, t, a, o, u, i);
    }
  }

  lemma OldObjects(s: LoadState, a: Addr)
    requires TargetsRight(s.heap, s.heap0, s.stream0, s.moves)
    ensures a !in s.heap ==> a !in s.heap0
  {
  }

  lemma CopiedFieldRight(s: LoadState, work: Work, t: Addr, a: Addr, o: Obj, u: Addr, i: nat)
    requires LoadInv(s, work) && t < |s.stream0| && t !in s.moves && |s.stable| == |s.stream0|
    requires a !in s.heap && o.slice == 0
    requires FieldsRead(s.stream0, t, o)
    requires work.owner in s.heap || work.from == work.to
    requires var s' := CopiedTo(s, t, a, o); u in s'.moves && s'.moves[u] in s'.heap && i < |s'.heap[s'.moves[u]].fields|
    ensures var s' := CopiedTo(s, t, a, o);
      FieldRight(s'.heap, s'.stack, s'.stream0, s'.moves, work, u, s'.moves[u], i)
  {
    hide StreamOk, CellsRight, StackRight, RenamedMeaning;
    var s' := CopiedTo(s, t, a, o);
    if u == t {
      assert s'.stack[|s.stack|] == a && s'.heap[a] == o;
      assert o.fields[i] == s'.heap[a].fields[i];
    } else {
      var b := s.moves[u];
      assert TargetRight(s.heap, s.heap0, s.stream0, u, b);
      assert FieldRight(s.heap, s.stack, s.stream0, s.moves, work, u, b, i);
      assert b in s'.stack <==> b in s.stack;
      MoreMoves(s.moves, t, a, s.stream0[u + 1 + i].v, s.heap[b].fields[i]);
    }
  }

  lemma MoreMoves(m: map<Addr, Addr>, t: Addr, a: Addr, v: Value, v': Value)
    requires t !in m
    ensures RenamedMeaning(m, v, v') ==> RenamedMeaning(m[t := a], v, v')
  {
  }

  lemma CopiedTargets(s: LoadState, work: Work, t: Addr, a: Addr, o: Obj)
    requires CellsRight(s.stable, s.stream0, s.moves) && TargetsRight(s.heap, s.heap0, s.stream0, s.moves)
    requires t < |s.stream0| && s.stream0[t].Head? && t !in s.moves
    requires a !in s.heap && o.kind == s.stream0[t].kind && o.data == s.stream0[t].data && |o.fields| == s.stream0[t].size
    ensures var s' := CopiedTo(s, t, a, o);
            CellsRight(s'.stable, s'.stream0, s'.moves) && TargetsRight(s'.heap, s'.heap0, s'.stream0, s'.moves)
  {
    var s' := CopiedTo(s, t, a, o);
    forall u | u in s.moves
      ensures s.moves[u] != a && TargetRight(s'.heap, s.heap0, s.stream0, u, s.moves[u])
    {
      assert TargetRight(s.heap, s.heap0, s.stream0, u, s.moves[u]);
    }
    MoreTargets(s.moves, t, a);
  }

  lemma MoreTargets(m: map<Addr, Addr>, t: Addr, a: Addr)
    requires t !in m
    ensures m[t := a].Values == m.Values + {a}
  {
    var m' := m[t := a];
    assert m'[t] == a;
    forall b | b in m.Values
      ensures b in m'.Values
    {
      var u :| u in m && m[u] == b;
      assert m'[u] == b;
    }
  }

  lemma CopiedStack(s: LoadState, work: Work, t: Addr, a: Addr, o: Obj)
    requires StackRight(s.heap, s.heap0, s.stack) && t < |s.stable|
    requires a !in s.heap && a !in s.heap0 && o.slice == 0
    ensures var s' := CopiedTo(s, t, a, o); StackRight(s'.heap, s'.heap0, s'.stack)
  {
    var s' := CopiedTo(s, t, a, o);
    forall b | b in s.stack
      ensures b in s'.stack
    {
      var k :| 0 <= k < |s.stack| && s.stack[k] == b;
      assert s'.stack[k] == b;
    }
  }

  // ---------------------------------------------------------------- the scan

  /** Popping `x`: its next slice becomes the work, and an array with more goes back on the stack. */
  ghost function Popped(s: LoadState, x: Addr, stop: nat): LoadState
    requires x in s.heap && |s.stack| > 0
  {
    var more := stop < |s.heap[x].fields|;
    s.(heap := s.heap[x := s.heap[x].(slice := if more then stop else 0)],
       stack := if more then s.stack else s.stack[..|s.stack| - 1])
  }

  lemma PoppedKeeps(s: LoadState, x: Addr, stop: nat)
    requires LoadInv(s, NO_WORK) && |s.stack| > 0 && x == s.stack[|s.stack| - 1] && x in s.heap
    requires s.heap[x].slice <= stop <= |s.heap[x].fields|
    requires stop < |s.heap[x].fields| ==> IsArray(s.heap[x].kind) && stop > 0
    ensures LoadInv(Popped(s, x, stop), Work(x, s.heap[x].slice, stop))
  {
    hide StreamOk, CellsRight, FieldRight, TargetsRight, StackRight;
    var s', work := Popped(s, x, stop), Work(x, s.heap[x].slice, stop);
    PoppedStack(s, x, stop);
    PoppedTargets(s, x, stop);
    forall t, i | t in s'.moves && s'.moves[t] in s'.heap && 0 <= i < |s'.heap[s'.moves[t]].fields|
      ensures FieldRight(s'.heap, s'.stack, s'.stream0, s'.moves, work, t, s'.moves[t], i)
    {
      PoppedField(s, x, stop, t, i);
    }
  }

  lemma PoppedTargets(s: LoadState, x: Addr, stop: nat)
    requires TargetsRight(s.heap, s.heap0, s.stream0, s.moves) && StackRight(s.heap, s.heap0, s.stack)
    requires |s.stack| > 0 && x == s.stack[|s.stack| - 1] && x in s.heap
    ensures TargetsRight(Popped(s, x, stop).heap, s.heap0, s.stream0, s.moves)
  {
    forall t | t in s.moves
      ensures TargetRight(Popped(s, x, stop).heap, s.heap0, s.stream0, t, s.moves[t])
    {
      assert TargetRight(s.heap, s.heap0, s.stream0, t, s.moves[t]);
    }
  }

  lemma PoppedField(s: LoadState, x: Addr, stop: nat, t: Addr, i: nat)
    requires x in s.heap && |s.stack| > 0 && x == s.stack[|s.stack| - 1]
    requires t in s.moves && s.moves[t] in s.heap && i < |s.heap[s.moves[t]].fields|
    requires s.heap[x].slice <= stop <= |s.heap[x].fields|
    requires var a, s' := s.moves[t], Popped(s, x, stop); a in s'.stack <==> a in s.stack && (a != x || stop < |s.heap[x].fields|)
    requires FieldRight(s.heap, s.stack, s.stream0, s.moves, NO_WORK, t, s.moves[t], i)
    ensures var s' := Popped(s, x, stop);
      FieldRight(s'.heap, s'.stack, s'.stream0, s'.moves, Work(x, s.heap[x].slice, stop), t, s.moves[t], i)
  {
    hide RenamedMeaning;
    assert x in s.stack;
  }

  lemma PoppedStack(s: LoadState, x: Addr, stop: nat)
    requires StackRight(s.heap, s.heap0, s.stack) && |s.stack| > 0 && x == s.stack[|s.stack| - 1] && x in s.heap
    requires s.heap[x].slice <= stop <= |s.heap[x].fields|
    requires stop < |s.heap[x].fields| ==> IsArray(s.heap[x].kind) && stop > 0
    ensures var s' := Popped(s, x, stop);
            && StackRight(s'.heap, s'.heap0, s'.stack)
            && (forall a :: a in s'.stack <==> a in s.stack && (a != x || stop < |s.heap[x].fields|))
  {
    var s' := Popped(s, x, stop);
    var rest := s.stack[..|s.stack| - 1];
    assert s.stack == rest + [x];
    forall a | a in s.stack && a != x
      ensures a in rest
    {
    }
    forall a | a in rest
      ensures a != x && a in s.stack
    {
    }
  }

  /** The next field of the work is translated. */
  lemma FieldTranslated(s: LoadState, work: Work, t: Addr, v: Value)
    requires LoadInv(s, work) && work.owner in s.heap && work.from < work.to <= |s.heap[work.owner].fields|
    requires t in s.moves && s.moves[t] == work.owner
    requires work.owner in s.stack ==> work.to <= s.heap[work.owner].slice
    requires RenamedMeaning(s.moves, s.heap[work.owner].fields[work.from], v)
    ensures LoadInv(s.(heap := s.heap[work.owner := s.heap[work.owner].(fields := s.heap[work.owner].fields[work.from := v])]),
                work.(from := work.from + 1))
  {
    hide StreamOk, CellsRight, RenamedMeaning, TargetsRight, StackRight, FieldRight;
    var x, work' := work.owner, work.(from := work.from + 1);
    var s' := s.(heap := s.heap[x := s.heap[x].(fields := s.heap[x].fields[work.from := v])]);
    TranslatedTargets(s, work, t, v);
    forall u, i | u in s'.moves && s'.moves[u] in s'.heap && 0 <= i < |s'.heap[s'.moves[u]].fields|
      ensures FieldRight(s'.heap, s'.stack, s'.stream0, s'.moves, work', u, s'.moves[u], i)
    {
      TranslatedField(s, work, u, v, i);
    }
  }

  lemma TranslatedTargets(s: LoadState, work: Work, t: Addr, v: Value)
    requires TargetsRight(s.heap, s.heap0, s.stream0, s.moves) && StackRight(s.heap, s.heap0, s.stack)
    requires t in s.moves && s.moves[t] == work.owner && work.owner in s.heap && work.from < |s.heap[work.owner].fields|
    ensures var heap := s.heap[work.owner := s.heap[work.owner].(fields := s.heap[work.owner].fields[work.from := v])];
            TargetsRight(heap, s.heap0, s.stream0, s.moves) && StackRight(heap, s.heap0, s.stack)
  {
    var heap := s.heap[work.owner := s.heap[work.owner].(fields := s.heap[work.owner].fields[work.from := v])];
    forall u | u in s.moves
      ensures TargetRight(heap, s.heap0, s.stream0, u, s.moves[u])
    {
      assert TargetRight(s.heap, s.heap0, s.stream0, u, s.moves[u]);
    }
    assert TargetRight(s.heap, s.heap0, s.stream0, t, s.moves[t]);
  }

  lemma TranslatedField(s: LoadState, work: Work, u: Addr, v: Value, i: nat)
    requires work.owner in s.heap && work.from < work.to <= |s.heap[work.owner].fields|
    requires work.owner in s.stack ==> work.to <= s.heap[work.owner].slice
    requires u in s.moves && s.moves[u] in s.heap && i < |s.heap[s.moves[u]].fields|
    requires RenamedMeaning(s.moves, s.heap[work.owner].fields[work.from], v)
    requires FieldRight(s.heap, s.stack, s.stream0, s.moves, work, u, s.moves[u], i)
    ensures var heap := s.heap[work.owner := s.heap[work.owner].(fields := s.heap[work.owner].fields[work.from := v])];
            FieldRight(heap, s.stack, s.stream0, s.moves, work.(from := work.from + 1), u, s.moves[u], i)
  {
    hide RenamedMeaning;
  }

  lemma WorkDone(s: LoadState, work: Work)
    requires LoadInv(s, work) && work.from >= work.to
    ensures LoadInv(s, NO_WORK)
  {
    hide StreamOk, CellsRight, RenamedMeaning, TargetsRight, StackRight;
    forall t, i | t in s.moves && s.moves[t] in s.heap && 0 <= i < |s.heap[s.moves[t]].fields|
      ensures FieldRight(s.heap, s.stack, s.stream0, s.moves, NO_WORK, t, s.moves[t], i)
    {
      assert FieldRight(s.heap, s.stack, s.stream0, s.moves, work, t, s.moves[t], i);
    }
  }

  // ---------------------------------------------------------------- what has been achieved

  /** The deserialized part of the heap. */
  ghost function NewGraph(heap: Objects, heap0: Objects): Graph {
    map a | a in heap && a !in heap0 :: Node(heap[a].kind, heap[a].data, heap[a].fields)
  }

  ghost predicate HasRoots(s: LoadState, roots: set<Addr>) {
    roots <= s.moves.Keys
  }

  /** With an empty stack all that has been copied is complete. */
  lemma DeserializationComplete(s: LoadState, roots: set<Addr>)
    requires LoadInv(s, NO_WORK) && s.stack == [] && HasRoots(s, roots)
    requires IsReachable(StableGraph(s.stream0), roots, StableGraph(s.stream0).Keys)
    ensures s.moves.Keys == StableGraph(s.stream0).Keys
    ensures IsCopy(StableGraph(s.stream0), NewGraph(s.heap, s.heap0), s.moves)
  {
    hide StreamOk, CellsRight, StackRight, FieldsRight, RenamedMeaning, StableFields, Renamed, PointsInto;
    var g, h, m := StableGraph(s.stream0), NewGraph(s.heap, s.heap0), s.moves;
    forall t | t in m
      ensures t in g && m[t] in h && m[t] in m.Values
      ensures h[m[t]].kind == g[t].kind && h[m[t]].data == g[t].data
      ensures PointsInto(g[t].fields, m.Keys) && Renamed(m, g[t].fields, h[m[t]].fields)
    {
      assert TargetRight(s.heap, s.heap0, s.stream0, t, m[t]);
      NewNode(s, t);
    }
    forall a | a in m.Values
      ensures a in h
    {
      var t :| t in m && m[t] == a;
      assert TargetRight(s.heap, s.heap0, s.stream0, t, a);
    }
    assert Closed(g, roots, m.Keys);
  }

  lemma NewNode(s: LoadState, t: Addr)
    requires LoadInv(s, NO_WORK) && s.stack == [] && t in s.moves
    ensures s.moves[t] in s.heap && t < |s.stream0| && s.stream0[t].Head?
    ensures PointsInto(StableFields(s.stream0, t), s.moves.Keys)
    ensures Renamed(s.moves, StableFields(s.stream0, t), s.heap[s.moves[t]].fields)
  {
    hide StreamOk, CellsRight, StackRight, RenamedMeaning, Renamed, PointsInto;
    var from, to := StableFields(s.stream0, t), s.heap[s.moves[t]].fields;
    assert TargetRight(s.heap, s.heap0, s.stream0, t, s.moves[t]);
    forall i | 0 <= i < |from|
      ensures RenamedMeaning(s.moves, from[i], to[i])
    {
      assert FieldRight(s.heap, s.stack, s.stream0, s.moves, NO_WORK, t, s.moves[t], i);
    }
    RenamedAll(s.moves, from, to);
  }

  // ---------------------------------------------------------------- progress

  /** Words of the stable objects before `n` that have not been copied. */
  ghost function Pending(stream: seq<Word>, moves: map<Addr, Addr>, n: nat): nat
    requires n <= |stream|
  {
    if n == 0 then 0
    else Pending(stream, moves, n - 1) + (if stream[n - 1].Head? && n - 1 !in moves then stream[n - 1].size + 1 else 0)
  }

  /** Visits and fields that the stack still demands. */
  ghost function Remaining(heap: Objects, stack: seq<Addr>): nat {
    if stack == [] then 0
    else
      var a := stack[|stack| - 1];
      var n := if a in heap && heap[a].slice <= |heap[a].fields| then |heap[a].fields| - heap[a].slice else 0;
      Remaining(heap, stack[..|stack| - 1]) + n + 1
  }

  lemma {:induction false} RemainingSame(heap: Objects, heap': Objects, stack: seq<Addr>)
    requires forall k :: 0 <= k < |stack| ==> (stack[k] in heap <==> stack[k] in heap')
    requires forall k :: 0 <= k < |stack| && stack[k] in heap ==>
               heap'[stack[k]].slice == heap[stack[k]].slice && |heap'[stack[k]].fields| == |heap[stack[k]].fields|
    ensures Remaining(heap', stack) == Remaining(heap, stack)
  {
    if stack != [] {
      RemainingSame(heap, heap', stack[..|stack| - 1]);
    }
  }

  /** A visit takes an object off the stack, or at least a slice off the object. */
  lemma PoppedRemaining(s: LoadState, x: Addr, stop: nat)
    requires StackRight(s.heap, s.heap0, s.stack) && |s.stack| > 0 && x == s.stack[|s.stack| - 1] && x in s.heap
    requires s.heap[x].slice <= stop <= |s.heap[x].fields|
    requires stop < |s.heap[x].fields| ==> s.heap[x].slice < stop
    ensures Remaining(Popped(s, x, stop).heap, Popped(s, x, stop).stack) < Remaining(s.heap, s.stack)
  {
    var rest := s.stack[..|s.stack| - 1];
    RemainingSame(s.heap, Popped(s, x, stop).heap, rest);
  }

  /** Words that have still to be copied or visited. */
  ghost function Ahead(s: LoadState): nat {
    Pending(s.stream0, s.moves, |s.stream0|) + Remaining(s.heap, s.stack)
  }

  lemma {:induction false} PendingMoved(stream: seq<Word>, moves: map<Addr, Addr>, t: Addr, a: Addr, n: nat)
    requires n <= |stream| && t < |stream| && stream[t].Head? && t !in moves
    ensures Pending(stream, moves, n) == Pending(stream, moves[t := a], n) + if t < n then stream[t].size + 1 else 0
  {
    if n > 0 {
      PendingMoved(stream, moves, t, a, n - 1);
    }
  }

  lemma HeadsApart(stream: seq<Word>, t: nat, u: nat)
    requires StreamOk(stream) && t < u < |stream| && stream[t].Head? && stream[u].Head?
    ensures t + stream[t].size < u
  {
    assert ObjectOk(stream, t);
    assert u <= t + stream[t].size ==> FieldOk(stream, u);
  }

  /** Objects of the stream do not overlap, so that their words are not more than those of the stream. */
  lemma {:induction false} PendingBounded(stream: seq<Word>, moves: map<Addr, Addr>, n: nat, m: nat)
    requires StreamOk(stream) && n <= m <= |stream|
    requires forall t :: 0 <= t < n && stream[t].Head? ==> t + stream[t].size < m
    ensures Pending(stream, moves, n) <= m
  {
    if n > 0 {
      if stream[n - 1].Head? {
        forall t | 0 <= t < n - 1 && stream[t].Head?
          ensures t + stream[t].size < n - 1
        {
          HeadsApart(stream, t, n - 1);
        }
        PendingBounded(stream, moves, n - 1, n - 1);
      } else {
        PendingBounded(stream, moves, n - 1, m);
      }
    }
  }

  /** At the beginning there are no more words ahead than the stream has. */
  lemma AheadAtStart(s: LoadState)
    requires StreamOk(s.stream0) && s.stack == []
    ensures Ahead(s) <= |s.stream0|
  {
    forall t | 0 <= t < |s.stream0| && s.stream0[t].Head?
      ensures t + s.stream0[t].size < |s.stream0|
    {
      assert ObjectOk(s.stream0, t);
    }
    PendingBounded(s.stream0, s.moves, |s.stream0|, |s.stream0|);
  }

  lemma RemainingPushed(heap: Objects, heap': Objects, stack: seq<Addr>, a: Addr)
    requires a in heap' && heap'[a].slice == 0
    requires forall k :: 0 <= k < |stack| ==> stack[k] in heap && stack[k] in heap' && heap'[stack[k]] == heap[stack[k]]
    ensures Remaining(heap', stack + [a]) == Remaining(heap, stack) + |heap'[a].fields| + 1
  {
    RemainingSame(heap, heap', stack);
    assert (stack + [a])[..|stack|] == stack;
  }

  /** Copying turns words to copy into fields to visit. */
  lemma CopiedAhead(s: LoadState, work: Work, t: Addr, a: Addr, o: Obj)
    requires LoadInv(s, work) && t < |s.stream0| && s.stream0[t].Head? && t !in s.moves && t < |s.stable|
    requires a !in s.heap && |o.fields| == s.stream0[t].size && o.slice == 0
    ensures Ahead(CopiedTo(s, t, a, o)) == Ahead(s)
  {
    hide StreamOk, CellsRight, TargetsRight, FieldsRight, Pending, Remaining;
    PendingMoved(s.stream0, s.moves, t, a, |s.stream0|);
    RemainingPushed(s.heap, CopiedTo(s, t, a, o).heap, s.stack, a);
  }

  /** Translating a field leaves its object to be visited as before. */
  lemma TranslatedAhead(s: LoadState, x: Addr, i: nat, v: Value)
    requires x in s.heap && i < |s.heap[x].fields|
    ensures Ahead(s.(heap := s.heap[x := s.heap[x].(fields := s.heap[x].fields[i := v])])) == Ahead(s)
  {
    hide Pending;
    RemainingSame(s.heap, s.heap[x := s.heap[x].(fields := s.heap[x].fields[i := v])], s.stack);
  }

  lemma StableLength(s: LoadState)
    requires LoadInv(s, NO_WORK)
    ensures |s.stable| == |s.stream0|
  {
  }

  // ---------------------------------------------------------------- the algorithm

  lemma FreshExists(s: set<Addr>) returns (a: Addr)
    ensures forall x :: x in s ==> x < a
    decreases |s|
  {
    a := 0;
    if s != {} {
      var y :| y in s;
      var b := FreshExists(s - {y});
      forall x | x in s
        ensures x == y || x < b
      {
        assert x == y || x in s - {y};
      }
      a := if b > y then b else y + 1;
    }
  }

  /** A copy has an original. */
  lemma OriginalOf(s: LoadState, a: Addr) returns (t: Addr)
    requires TargetsRight(s.heap, s.heap0, s.stream0, s.moves) && a in s.heap && a !in s.heap0
    ensures t in s.moves && s.moves[t] == a
  {
    t :| t in s.moves && s.moves[t] == a;
  }

  lemma TopOfStack(s: LoadState)
    requires LoadInv(s, NO_WORK) && s.stack != []
    ensures var x := s.stack[|s.stack| - 1];
            && x in s.heap && x !in s.heap0 && s.heap[x].slice <= |s.heap[x].fields| && (!IsArray(s.heap[x].kind) ==> s.heap[x].slice == 0)
  {
    hide StreamOk, CellsRight, TargetsRight, FieldsRight;
  }

  /** The field that comes next holds a pointer to a stable object, or no pointer. */
  lemma NextField(s: LoadState, work: Work, t: Addr)
    requires LoadInv(s, work) && t in s.moves && s.moves[t] == work.owner && work.owner in s.heap
    requires work.from < work.to <= |s.heap[work.owner].fields|
    ensures var v := s.heap[work.owner].fields[work.from];
            v.Ptr? ==> v.addr < |s.stream0| && s.stream0[v.addr].Head?
  {
    hide CellsRight, StackRight;
    assert TargetRight(s.heap, s.heap0, s.stream0, t, work.owner);
    assert FieldRight(s.heap, s.stack, s.stream0, s.moves, work, t, work.owner, work.from);
    assert ObjectOk(s.stream0, t);
    assert FieldOk(s.stream0, t + 1 + work.from);
  }

  class Deserialization {
    var stable: seq<Cell>
    var heap: Objects
    var scanStack: seq<Addr>
    var stableRoot: Option<Addr>
    var clearPosition: nat
    // Words of the heap.
    var heapSize: nat
    const limit: ExecutionMonitor
    // Objects, slices and chunks that were begun when all memory accesses were spent.
    ghost var late: nat

    ghost var stream0: seq<Word>
    ghost var heap0: Objects
    ghost var moves: map<Addr, Addr>
    // The stable memory as it was before the cleanup.
    ghost var kept: seq<Cell>

    ghost function View(): LoadState
      reads this
    {
      LoadState(kept, heap, scanStack, stream0, heap0, moves)
    }

    ghost predicate Valid()
      reads this, limit
    {
      && LoadInv(View(), NO_WORK) && limit.Valid()
      && |stable| == |kept| && clearPosition <= |stable|
      && (clearPosition == 0 ==> stable == kept)
      && (clearPosition > 0 ==> scanStack == [])
      && (forall w :: 0 <= w < clearPosition ==> stable[w] == Zero)
      && (stableRoot == None ==> moves == map[])
      && (stableRoot.Some? ==> 0 in moves && stableRoot == Some(moves[0]))
    }

    function ProcessedMemory(): nat
      reads this
    {
      (heapSize + clearPosition) * WORD_SIZE
    }

    constructor (stream: seq<Word>, heap: Objects, heapSize: nat, instructionLimit: nat, stableMemoryAccessLimit: nat)
      requires StreamOk(stream)
      ensures fresh(limit) && Valid() && stream0 == stream && heap0 == heap && moves == map[] && this.heap == heap
      ensures scanStack == [] && clearPosition == 0 && stableRoot == None && |stable| == |stream|
    {
      stable := seq(|stream|, w requires 0 <= w < |stream| => Stored(stream[w]));
      this.heap, scanStack, stableRoot, clearPosition := heap, [], None, 0;
      this.heapSize := heapSize;
      limit := new ExecutionMonitor(instructionLimit, stableMemoryAccessLimit);
      stream0, heap0, moves := stream, heap, map[];
      kept := seq(|stream|, w requires 0 <= w < |stream| => Stored(stream[w]));
    }

    /** New space in the heap. */
    method AllocWords(words: nat) returns (address: Addr)
      modifies this`heapSize
      ensures address !in heap
    {
      heapSize := heapSize + words;
      ghost var a := FreshExists(heap.Keys);
      assert a !in heap.Keys;
      address :| address !in heap.Keys;
    }

    /** The state once the original at `t` has been forwarded. */
    ghost function Forwarding(t: Addr, target: Addr): LoadState
      requires t < |kept|
      reads this
    {
      View().(stable := kept[t := FwdPtr(target)], moves := moves[t := target])
    }

    /** Reads the object at `t` into the heap and remembers to scan it. */
    method Copy(t: Addr, ghost work: Work) returns (target: Addr, ghost o: Obj)
      requires LoadInv(View(), work) && stable == kept && t < |stream0| && stream0[t].Head? && t !in moves
      requires work.owner in heap || work.from == work.to
      modifies this`heap, this`scanStack, this`heapSize
      ensures t < |kept| && target !in old(heap)
      ensures Forwarding(t, target) == CopiedTo(old(View()), t, target, o)
      ensures LoadInv(Forwarding(t, target), work) && Ahead(Forwarding(t, target)) == Ahead(old(View()))
    {
      hide LoadInv;
      Readable(View(), work, t);
      var head := stable[t].word;
      target := AllocWords(HEADER_WORDS + |head.data| + head.size);
      var new_ := Obj(head.kind, head.data, FieldsAt(stable, t, head.size), 0);
      o := new_;
      CopiedToKeeps(View(), work, t, target, o);
      CopiedAhead(View(), work, t, target, o);
      heap := heap[target := new_];
      scanStack := scanStack + [target];
    }

    /** The heap address of a stable object, which is copied unless it has been before. */
    method Evacuate(t: Addr, ghost work: Work) returns (target: Addr)
      requires LoadInv(View(), work) && stable == kept && t < |stream0| && stream0[t].Head?
      requires work.owner in heap || work.from == work.to
      modifies this`stable, this`heap, this`scanStack, this`heapSize, this`moves, this`kept
      ensures LoadInv(View(), work) && stable == kept && t in moves && moves[t] == target
      ensures Ahead(View()) == Ahead(old(View()))
      ensures forall u :: u in old(moves) ==> u in moves && moves[u] == old(moves)[u]
      ensures forall a :: a in old(heap) ==>
                a in heap && heap[a] == old(heap)[a] && (a in scanStack ==> a in old(scanStack))
    {
      hide LoadInv, Ahead;
      Readable(View(), work, t);
      if stable[t].FwdPtr? {
        return stable[t].target;
      }
      ghost var o: Obj;
      target, o := Copy(t, work);
      stable := stable[t := FwdPtr(target)];
      kept := kept[t := FwdPtr(target)];
      moves := moves[t := target];
    }

    /** Deserializes from a root; the first one is the object at the start of the stable memory. */
    method Start(root: Addr) returns (target: Addr)
      requires Valid() && clearPosition == 0 && root < |stream0| && stream0[root].Head?
      requires stableRoot == None ==> root == 0
      modifies this`stable, this`heap, this`scanStack, this`heapSize, this`moves, this`kept, this`stableRoot
      ensures Valid() && root in moves && moves[root] == target && stableRoot.Some? && Left() == old(Left())
      ensures forall u :: u in old(moves) ==> u in moves && moves[u] == old(moves)[u]
    {
      hide LoadInv, Ahead;
      StableLength(View());
      target := Evacuate(root, NO_WORK);
      StableLength(View());
      if stableRoot == None {
        stableRoot := Some(target);
      }
    }

    /** Visits the fields `from` to `to` of the object that the work is about. */
    method ScanFields(x: Addr, start: nat, stop: nat, ghost t: Addr)
      requires LoadInv(View(), Work(x, start, stop)) && stable == kept
      requires x in heap && start <= stop <= |heap[x].fields| && t in moves && moves[t] == x
      requires x in scanStack ==> stop <= heap[x].slice
      modifies this`stable, this`heap, this`scanStack, this`heapSize, this`moves, this`kept
      ensures LoadInv(View(), NO_WORK) && stable == kept && Ahead(View()) == Ahead(old(View()))
      ensures forall u :: u in old(moves) ==> u in moves && moves[u] == old(moves)[u]
    {
      hide LoadInv, Ahead, RenamedMeaning;
      var i := start;
      while i < stop
        invariant start <= i <= stop
        invariant LoadInv(View(), Work(x, i, stop)) && stable == kept && Ahead(View()) == Ahead(old(View()))
        invariant x in heap && stop <= |heap[x].fields| && t in moves && moves[t] == x
        invariant x in scanStack ==> stop <= heap[x].slice
        invariant forall u :: u in old(moves) ==> u in moves && moves[u] == old(moves)[u]
      {
        NextField(View(), Work(x, i, stop), t);
        var v := heap[x].fields[i];
        if v.Ptr? {
          var target := Evacuate(v.addr, Work(x, i, stop));
          v := Ptr(target);
        }
        FieldMeaning(View(), heap[x].fields[i], v);
        FieldTranslated(View(), Work(x, i, stop), t, v);
        TranslatedAhead(View(), x, i, v);
        heap := heap[x := heap[x].(fields := heap[x].fields[i := v])];
        i := i + 1;
      }
      WorkDone(View(), Work(x, i, stop));
    }

    method ScanTop()
      requires Valid() && clearPosition == 0 && scanStack != []
      modifies this`stable, this`heap, this`scanStack, this`heapSize, this`moves, this`kept
      ensures Valid() && Ahead(View()) < Ahead(old(View()))
      ensures forall u :: u in old(moves) ==> u in moves && moves[u] == old(moves)[u]
    {
      hide StreamOk, CellsRight, TargetsRight, StackRight, FieldsRight, Pending, Remaining;
      ghost var s := View();
      TopOfStack(s);
      var x := scanStack[|scanStack| - 1];
      scanStack := scanStack[..|scanStack| - 1];
      var start, stop := heap[x].slice, |heap[x].fields|;
      if IsArray(heap[x].kind) && |heap[x].fields| - start > SLICE_INCREMENT {
        stop := start + SLICE_INCREMENT;
        scanStack := scanStack + [x];
      }
      heap := heap[x := heap[x].(slice := if stop < |heap[x].fields| then stop else 0)];
      PoppedKeeps(s, x, stop);
      PoppedFacts(s, x, stop);
      assert scanStack == Popped(s, x, stop).stack;
      ghost var t := OriginalOf(s, x);
      ScanFields(x, start, stop, t);
    }

    /** Takes an object from the stack and scans it, an array slice by slice. */
    method Scan()
      requires Valid() && clearPosition == 0 && scanStack != []
      modifies this`stable, this`heap, this`scanStack, this`heapSize, this`moves, this`kept, limit, this`late
      ensures Valid() && Ahead(View()) < Ahead(old(View()))
      ensures forall u :: u in old(moves) ==> u in moves && moves[u] == old(moves)[u]
      ensures late == old(late) + if old(limit.Spent(ProcessedMemory())) then 1 else 0
    {
      hide LoadInv, Ahead;
      late := late + if limit.Spent(ProcessedMemory()) then 1 else 0;
      limit.Execute();
      ScanTop();
    }

    /** Clears the next chunk of the stable memory. */
    method Cleanup()
      requires Valid() && scanStack == [] && clearPosition < |stable|
      modifies this`stable, this`clearPosition, limit, this`late
      ensures Valid() && old(clearPosition) < clearPosition && |stable| == |old(stable)|
      ensures late == old(late) + if old(limit.Spent(ProcessedMemory())) then 1 else 0
    {
      hide LoadInv;
      late := late + if limit.Spent(ProcessedMemory()) then 1 else 0;
      limit.Execute();
      var remainder := |stable| - clearPosition;
      var chunk := if MAX_CHUNK_WORDS < remainder then MAX_CHUNK_WORDS else remainder;
      stable := stable[..clearPosition] + seq(chunk, _ => Zero) + stable[clearPosition + chunk..];
      clearPosition := clearPosition + chunk;
    }

    predicate IsCompleted()
      reads this
    {
      scanStack == [] && clearPosition == |stable|
    }

    /** Words that are still to be copied, visited or cleared. */
    ghost function Left(): nat
      requires Valid()
      reads this, limit
    {
      Ahead(View()) + (|stable| - clearPosition)
    }

    lemma NothingLeft()
      requires Valid() && Left() == 0
      ensures IsCompleted()
    {
      hide LoadInv, Pending;
    }

    /** Copies, and then clears the stable memory, until both are done or a limit of the increment is used up. */
    method CopyIncrement()
      requires Valid()
      modifies this`stable, this`heap, this`scanStack, this`heapSize, this`moves, this`kept, this`clearPosition, limit, this`late
      ensures Valid()
      // Every increment gets on, and nothing but the limits stops it.
      ensures !old(IsCompleted()) ==> Left() < old(Left())
      ensures old(IsCompleted()) ==> View() == old(View()) && stable == old(stable)
      ensures IsCompleted() || limit.Exhausted(ProcessedMemory())
      ensures old(clearPosition) <= clearPosition && |stable| == |old(stable)|
      ensures forall u :: u in old(moves) ==> u in moves && moves[u] == old(moves)[u]
      ensures late == old(late)
    {
      hide LoadInv, Ahead;
      StableLength(View());
      limit.Reset(ProcessedMemory());
      ScanIncrement();
      if scanStack == [] {
        CleanupIncrement(old(scanStack) == []);
      }
    }

    /** Scans until the stack is empty or a limit is used up. */
    method ScanIncrement()
      requires Valid() && (scanStack != [] ==> limit.Begins(ProcessedMemory()))
      modifies this`stable, this`heap, this`scanStack, this`heapSize, this`moves, this`kept, limit, this`late
      ensures Valid() && |stable| == |old(stable)| && Left() <= old(Left())
      ensures old(scanStack) != [] ==> Left() < old(Left())
      ensures old(scanStack) == [] ==> View() == old(View()) && stable == old(stable) && unchanged(limit) && heapSize == old(heapSize)
      ensures scanStack == [] || limit.Exhausted(ProcessedMemory())
      ensures forall u :: u in old(moves) ==> u in moves && moves[u] == old(moves)[u]
      ensures late == old(late)
    {
      hide LoadInv, Ahead;
      StableLength(View());
      while scanStack != []
        invariant Valid() && |stable| == |stream0| == |old(stable)| && (scanStack != [] ==> clearPosition == 0)
        invariant Left() < old(Left()) || (View() == old(View()) && stable == old(stable) && heapSize == old(heapSize) && unchanged(limit))
        invariant old(scanStack) == [] ==> View() == old(View()) && stable == old(stable) && heapSize == old(heapSize) && unchanged(limit)
        invariant forall u :: u in old(moves) ==> u in moves && moves[u] == old(moves)[u]
        invariant late == old(late)
        decreases Left()
      {
        var timeOver := limit.IsExceeded(ProcessedMemory());
        if timeOver {
          break;
        }
        Scan();
        StableLength(View());
      }
    }

    /** Clears the stable memory until it is clear or a limit is used up. */
    method CleanupIncrement(ghost begins: bool)
      requires Valid() && scanStack == [] && (begins ==> limit.Begins(ProcessedMemory()))
      modifies this`stable, this`clearPosition, limit, this`late
      ensures Valid() && old(clearPosition) <= clearPosition && |stable| == |old(stable)|
      ensures old(clearPosition) == |stable| ==> stable == old(stable)
      ensures begins && old(clearPosition) < |stable| ==> Left() < old(Left())
      ensures IsCompleted() || limit.Exhausted(ProcessedMemory())
      ensures late == old(late)
    {
      hide LoadInv, Ahead;
      ghost var first := clearPosition;
      while clearPosition < |stable|
        invariant Valid() && first <= clearPosition && |stable| == |old(stable)|
        invariant first < clearPosition || (stable == old(stable) && clearPosition == first && unchanged(limit))
        invariant late == old(late)
        decreases |stable| - clearPosition
      {
        var timeOver := limit.IsExceeded(ProcessedMemory());
        if timeOver {
          break;
        }
        Cleanup();
      }
    }

    /** What a complete deserialization has achieved: the heap holds a copy of the whole stream, and the
      * stable memory is cleared. */
    lemma Complete(roots: set<Addr>)
      requires Valid() && IsCompleted() && HasRoots(View(), roots)
      requires IsReachable(StableGraph(stream0), roots, StableGraph(stream0).Keys)
      ensures IsCopy(StableGraph(stream0), NewGraph(heap, heap0), moves) && moves.Keys == StableGraph(stream0).Keys
      ensures forall w :: 0 <= w < |stable| ==> stable[w] == Zero
    {
      DeserializationComplete(View(), roots);
    }
  }

  lemma FieldMeaning(s: LoadState, v: Value, v': Value)
    requires if v.Ptr? then v.addr in s.moves && v' == Ptr(s.moves[v.addr]) else v' == v
    ensures RenamedMeaning(s.moves, v, v')
  {
  }

  lemma PoppedFacts(s: LoadState, x: Addr, stop: nat)
    requires LoadInv(s, NO_WORK) && |s.stack| > 0 && x == s.stack[|s.stack| - 1] && x in s.heap
    requires s.heap[x].slice <= stop <= |s.heap[x].fields|
    requires stop < |s.heap[x].fields| ==> IsArray(s.heap[x].kind) && s.heap[x].slice < stop
    ensures Remaining(Popped(s, x, stop).heap, Popped(s, x, stop).stack) < Remaining(s.heap, s.stack)
    ensures x in Popped(s, x, stop).stack ==> stop < |s.heap[x].fields|
  {
    hide StreamOk, CellsRight, TargetsRight, FieldsRight, Remaining;
    PoppedRemaining(s, x, stop);
    PoppedStack(s, x, stop);
  }
}
