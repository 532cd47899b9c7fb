/** Snapshot-at-the-beginning marking.
  *
  * The invariant avoids paths: a set is *closed* when it holds all marked objects, all targets of
  * fields that the mark stack still has to visit, and all strong targets of its own unmarked
  * members. Whatever lies in every closed set will be marked. `SnapshotKept` says that every closed
  * set holds all that the program can still need.
  */
module GcMarking {
  import opened GcModel

  ghost predicate AllInRange(values: seq<Value>, lo: nat, hi: nat, s: set<Addr>)
    requires hi <= |values|
  {
    forall i :: lo <= i < hi ==> In(values[i], s)
  }

  ghost predicate Closed(heap: Heap, marked: set<Addr>, stack: seq<Addr>, s: set<Addr>) {
    && marked <= s
    && (forall k :: 0 <= k < |stack| && stack[k] in heap && heap[stack[k]].kind != Weak ==>
          AllInRange(heap[stack[k]].fields, heap[stack[k]].slice, |heap[stack[k]].fields|, s))
    && (forall a :: a in s && a in heap && a !in marked ==> AllIn(StrongFields(heap[a]), s))
  }

  /** What the program can still need: roots, locals, the strong fields of marked objects, and the
    * targets of those weak references that no later scan will look at. */
  ghost predicate Needed(heap: Heap, roots: seq<Value>, locals: seq<Value>, marked: set<Addr>,
                         registry: seq<Addr>, s: set<Addr>) {
    && AllIn(roots, s)
    && AllIn(locals, s)
    && (forall m :: m in marked && m in heap && !(heap[m].kind == Weak && m in registry) ==> AllIn(heap[m].fields, s))
  }

  /** `work` are the targets that the running marking step has taken over from the stack. */
  ghost predicate SnapshotKept(heap: Heap, roots: seq<Value>, locals: seq<Value>, marked: set<Addr>,
                               stack: seq<Addr>, registry: seq<Addr>, work: set<Addr>) {
    forall s: set<Addr> :: Closed(heap, marked, stack, s) && work <= s ==>
      Needed(heap, roots, locals, marked, registry, s)
  }

  /** Nothing is forwarded. */
  ghost predicate Plainly(heap: Heap) {
    forall a :: a in heap ==> heap[a].forward == a
  }

  /** Only an array on the mark stack carries a slice start in its header. */
  ghost predicate Sliced(heap: Heap, stack: seq<Addr>) {
    forall a :: a in heap && heap[a].slice > 0 ==>
      heap[a].kind == Array && heap[a].slice <= |heap[a].fields| && a in stack
  }

  ghost predicate Marking(heap: Heap, live: set<Addr>, roots: seq<Value>, locals: seq<Value>, marked: set<Addr>,
                          stack: seq<Addr>, registry: seq<Addr>, work: set<Addr>) {
    && Plainly(heap)
    && Sliced(heap, stack)
    && marked <= live
    && (forall k :: 0 <= k < |stack| ==> stack[k] in marked)
    && (forall k :: 0 <= k < |registry| ==> registry[k] in marked && registry[k] in heap && heap[registry[k]].kind == Weak)
    && SnapshotKept(heap, roots, locals, marked, stack, registry, work)
  }

  function Targets(values: seq<Value>, lo: nat, hi: nat): (s: set<Addr>)
    requires hi <= |values|
  {
    set i | lo <= i < hi && values[i].Ptr? :: values[i].addr
  }

  // ---------------------------------------------------------------- steps of the collector

  /** Nothing is marked, and the roots are all that has to be marked. */
  lemma SnapshotStart(heap: Heap, roots: seq<Value>)
    ensures SnapshotKept(heap, roots, [], {}, [], [], Targets(roots, 0, |roots|))
  {
    forall s: set<Addr> | Targets(roots, 0, |roots|) <= s
      ensures AllIn(roots, s)
    {
      forall i | 0 <= i < |roots|
        ensures In(roots[i], s)
      {
        if roots[i].Ptr? {
          assert roots[i].addr in Targets(roots, 0, |roots|);
        }
      }
    }
  }

  /** Marking an unmarked object and pushing it takes it off the work list. */
  lemma MarkKeeps(heap: Heap, live: set<Addr>, roots: seq<Value>, locals: seq<Value>, marked: set<Addr>,
                  stack: seq<Addr>, registry: seq<Addr>, work: set<Addr>, t: Addr, registry': seq<Addr>)
    requires Marking(heap, live, roots, locals, marked, stack, registry, work + {t})
    requires t in live && t in heap && t !in marked
    requires registry' == if heap[t].kind == Weak then registry + [t] else registry
    ensures Marking(heap, live, roots, locals, marked + {t}, stack + [t], registry', work)
  {
    var marked', stack' := marked + {t}, stack + [t];
    assert heap[t].slice == 0;
    forall s: set<Addr> | Closed(heap, marked', stack', s) && work <= s
      ensures Needed(heap, roots, locals, marked', registry', s)
    {
      assert stack'[|stack|] == t;
      assert forall k :: 0 <= k < |stack| ==> stack'[k] == stack[k];
      assert heap[t].kind != Weak ==> AllIn(heap[t].fields, s);
      assert Closed(heap, marked, stack, s);
      assert work + {t} <= s;
      assert Needed(heap, roots, locals, marked, registry, s);
    }
  }

  /** Taking on more work is harmless. */
  lemma WorkKeeps(heap: Heap, live: set<Addr>, roots: seq<Value>, locals: seq<Value>, marked: set<Addr>,
                  stack: seq<Addr>, registry: seq<Addr>, work: set<Addr>, work': set<Addr>)
    requires Marking(heap, live, roots, locals, marked, stack, registry, work) && work <= work'
    ensures Marking(heap, live, roots, locals, marked, stack, registry, work')
  {
  }

  /** An object that is marked already needs nothing. */
  lemma SkipKeeps(heap: Heap, live: set<Addr>, roots: seq<Value>, locals: seq<Value>, marked: set<Addr>,
                  stack: seq<Addr>, registry: seq<Addr>, work: set<Addr>, t: Addr)
    requires Marking(heap, live, roots, locals, marked, stack, registry, work + {t})
    requires t in marked
    ensures Marking(heap, live, roots, locals, marked, stack, registry, work)
  {
    forall s: set<Addr> | Closed(heap, marked, stack, s) && work <= s
      ensures Needed(heap, roots, locals, marked, registry, s)
    {
      assert work + {t} <= s;
    }
  }

  /** A popped object hands the targets of its next fields over to the work list. If fields remain,
    * the header records where to go on and the object goes back onto the stack. */
  lemma PopKeeps(heap: Heap, live: set<Addr>, roots: seq<Value>, locals: seq<Value>, marked: set<Addr>,
                 stack: seq<Addr>, registry: seq<Addr>, x: Addr, stop: nat, heap': Heap, stack': seq<Addr>)
    requires Marking(heap, live, roots, locals, marked, stack + [x], registry, {})
    requires x in heap && heap[x].kind != Weak
    requires heap[x].slice <= stop <= |heap[x].fields|
    requires stop == |heap[x].fields| ==> stack' == stack && heap' == WithSlice(heap, x, 0)
    requires stop < |heap[x].fields| ==>
      0 < stop && heap[x].kind == Array && stack' == stack + [x] && heap' == WithSlice(heap, x, stop)
    ensures Marking(heap', live, roots, locals, marked, stack', registry, Targets(heap[x].fields, heap[x].slice, stop))
  {
    var all := stack + [x];
    var work := Targets(heap[x].fields, heap[x].slice, stop);
    assert all[|stack|] == x;
    assert forall k :: 0 <= k < |stack| ==> all[k] == stack[k];
    forall a | a in heap' && heap'[a].slice > 0
      ensures a in stack'
    {
      if a != x {
        assert a in all;
      } else {
        assert stack'[|stack|] == x;
      }
    }
    forall s: set<Addr> | Closed(heap', marked, stack', s) && work <= s
      ensures Needed(heap', roots, locals, marked, registry, s)
    {
      forall i | heap[x].slice <= i < |heap[x].fields|
        ensures In(heap[x].fields[i], s)
      {
        if i < stop {
          if heap[x].fields[i].Ptr? {
            assert heap[x].fields[i].addr in work;
          }
        } else {
          assert stack'[|stack|] == x && heap'[x].slice == stop;
          assert AllInRange(heap'[x].fields, heap'[x].slice, |heap'[x].fields|, s);
        }
      }
      forall k | 0 <= k < |all| && all[k] in heap && heap[all[k]].kind != Weak
        ensures AllInRange(heap[all[k]].fields, heap[all[k]].slice, |heap[all[k]].fields|, s)
      {
        if all[k] != x {
          assert stack'[k] == all[k];
          assert heap'[all[k]] == heap[all[k]];
        }
      }
      forall a | a in s && a in heap && a !in marked
        ensures AllIn(StrongFields(heap[a]), s)
      {
        assert StrongFields(heap'[a]) == StrongFields(heap[a]);
      }
      assert Closed(heap, marked, all, s);
      assert Needed(heap, roots, locals, marked, registry, s);
    }
  }

  /** A popped weak reference is dropped: its target is not followed. */
  lemma PopWeakKeeps(heap: Heap, live: set<Addr>, roots: seq<Value>, locals: seq<Value>, marked: set<Addr>,
                     stack: seq<Addr>, registry: seq<Addr>, x: Addr)
    requires Marking(heap, live, roots, locals, marked, stack + [x], registry, {})
    requires x in heap && heap[x].kind == Weak
    ensures Marking(heap, live, roots, locals, marked, stack, registry, {})
  {
    var all := stack + [x];
    assert forall k :: 0 <= k < |stack| ==> all[k] == stack[k];
    forall a | a in heap && heap[a].slice > 0
      ensures a in stack
    {
      assert a in all && a != x;
    }
    forall s: set<Addr> | Closed(heap, marked, stack, s)
      ensures Needed(heap, roots, locals, marked, registry, s)
    {
      assert Closed(heap, marked, all, s);
    }
  }

  /** With an empty stack the marked set is itself closed: marking has found everything. */
  lemma MarkingComplete(heap: Heap, live: set<Addr>, roots: seq<Value>, locals: seq<Value>, marked: set<Addr>, registry: seq<Addr>)
    requires Marking(heap, live, roots, locals, marked, [], registry, {})
    ensures Needed(heap, roots, locals, marked, registry, marked)
    ensures forall a :: a in heap ==> heap[a].slice == 0
  {
    assert Closed(heap, marked, [], marked);
  }

  // ---------------------------------------------------------------- steps of the program

  /** Loading a field of a local object: the target is in every closed set. */
  lemma ReadKeeps(heap: Heap, live: set<Addr>, roots: seq<Value>, locals: seq<Value>, marked: set<Addr>,
                  stack: seq<Addr>, registry: seq<Addr>, x: Addr, i: nat)
    requires Marking(heap, live, roots, locals, marked, stack, registry, {})
    requires Ptr(x) in locals && x in heap && heap[x].kind != Weak && i < |heap[x].fields|
    ensures Marking(heap, live, roots, locals + [heap[x].fields[i]], marked, stack, registry, {})
  {
    forall s: set<Addr> | Closed(heap, marked, stack, s)
      ensures Needed(heap, roots, locals + [heap[x].fields[i]], marked, registry, s)
    {
      assert Needed(heap, roots, locals, marked, registry, s);
      var k :| 0 <= k < |locals| && locals[k] == Ptr(x);
      assert In(locals[k], s);
      if x !in marked {
        assert StrongFields(heap[x]) == heap[x].fields;
      }
      assert AllIn(heap[x].fields, s);
    }
  }

  /** A value that is already in every closed set may be copied into a local or a root. */
  lemma HandOverKeeps(heap: Heap, live: set<Addr>, roots: seq<Value>, locals: seq<Value>, marked: set<Addr>,
                  stack: seq<Addr>, registry: seq<Addr>, roots': seq<Value>, locals': seq<Value>)
    requires Marking(heap, live, roots, locals, marked, stack, registry, {})
    requires forall v :: v in roots' && v.Ptr? ==> v in roots || v in locals || v.addr in marked
    requires forall v :: v in locals' && v.Ptr? ==> v in roots || v in locals || v.addr in marked
    ensures Marking(heap, live, roots', locals', marked, stack, registry, {})
  {
    forall s: set<Addr> | Closed(heap, marked, stack, s)
      ensures Needed(heap, roots', locals', marked, registry, s)
    {
      assert Needed(heap, roots, locals, marked, registry, s);
      forall v: Value | v in roots' || v in locals'
        ensures In(v, s)
      {
        if v.Ptr? && v in roots {
          var k :| 0 <= k < |roots| && roots[k] == v;
          assert In(roots[k], s);
        } else if v.Ptr? && v in locals {
          var k :| 0 <= k < |locals| && locals[k] == v;
          assert In(locals[k], s);
        }
      }
    }
  }

  /** The write barrier has marked the overwritten target, so cutting the edge loses nothing. */
  lemma WriteKeeps(heap: Heap, live: set<Addr>, roots: seq<Value>, locals: seq<Value>, marked: set<Addr>,
                   stack: seq<Addr>, registry: seq<Addr>, x: Addr, i: nat, v: Value)
    requires Marking(heap, live, roots, locals, marked, stack, registry, {})
    requires x in heap && heap[x].kind != Weak && i < |heap[x].fields|
    requires In(heap[x].fields[i], marked)
    requires v.Ptr? ==> v in locals
    ensures Marking(WithField(heap, x, i, v), live, roots, locals, marked, stack, registry, {})
  {
    var heap' := WithField(heap, x, i, v);
    forall s: set<Addr> | Closed(heap', marked, stack, s)
      ensures Needed(heap', roots, locals, marked, registry, s)
    {
      forall k | 0 <= k < |stack| && stack[k] in heap && heap[stack[k]].kind != Weak
        ensures AllInRange(heap[stack[k]].fields, heap[stack[k]].slice, |heap[stack[k]].fields|, s)
      {
        var o, o' := heap[stack[k]], heap'[stack[k]];
        assert AllInRange(o'.fields, o'.slice, |o'.fields|, s);
        forall j | o.slice <= j < |o.fields|
          ensures In(o.fields[j], s)
        {
          assert In(o'.fields[j], s);
        }
      }
      forall a | a in s && a in heap && a !in marked
        ensures AllIn(StrongFields(heap[a]), s)
      {
        assert AllIn(StrongFields(heap'[a]), s);
        forall j | 0 <= j < |StrongFields(heap[a])|
          ensures In(StrongFields(heap[a])[j], s)
        {
          assert In(StrongFields(heap'[a])[j], s);
        }
      }
      assert Closed(heap, marked, stack, s);
      assert Needed(heap, roots, locals, marked, registry, s);
      if v.Ptr? {
        var k :| 0 <= k < |locals| && locals[k] == v;
        assert In(locals[k], s);
      }
      forall m | m in marked && m in heap' && !(heap'[m].kind == Weak && m in registry)
        ensures AllIn(heap'[m].fields, s)
      {
        assert AllIn(heap[m].fields, s);
      }
    }
  }

  /** A new object is marked at once but not scanned: its fields come from locals. */
  lemma AllocateKeeps(heap: Heap, live: set<Addr>, roots: seq<Value>, locals: seq<Value>, marked: set<Addr>,
                      stack: seq<Addr>, registry: seq<Addr>, x: Addr, o: Obj)
    requires Marking(heap, live, roots, locals, marked, stack, registry, {})
    requires x !in heap && live <= heap.Keys
    requires o.forward == x && o.slice == 0
    requires forall v :: v in o.fields && v.Ptr? ==> v in locals
    ensures Marking(heap[x := o], live + {x}, roots, locals + [Ptr(x)], marked + {x}, stack, registry, {})
  {
    var heap', marked', locals' := heap[x := o], marked + {x}, locals + [Ptr(x)];
    forall k | 0 <= k < |stack|
      ensures stack[k] != x
    {
      assert stack[k] in marked;
    }
    forall s: set<Addr> | Closed(heap', marked', stack, s)
      ensures Needed(heap', roots, locals', marked', registry, s)
    {
      forall k | 0 <= k < |stack|
        ensures heap'[stack[k]] == heap[stack[k]]
      {
        assert stack[k] in marked;
      }
      forall a | a in s && a in heap && a !in marked
        ensures AllIn(StrongFields(heap[a]), s)
      {
        assert heap'[a] == heap[a];
      }
      assert Closed(heap, marked, stack, s);
      assert Needed(heap, roots, locals, marked, registry, s);
      forall j | 0 <= j < |o.fields|
        ensures In(o.fields[j], s)
      {
        var v := o.fields[j];
        if v.Ptr? {
          assert v in o.fields;
          var k :| 0 <= k < |locals| && locals[k] == v;
          assert In(locals[k], s);
        }
      }
      forall m | m in marked' && m in heap' && !(heap'[m].kind == Weak && m in registry)
        ensures AllIn(heap'[m].fields, s)
      {
        if m != x {
          assert AllIn(heap[m].fields, s);
        }
      }
    }
  }
}
