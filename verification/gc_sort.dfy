/** The in-place quicksort with which the partitions are ranked. */
module GcSort {

  datatype Ordering = Less | Equal | Greater

  type Compare = (nat, nat) -> Ordering

  ghost predicate Le(cmp: Compare, x: nat, y: nat) {
    cmp(x, y) != Greater
  }

  /** Any two elements compare, in both directions alike, and transitively. */
  ghost predicate TotalPreorder(cmp: Compare) {
    && (forall x, y :: cmp(x, y) == Less <==> cmp(y, x) == Greater)
    && (forall x, y, z :: Le(cmp, x, y) && Le(cmp, y, z) ==> Le(cmp, x, z))
  }

  ghost predicate Sorted(s: seq<nat>, lo: nat, hi: nat, cmp: Compare) {
    forall i, j :: lo <= i < j < hi && j < |s| ==> Le(cmp, s[i], s[j])
  }

  /** The elements `lo` to `hi` are permuted, and the others stay. */
  ghost predicate Shuffled(s: seq<nat>, t: seq<nat>, lo: nat, hi: nat) {
    && |t| == |s| && lo <= hi <= |s|
    && multiset(t[lo..hi]) == multiset(s[lo..hi])
    && t[..lo] == s[..lo] && t[hi..] == s[hi..]
  }

  lemma ShuffledThen(s: seq<nat>, t: seq<nat>, u: seq<nat>, lo: nat, hi: nat)
    requires Shuffled(s, t, lo, hi) && Shuffled(t, u, lo, hi)
    ensures Shuffled(s, u, lo, hi)
  {
  }

  /** A permutation of a part is one of the whole. */
  lemma ShuffledWithin(s: seq<nat>, t: seq<nat>, lo: nat, hi: nat, from: nat, to: nat)
    requires Shuffled(s, t, lo, hi) && from <= lo && hi <= to <= |s|
    ensures Shuffled(s, t, from, to)
  {
    assert s[from..to] == s[from..lo] + s[lo..hi] + s[hi..to];
    assert t[from..to] == t[from..lo] + t[lo..hi] + t[hi..to];
    assert s[from..lo] == s[..lo][from..] && t[from..lo] == t[..lo][from..];
    assert s[hi..to] == s[hi..][..to - hi] && t[hi..to] == t[hi..][..to - hi];
    assert s[..from] == s[..lo][..from] && t[..from] == t[..lo][..from];
    assert s[to..] == s[hi..][to - hi..] && t[to..] == t[hi..][to - hi..];
  }

  lemma SwapShuffles(s: seq<nat>, i: nat, j: nat, lo: nat, hi: nat)
    requires lo <= i < hi <= |s| && lo <= j < hi
    ensures Shuffled(s, s[i := s[j]][j := s[i]], lo, hi)
  {
    var t := s[i := s[j]][j := s[i]];
    var part := s[lo..hi];
    var part' := part[i - lo := part[j - lo]];
    var part'' := part'[j - lo := part[i - lo]];
    assert t[lo..hi] == part'';
    assert multiset(part'') == multiset(part);
  }

  /** What holds of all elements of a part still does after a permutation. */
  ghost predicate AllAtMost(s: seq<nat>, lo: nat, hi: nat, cmp: Compare, pivot: nat) {
    forall i :: lo <= i < hi && i < |s| ==> Le(cmp, s[i], pivot)
  }

  ghost predicate AllAtLeast(s: seq<nat>, lo: nat, hi: nat, cmp: Compare, pivot: nat) {
    forall i :: lo <= i < hi && i < |s| ==> Le(cmp, pivot, s[i])
  }

  lemma Occurs(s: seq<nat>, t: seq<nat>, lo: nat, hi: nat, i: nat) returns (j: nat)
    requires Shuffled(s, t, lo, hi) && lo <= i < hi
    ensures lo <= j < hi && s[j] == t[i]
  {
    assert t[i] == t[lo..hi][i - lo];
    assert t[i] in multiset(t[lo..hi]);
    assert t[i] in s[lo..hi];
    var k :| 0 <= k < |s[lo..hi]| && s[lo..hi][k] == t[i];
    j := lo + k;
  }

  lemma BoundsKept(s: seq<nat>, t: seq<nat>, lo: nat, hi: nat, cmp: Compare, pivot: nat)
    requires Shuffled(s, t, lo, hi)
    ensures AllAtMost(s, lo, hi, cmp, pivot) ==> AllAtMost(t, lo, hi, cmp, pivot)
    ensures AllAtLeast(s, lo, hi, cmp, pivot) ==> AllAtLeast(t, lo, hi, cmp, pivot)
  {
    forall i | lo <= i < hi
      ensures AllAtMost(s, lo, hi, cmp, pivot) ==> Le(cmp, t[i], pivot)
      ensures AllAtLeast(s, lo, hi, cmp, pivot) ==> Le(cmp, pivot, t[i])
    {
      var j := Occurs(s, t, lo, hi, i);
    }
  }

  /** Elements outside of the permuted part are where they were. */
  lemma OutsideKept(s: seq<nat>, t: seq<nat>, lo: nat, hi: nat, from: nat, to: nat)
    requires Shuffled(s, t, lo, hi) && from <= to <= |s| && (to <= lo || hi <= from)
    ensures t[from..to] == s[from..to]
  {
    forall i | from <= i < to
      ensures t[i] == s[i]
    {
      if to <= lo {
        assert t[i] == t[..lo][i] && s[i] == s[..lo][i];
      } else {
        assert t[i] == t[hi..][i - hi] && s[i] == s[hi..][i - hi];
      }
    }
  }

  /** Two sorted parts around a pivot make a sorted whole. */
  lemma SortedParts(s: seq<nat>, lo: nat, back: nat, front: nat, hi: nat, cmp: Compare, pivot: nat)
    requires TotalPreorder(cmp) && lo <= back <= front <= hi <= |s| && front <= back + 1
    requires Sorted(s, lo, back, cmp) && Sorted(s, front, hi, cmp)
    requires AllAtMost(s, lo, front, cmp, pivot) && AllAtLeast(s, back, hi, cmp, pivot)
    ensures Sorted(s, lo, hi, cmp)
  {
    forall i, j | lo <= i < j < hi
      ensures Le(cmp, s[i], s[j])
    {
      if i < front && j >= back {
        assert Le(cmp, s[i], pivot) && Le(cmp, pivot, s[j]);
      }
    }
  }

  /** Searches an element that is not less than the pivot; `stop` is one. */
  method SearchForward(a: array<nat>, from: nat, cmp: Compare, pivot: nat, ghost start: nat, ghost stop: nat)
    returns (forward: nat)
    requires start <= from <= stop < a.Length && cmp(a[stop], pivot) != Less && AllAtMost(a[..], start, from, cmp, pivot)
    ensures from <= forward <= stop && AllAtMost(a[..], start, forward, cmp, pivot) && cmp(a[forward], pivot) != Less
  {
    forward := from;
    while cmp(a[forward], pivot) == Less
      invariant from <= forward <= stop && AllAtMost(a[..], start, forward, cmp, pivot)
      decreases stop - forward
    {
      forward := forward + 1;
    }
  }

  /** Searches downwards an element that is not greater than the pivot; `stop` is one. */
  method SearchBackward(a: array<nat>, from: nat, cmp: Compare, pivot: nat, ghost end: nat, ghost stop: nat)
    returns (backward: nat)
    requires stop <= from <= end < a.Length && cmp(a[stop], pivot) != Greater && AllAtLeast(a[..], from + 1, end + 1, cmp, pivot)
    requires TotalPreorder(cmp)
    ensures stop <= backward <= from && AllAtLeast(a[..], backward + 1, end + 1, cmp, pivot) && cmp(a[backward], pivot) != Greater
  {
    backward := from;
    while cmp(a[backward], pivot) == Greater
      invariant stop <= backward <= from && AllAtLeast(a[..], backward + 1, end + 1, cmp, pivot)
      decreases backward - stop
    {
      GreaterIsAbove(cmp, a[backward], pivot);
      backward := backward - 1;
    }
  }

  lemma GreaterIsAbove(cmp: Compare, x: nat, y: nat)
    requires TotalPreorder(cmp) && cmp(x, y) != Less
    ensures Le(cmp, y, x)
  {
  }

  method Swap(a: array<nat>, i: nat, j: nat)
    requires i < a.Length && j < a.Length
    modifies a
    ensures a[..] == Swapped(old(a[..]), i, j)
  {
    a[i], a[j] := a[j], a[i];
  }

  function Swapped(s: seq<nat>, i: nat, j: nat): (t: seq<nat>)
    requires i < |s| && j < |s|
    ensures |t| == |s|
  {
    s[i := s[j]][j := s[i]]
  }

  lemma AfterSwap(s: seq<nat>, start: nat, forward: nat, backward: nat, end: nat, cmp: Compare, pivot: nat)
    requires start <= forward <= backward <= end < |s| && TotalPreorder(cmp)
    requires cmp(s[forward], pivot) != Less && cmp(s[backward], pivot) != Greater
    requires AllAtMost(s, start, forward, cmp, pivot) && AllAtLeast(s, backward + 1, end + 1, cmp, pivot)
    ensures var t := Swapped(s, forward, backward);
            && Shuffled(s, t, start, end + 1)
            && AllAtMost(t, start, forward + 1, cmp, pivot) && AllAtLeast(t, backward, end + 1, cmp, pivot)
  {
    hide TotalPreorder, Shuffled;
    SwapShuffles(s, forward, backward, start, end + 1);
    GreaterIsAbove(cmp, s[forward], pivot);
  }

  /** What has been passed stops the next search. */
  lemma Stops(s: seq<nat>, start: nat, forward: nat, backward: nat, end: nat, cmp: Compare, pivot: nat)
    requires TotalPreorder(cmp) && end < |s|
    requires AllAtMost(s, start, forward, cmp, pivot) && AllAtLeast(s, backward + 1, end + 1, cmp, pivot)
    ensures start < forward <= end + 1 ==> cmp(s[forward - 1], pivot) != Greater
    ensures backward < end ==> cmp(s[backward + 1], pivot) != Less
    ensures cmp(pivot, pivot) == Equal
  {
    assert start < forward <= end + 1 ==> Le(cmp, s[forward - 1], pivot);
    assert backward < end ==> Le(cmp, pivot, s[backward + 1]);
  }

  lemma Untouched(s: seq<nat>, start: nat, end: nat, cmp: Compare, pivot: nat)
    requires start <= end < |s|
    ensures Shuffled(s, s, start, end + 1)
    ensures AllAtMost(s, start, start, cmp, pivot) && AllAtLeast(s, end + 1, end + 1, cmp, pivot)
  {
  }

  /** Divides the elements `start` to `end`, both included, around a pivot. `backward` is an unsigned
    * index and never drops below `start`; both parts are strictly smaller than the whole. */
  method Divide(a: array<nat>, start: nat, end: nat, cmp: Compare) returns (forward: nat, backward: nat, ghost pivot: nat)
    requires TotalPreorder(cmp) && start < end < a.Length
    modifies a
    ensures start < forward <= end + 1 && start <= backward < end && backward < forward <= backward + 2
    ensures Shuffled(old(a[..]), a[..], start, end + 1)
    ensures AllAtMost(a[..], start, forward, cmp, pivot) && AllAtLeast(a[..], backward + 1, end + 1, cmp, pivot)
  {
    hide Shuffled, AllAtMost, AllAtLeast, TotalPreorder;
    var middle := a[(start + end + 1) / 2];
    pivot := middle;
    forward, backward := start, end;
    ghost var first := true;
    Untouched(a[..], start, end, cmp, pivot);
    while true
      invariant start <= forward <= backward <= end
      invariant if first then forward == start && backward == end && a[(start + end + 1) / 2] == pivot
                else start < forward && backward < end
      invariant Shuffled(old(a[..]), a[..], start, end + 1)
      invariant AllAtMost(a[..], start, forward, cmp, pivot) && AllAtLeast(a[..], backward + 1, end + 1, cmp, pivot)
      decreases backward - forward
    {
      ghost var before := a[..];
      forward, backward := Exchange(a, start, end, forward, backward, cmp, middle, first);
      ShuffledThen(old(a[..]), before, a[..], start, end + 1);
      if forward > backward {
        break;
      }
      first := false;
    }
  }

  /** Searches from both sides for elements that are on the wrong side, and swaps them. */
  method Exchange(a: array<nat>, ghost start: nat, ghost end: nat, from: nat, to: nat, cmp: Compare, pivot: nat, ghost first: bool)
    returns (forward: nat, backward: nat)
    requires TotalPreorder(cmp) && start <= from <= to <= end < a.Length && start < end
    requires if first then from == start && to == end && a[(start + end + 1) / 2] == pivot else start < from && to < end
    requires AllAtMost(a[..], start, from, cmp, pivot) && AllAtLeast(a[..], to + 1, end + 1, cmp, pivot)
    modifies a
    ensures start < forward <= end + 1 && start <= backward < end && forward <= backward + 2
    ensures forward <= backward ==> backward - forward < to - from
    ensures Shuffled(old(a[..]), a[..], start, end + 1)
    ensures AllAtMost(a[..], start, forward, cmp, pivot) && AllAtLeast(a[..], backward + 1, end + 1, cmp, pivot)
  {
    hide Shuffled, AllAtMost, AllAtLeast, TotalPreorder, Swapped;
    Stops(a[..], start, from, to, end, cmp, pivot);
    forward := SearchForward(a, from, cmp, pivot, start, if first then (start + end + 1) / 2 else to + 1);
    Stops(a[..], start, forward, to, end, cmp, pivot);
    backward := SearchBackward(a, to, cmp, pivot, end, if first then (start + end + 1) / 2 else forward - 1);
    Untouched(a[..], start, end, cmp, pivot);
    if forward <= backward {
      AfterSwap(a[..], start, forward, backward, end, cmp, pivot);
      Swap(a, forward, backward);
      forward := forward + 1;
      backward := backward - 1;
    }
  }

  method Quicksort(a: array<nat>, start: nat, end: nat, cmp: Compare)
    requires TotalPreorder(cmp) && start < end < a.Length
    modifies a
    ensures Sorted(a[..], start, end + 1, cmp) && Shuffled(old(a[..]), a[..], start, end + 1)
    decreases end - start
  {
    hide Sorted, Shuffled, AllAtMost, AllAtLeast, TotalPreorder;
    var forward, backward, pivot := Divide(a, start, end, cmp);
    ghost var s := a[..];
    if backward > start {
      Quicksort(a, start, backward, cmp);
    } else {
      SingleSorted(s, start, cmp);
    }
    ghost var t := a[..];
    if forward < end {
      Quicksort(a, forward, end, cmp);
    } else {
      SingleSorted(t, forward, cmp);
    }
    BothSorted(old(a[..]), s, t, a[..], start, backward, forward, end, cmp, pivot);
  }

  lemma SingleSorted(s: seq<nat>, i: nat, cmp: Compare)
    ensures Sorted(s, i, i + 1, cmp)
    ensures i < |s| ==> Shuffled(s, s, i, i + 1)
    ensures i <= |s| ==> Shuffled(s, s, i, i)
  {
  }

  lemma BothSorted(r: seq<nat>, s: seq<nat>, t: seq<nat>, u: seq<nat>, start: nat, backward: nat, forward: nat, end: nat,
                   cmp: Compare, pivot: nat)
    requires TotalPreorder(cmp) && start < forward <= end + 1 && start <= backward < end && backward < forward <= backward + 2
    requires end < |r| && Shuffled(r, s, start, end + 1)
    requires AllAtMost(s, start, forward, cmp, pivot) && AllAtLeast(s, backward + 1, end + 1, cmp, pivot)
    requires Shuffled(s, t, start, backward + 1) && Sorted(t, start, backward + 1, cmp)
    requires if forward <= end then Shuffled(t, u, forward, end + 1) && Sorted(u, forward, end + 1, cmp) else u == t
    ensures Sorted(u, start, end + 1, cmp) && Shuffled(r, u, start, end + 1)
  {
    hide Shuffled, Sorted, AllAtMost, AllAtLeast, TotalPreorder;
    LeftDone(r, s, t, start, backward, forward, end, cmp, pivot);
    RightDone(r, t, u, start, backward, forward, end, cmp, pivot);
    SortedParts(u, start, backward + 1, forward, end + 1, cmp, pivot);
  }

  lemma LeftDone(r: seq<nat>, s: seq<nat>, t: seq<nat>, start: nat, backward: nat, forward: nat, end: nat, cmp: Compare, pivot: nat)
    requires start <= backward < end && backward < forward <= end + 1 <= |r| && Shuffled(r, s, start, end + 1)
    requires AllAtMost(s, start, forward, cmp, pivot) && AllAtLeast(s, backward + 1, end + 1, cmp, pivot)
    requires Shuffled(s, t, start, backward + 1)
    ensures Shuffled(r, t, start, end + 1) && |t| == |r|
    ensures AllAtMost(t, start, forward, cmp, pivot) && AllAtLeast(t, backward + 1, end + 1, cmp, pivot)
  {
    hide Shuffled, AllAtMost, AllAtLeast;
    Lengths(r, s, start, end + 1);
    Lengths(s, t, start, backward + 1);
    ShuffledWithin(s, t, start, backward + 1, start, end + 1);
    ShuffledThen(r, s, t, start, end + 1);
    LeftKept(s, t, start, backward, forward, end, cmp, pivot);
  }

  lemma RightDone(r: seq<nat>, t: seq<nat>, u: seq<nat>, start: nat, backward: nat, forward: nat, end: nat, cmp: Compare, pivot: nat)
    requires start <= backward < forward <= end + 1 <= |r| && Shuffled(r, t, start, end + 1) && |t| == |r|
    requires AllAtMost(t, start, forward, cmp, pivot) && AllAtLeast(t, backward + 1, end + 1, cmp, pivot)
    requires Sorted(t, start, backward + 1, cmp)
    requires if forward <= end then Shuffled(t, u, forward, end + 1) && Sorted(u, forward, end + 1, cmp) else u == t
    ensures Shuffled(r, u, start, end + 1) && |u| == |r|
    ensures AllAtMost(u, start, forward, cmp, pivot) && AllAtLeast(u, backward + 1, end + 1, cmp, pivot)
    ensures Sorted(u, start, backward + 1, cmp) && Sorted(u, forward, end + 1, cmp)
  {
    hide Shuffled, Sorted, AllAtMost, AllAtLeast;
    if forward <= end {
      Lengths(t, u, forward, end + 1);
      ShuffledWithin(t, u, forward, end + 1, start, end + 1);
      ShuffledThen(r, t, u, start, end + 1);
      RightKept(t, u, start, backward, forward, end, cmp, pivot);
    } else {
      EmptySorted(u, forward, end + 1, cmp);
    }
  }

  lemma EmptySorted(s: seq<nat>, lo: nat, hi: nat, cmp: Compare)
    requires lo >= hi
    ensures Sorted(s, lo, hi, cmp)
  {
  }

  lemma Lengths(s: seq<nat>, t: seq<nat>, lo: nat, hi: nat)
    requires Shuffled(s, t, lo, hi)
    ensures |t| == |s| && lo <= hi <= |s|
  {
  }

  lemma LeftKept(s: seq<nat>, t: seq<nat>, start: nat, backward: nat, forward: nat, end: nat, cmp: Compare, pivot: nat)
    requires start <= backward < forward <= end + 1 <= |s| && Shuffled(s, t, start, backward + 1)
    requires AllAtMost(s, start, forward, cmp, pivot) && AllAtLeast(s, backward + 1, end + 1, cmp, pivot)
    ensures AllAtMost(t, start, forward, cmp, pivot) && AllAtLeast(t, backward + 1, end + 1, cmp, pivot)
  {
    BoundsKept(s, t, start, backward + 1, cmp, pivot);
    OutsideKept(s, t, start, backward + 1, backward + 1, end + 1);
    forall i | backward + 1 <= i <= end
      ensures t[i] == s[i]
    {
      assert t[i] == t[backward + 1..end + 1][i - backward - 1];
    }
  }

  lemma RightKept(t: seq<nat>, u: seq<nat>, start: nat, backward: nat, forward: nat, end: nat, cmp: Compare, pivot: nat)
    requires start <= backward < forward <= end < |t| && Shuffled(t, u, forward, end + 1)
    requires AllAtMost(t, start, forward, cmp, pivot) && AllAtLeast(t, backward + 1, end + 1, cmp, pivot)
    requires Sorted(t, start, backward + 1, cmp)
    ensures AllAtMost(u, start, forward, cmp, pivot) && AllAtLeast(u, backward + 1, end + 1, cmp, pivot)
    ensures Sorted(u, start, backward + 1, cmp)
  {
    BoundsKept(t, u, forward, end + 1, cmp, pivot);
    OutsideKept(t, u, forward, end + 1, start, forward);
    forall i | start <= i < forward
      ensures u[i] == t[i]
    {
      assert u[i] == u[start..forward][i - start];
    }
  }

  /** A sorted permutation, for any order. */
  method Sort(a: array<nat>, cmp: Compare)
    requires TotalPreorder(cmp)
    modifies a
    ensures Sorted(a[..], 0, a.Length, cmp) && multiset(a[..]) == multiset(old(a[..]))
  {
    if a.Length > 1 {
      Quicksort(a, 0, a.Length - 1, cmp);
      WholeShuffled(old(a[..]), a[..]);
    }
  }

  lemma WholeShuffled(s: seq<nat>, t: seq<nat>)
    requires Shuffled(s, t, 0, |s|)
    ensures multiset(t) == multiset(s)
  {
    assert s[0..|s|] == s && t[0..|t|] == t;
  }
}
