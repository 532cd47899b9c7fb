/** Comparison of ropes without flattening them. */
module TextCompare {
  import opened TextRope

  datatype Ordering = Less | Equal | Greater

  /** What `memcmp` says of two stretches of the same length. */
  function Compare(a: seq<Byte>, b: seq<Byte>): Ordering
    requires |a| == |b|
  {
    if a == [] then Equal
    else if a[0] < b[0] then Less
    else if a[0] > b[0] then Greater
    else Compare(a[1..], b[1..])
  }

  lemma {:induction false} CompareSplit(a: seq<Byte>, b: seq<Byte>, k: nat)
    requires |a| == |b| && k <= |a|
    ensures Compare(a, b) == if Compare(a[..k], b[..k]) == Equal then Compare(a[k..], b[k..]) else Compare(a[..k], b[..k])
  {
    if k == 0 {
      assert a[0..] == a && b[0..] == b;
    } else {
      CompareSplit(a[1..], b[1..], k - 1);
      assert a[..k][1..] == a[1..][..k - 1] && b[..k][1..] == b[1..][..k - 1];
      assert a[k..] == a[1..][k - 1..] && b[k..] == b[1..][k - 1..];
    }
  }

  /** Stretch `offset` to `offset + n` of a text. */
  function Range(s: Text, offset: nat, n: nat): (r: seq<Byte>)
    requires offset + n <= |Flat(s)|
    ensures |r| == n
  {
    Flat(s)[offset..offset + n]
  }

  lemma RangeLeft(s: Text, offset: nat, n: nat)
    requires Valid(s) && s.Concat? && offset + n <= TextSize(s.text1)
    ensures TextSize(s.text1) == |Flat(s.text1)| && offset + n <= |Flat(s)|
    ensures Range(s, offset, n) == Range(s.text1, offset, n)
  {
    SizeIsLength(s.text1);
  }

  lemma RangeRight(s: Text, offset: nat, n: nat)
    requires Valid(s) && s.Concat? && TextSize(s.text1) <= offset && offset + n <= |Flat(s)|
    ensures TextSize(s.text1) == |Flat(s.text1)| && |Flat(s)| == |Flat(s.text1)| + |Flat(s.text2)|
    ensures Range(s, offset, n) == Range(s.text2, offset - TextSize(s.text1), n)
  {
    SizeIsLength(s.text1);
  }

  lemma RangeSplit(s: Text, offset: nat, n: nat, k: nat)
    requires offset + n <= |Flat(s)| && k <= n
    ensures Range(s, offset, n)[..k] == Range(s, offset, k) && Range(s, offset, n)[k..] == Range(s, offset + k, n - k)
  {
  }

  /** Descends to the part that holds the whole stretch: a blob, or a concatenation that divides it. */
  method TextGetRange(s: Text, offset: nat, n: nat) returns (t: Text, at: nat)
    requires Valid(s) && offset + n <= |Flat(s)|
    ensures Valid(t) && at + n <= |Flat(t)| && Range(t, at, n) == Range(s, offset, n)
    ensures t.Concat? ==> at < TextSize(t.text1) < at + n
  {
    t, at := s, offset;
    while true
      invariant Valid(t) && at + n <= |Flat(t)| && Range(t, at, n) == Range(s, offset, n)
      decreases t
    {
      if t.Blob? {
        return;
      }
      var leftSize := TextSize(t.text1);
      if leftSize >= at + n {
        RangeLeft(t, at, n);
        t := t.text1;
      } else if at >= leftSize {
        RangeRight(t, at, n);
        t, at := t.text2, at - leftSize;
      } else {
        return;
      }
    }
  }

  /** The two stretches are compared piece by piece; every piece is shorter than the whole. */
  method TextCompareRange(s1: Text, offset1: nat, s2: Text, offset2: nat, n: nat) returns (r: Ordering)
    requires Valid(s1) && Valid(s2) && offset1 + n <= |Flat(s1)| && offset2 + n <= |Flat(s2)|
    ensures r == Compare(Range(s1, offset1, n), Range(s2, offset2, n))
    decreases n
  {
    hide Compare, Flat, Valid;
    var t1, at1 := TextGetRange(s1, offset1, n);
    var t2, at2 := TextGetRange(s2, offset2, n);
    if t1.Concat? {
      var k := TextSize(t1.text1) - at1;
      Pieces(t1, at1, n, k);
      RangeSplit(t2, at2, n, k);
      CompareSplit(Range(t1, at1, n), Range(t2, at2, n), k);
      r := TextCompareRange(t1.text1, at1, t2, at2, k);
      if r == Equal {
        r := TextCompareRange(t1.text2, 0, t2, at2 + k, n - k);
      }
    } else if t2.Concat? {
      var k := TextSize(t2.text1) - at2;
      Pieces(t2, at2, n, k);
      RangeSplit(t1, at1, n, k);
      CompareSplit(Range(t1, at1, n), Range(t2, at2, n), k);
      r := TextCompareRange(t1, at1, t2.text1, at2, k);
      if r == Equal {
        r := TextCompareRange(t1, at1 + k, t2.text2, 0, n - k);
      }
    } else {
      BlobFlat(t1);
      BlobFlat(t2);
      r := Compare(t1.bytes[at1..at1 + n], t2.bytes[at2..at2 + n]);
    }
  }

  lemma BlobFlat(s: Text)
    requires s.Blob?
    ensures Flat(s) == s.bytes
  {
  }

  /** A stretch that a concatenation divides after `k` bytes. */
  lemma Pieces(s: Text, at: nat, n: nat, k: nat)
    requires Valid(s) && s.Concat? && at + n <= |Flat(s)| && at < TextSize(s.text1) < at + n && k == TextSize(s.text1) - at
    ensures Valid(s.text1) && Valid(s.text2) && at + k <= |Flat(s.text1)| && n - k <= |Flat(s.text2)|
    ensures Range(s, at, n)[..k] == Range(s.text1, at, k) && Range(s, at, n)[k..] == Range(s.text2, 0, n - k)
  {
    RangeSplit(s, at, n, k);
    RangeLeft(s, at, k);
    RangeRight(s, at + k, n - k);
  }

  /** The order of byte strings: the first difference decides, and a proper prefix is less. */
  function Lexicographic(a: seq<Byte>, b: seq<Byte>): int {
    if a == [] && b == [] then 0
    else if a == [] then -1
    else if b == [] then 1
    else if a[0] < b[0] then -1
    else if a[0] > b[0] then 1
    else Lexicographic(a[1..], b[1..])
  }

  lemma {:induction false} LexicographicPrefix(a: seq<Byte>, b: seq<Byte>)
    ensures var n := if |a| < |b| then |a| else |b|;
            Lexicographic(a, b) ==
              match Compare(a[..n], b[..n])
              case Less => -1
              case Greater => 1
              case Equal => if |a| > n then 1 else if |b| > n then -1 else 0
  {
    if a != [] && b != [] {
      var n := if |a| < |b| then |a| else |b|;
      LexicographicPrefix(a[1..], b[1..]);
      assert a[..n][1..] == a[1..][..n - 1] && b[..n][1..] == b[1..][..n - 1];
    }
  }

  /** Up to `k` the strings agree; there the first one ends or has the lesser byte. */
  ghost predicate DiffersAt(a: seq<Byte>, b: seq<Byte>, k: nat) {
    && k <= |a| && k < |b| && a[..k] == b[..k] && (k == |a| || a[k] < b[k])
  }

  /** The first string comes first in the dictionary. */
  ghost predicate Precedes(a: seq<Byte>, b: seq<Byte>) {
    exists k: nat :: DiffersAt(a, b, k)
  }

  lemma {:induction false} LexicographicOrder(a: seq<Byte>, b: seq<Byte>)
    ensures Lexicographic(a, b) == -1 <==> Precedes(a, b)
    ensures Lexicographic(a, b) == 1 <==> Precedes(b, a)
    ensures Lexicographic(a, b) == 0 <==> a == b
    ensures -1 <= Lexicographic(a, b) <= 1
  {
    if a == [] || b == [] {
      assert a == [] && b != [] ==> DiffersAt(a, b, 0);
      assert b == [] && a != [] ==> DiffersAt(b, a, 0);
    } else if a[0] != b[0] {
      assert a[0] < b[0] ==> DiffersAt(a, b, 0);
      assert b[0] < a[0] ==> DiffersAt(b, a, 0);
      OnlyAtFirst(a, b);
      OnlyAtFirst(b, a);
    } else {
      LexicographicOrder(a[1..], b[1..]);
      PrecedesRest(a, b);
      PrecedesRest(b, a);
      assert a == [a[0]] + a[1..] && b == [b[0]] + b[1..];
    }
  }

  lemma OnlyAtFirst(a: seq<Byte>, b: seq<Byte>)
    requires a != [] && b != [] && a[0] != b[0]
    ensures Precedes(a, b) ==> a[0] < b[0]
  {
    if k: nat :| DiffersAt(a, b, k) {
      assert k > 0 ==> a[..k][0] == b[..k][0];
    }
  }

  lemma PrecedesRest(a: seq<Byte>, b: seq<Byte>)
    requires a != [] && b != [] && a[0] == b[0]
    ensures Precedes(a, b) <==> Precedes(a[1..], b[1..])
  {
    if k: nat :| DiffersAt(a, b, k) {
      assert k > 0;
      assert a[1..][..k - 1] == a[..k][1..] && b[1..][..k - 1] == b[..k][1..];
      assert DiffersAt(a[1..], b[1..], k - 1);
    }
    if k: nat :| DiffersAt(a[1..], b[1..], k) {
      assert a[..k + 1] == [a[0]] + a[1..][..k] && b[..k + 1] == [b[0]] + b[1..][..k];
      assert DiffersAt(a, b, k + 1);
    }
  }

  lemma {:induction false} LexicographicTransitive(a: seq<Byte>, b: seq<Byte>, c: seq<Byte>)
    requires Lexicographic(a, b) <= 0 && Lexicographic(b, c) <= 0
    ensures Lexicographic(a, c) <= 0
  {
    if a != [] && b != [] && c != [] {
      if a[0] == b[0] == c[0] {
        LexicographicTransitive(a[1..], b[1..], c[1..]);
      }
    }
  }

  method TextCompare(s1: Text, s2: Text) returns (r: int)
    requires Valid(s1) && Valid(s2)
    ensures r == Lexicographic(Flat(s1), Flat(s2))
  {
    hide Compare, Flat, Valid, Lexicographic;
    SizeIsLength(s1);
    SizeIsLength(s2);
    var n1, n2 := TextSize(s1), TextSize(s2);
    var n := if n1 < n2 then n1 else n2;
    LexicographicPrefix(Flat(s1), Flat(s2));
    var cmp := TextCompareRange(s1, 0, s2, 0, n);
    match cmp {
      case Less => r := -1;
      case Greater => r := 1;
      case Equal => r := if n1 > n then 1 else if n2 > n then -1 else 0;
    }
  }
}
