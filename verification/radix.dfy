/** Numbers as sequences of digits, the least significant one first. */
module Radix {

  function Pow(b: nat, n: nat): (p: nat)
    ensures b > 0 ==> p > 0
  {
    if n == 0 then 1 else b * Pow(b, n - 1)
  }

  function Pow2(n: nat): (p: nat)
    ensures p > 0
  {
    Pow(2, n)
  }

  lemma Associate(x: nat, y: nat, z: nat)
    ensures x * (y * z) == (x * y) * z
  {
  }

  lemma {:induction false} PowAdd(b: nat, m: nat, n: nat)
    ensures Pow(b, m + n) == Pow(b, m) * Pow(b, n)
  {
    if m > 0 {
      PowAdd(b, m - 1, n);
      Associate(b, Pow(b, m - 1), Pow(b, n));
    }
  }

  lemma {:induction false} PowPow(b: nat, m: nat, n: nat)
    ensures Pow(Pow(b, m), n) == Pow(b, m * n)
  {
    if n > 0 {
      PowPow(b, m, n - 1);
      PowAdd(b, m, m * (n - 1));
      assert m + m * (n - 1) == m * n;
    }
  }

  lemma {:induction false} PowGrows(b: nat, m: nat, n: nat)
    requires b > 0 && m <= n
    ensures Pow(b, m) <= Pow(b, n)
  {
    PowAdd(b, m, n - m);
    Times(Pow(b, m), Pow(b, n - m));
  }

  lemma Times(a: nat, b: nat)
    requires b > 0
    ensures a <= a * b
  {
  }

  /** All digits are less than the base. */
  predicate Digits(s: seq<nat>, b: nat) {
    forall i :: 0 <= i < |s| ==> s[i] < b
  }

  function Val(s: seq<nat>, b: nat): nat {
    if s == [] then 0 else s[0] + b * Val(s[1..], b)
  }

  lemma {:induction false} ValAppend(s: seq<nat>, t: seq<nat>, b: nat)
    ensures Val(s + t, b) == Val(s, b) + Pow(b, |s|) * Val(t, b)
  {
    if s == [] {
      assert s + t == t;
    } else {
      ValAppend(s[1..], t, b);
      assert (s + t)[1..] == s[1..] + t;
      Distribute(b, Val(s[1..], b), Pow(b, |s| - 1), Val(t, b));
    }
  }

  lemma Distribute(b: nat, v: nat, p: nat, w: nat)
    ensures b * (v + p * w) == b * v + (b * p) * w
  {
    assert b * (v + p * w) == b * v + b * (p * w);
    assert b * (p * w) == (b * p) * w;
  }

  lemma ValOne(d: nat, b: nat)
    ensures Val([d], b) == d
  {
    assert [d][1..] == [];
  }

  lemma ValSnoc(s: seq<nat>, d: nat, b: nat)
    ensures Val(s + [d], b) == Val(s, b) + Pow(b, |s|) * d
  {
    ValAppend(s, [d], b);
    ValOne(d, b);
  }

  lemma {:induction false} ValBound(s: seq<nat>, b: nat)
    requires Digits(s, b) && b > 0
    ensures Val(s, b) < Pow(b, |s|)
  {
    if s != [] {
      ValBound(s[1..], b);
      assert Val(s[1..], b) + 1 <= Pow(b, |s| - 1);
      assert b * (Val(s[1..], b) + 1) <= b * Pow(b, |s| - 1);
      assert b * (Val(s[1..], b) + 1) == b * Val(s[1..], b) + b;
    }
  }

  lemma MulAtLeast(b: nat, k: int)
    requires k >= 1
    ensures b * k >= b
  {
  }

  lemma MulSub(b: int, x: int, y: int)
    ensures b * x - b * y == b * (x - y)
  {
  }

  lemma DivMod(x: nat, y: nat, d: nat, e: nat, b: nat)
    requires d < b && e < b && d + b * x == e + b * y
    ensures d == e && x == y
  {
    MulSub(b, y, x);
    MulSub(b, x, y);
    if x < y {
      MulAtLeast(b, y - x);
    } else if y < x {
      MulAtLeast(b, x - y);
    }
  }

  /** Digits of the same number are the same. */
  lemma {:induction false} ValUnique(s: seq<nat>, t: seq<nat>, b: nat)
    requires Digits(s, b) && Digits(t, b) && |s| == |t| && Val(s, b) == Val(t, b)
    ensures s == t
  {
    if s != [] {
      DivMod(Val(s[1..], b), Val(t[1..], b), s[0], t[0], b);
      ValUnique(s[1..], t[1..], b);
      assert s == [s[0]] + s[1..] && t == [t[0]] + t[1..];
    }
  }

  lemma Division(v: nat, b: nat)
    requires b > 0
    ensures 0 <= v / b && 0 <= v % b < b && v == v % b + b * (v / b)
  {
  }

  function Quotient(v: nat, b: nat): nat
    requires b > 0
  {
    Division(v, b);
    v / b
  }

  function Remainder(v: nat, b: nat): (r: nat)
    requires b > 0
    ensures r < b && v == r + b * Quotient(v, b)
  {
    Division(v, b);
    v % b
  }

  /** The lowest `n` digits of a number. */
  function Expand(v: nat, b: nat, n: nat): (s: seq<nat>)
    requires b > 0
    ensures |s| == n
    decreases n
  {
    if n == 0 then [] else [Remainder(v, b)] + Expand(Quotient(v, b), b, n - 1)
  }

  lemma {:induction false} ExpandDigits(v: nat, b: nat, n: nat)
    requires b > 0
    ensures Digits(Expand(v, b, n), b)
    decreases n
  {
    hide Quotient, Remainder;
    if n > 0 {
      ExpandDigits(Quotient(v, b), b, n - 1);
    }
  }

  lemma QuotientBound(q: nat, r: nat, b: nat, p: nat)
    requires r + b * q < b * p
    ensures q < p
  {
    if q >= p {
      MulSub(b, q, p);
      MulNonNegative(b, q - p);
    }
  }

  lemma MulNonNegative(b: nat, k: nat)
    ensures b * k >= 0
  {
  }

  lemma {:induction false} ValExpand(v: nat, b: nat, n: nat)
    requires b > 0 && v < Pow(b, n)
    ensures Val(Expand(v, b, n), b) == v
    decreases n
  {
    hide Quotient, Remainder;
    if n > 0 {
      QuotientBound(Quotient(v, b), Remainder(v, b), b, Pow(b, n - 1));
      ValExpand(Quotient(v, b), b, n - 1);
      assert Expand(v, b, n)[1..] == Expand(Quotient(v, b), b, n - 1);
    }
  }

  /** Number of bits of a number. */
  function BitLength(v: nat): nat {
    if v == 0 then 0 else 1 + BitLength(v / 2)
  }

  lemma {:induction false} BitLengthBounds(v: nat)
    ensures v < Pow2(BitLength(v))
    ensures v > 0 ==> BitLength(v) > 0 && Pow2(BitLength(v) - 1) <= v
  {
    if v > 0 {
      BitLengthBounds(v / 2);
    }
  }

  lemma {:induction false} BitLengthOf(v: nat, n: nat)
    requires v < Pow2(n)
    ensures BitLength(v) <= n
  {
    if v > 0 {
      BitLengthOf(v / 2, n - 1);
    }
  }
}
