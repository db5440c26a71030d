/** Sums over sequences of integers, and products kept as repeated addition so that inductions
    over runs stay linear. */
module Sums {
  lemma MulMonotone(d: int, a: int, b: int)
    requires 0 <= d && a <= b
    ensures d * a <= d * b
  {
  }

  /** a <= b when d*a < d*(b+1). */
  lemma CancelFactor(d: int, a: int, b: int)
    requires 0 < d && d * a < d * (b + 1)
    ensures a <= b
  {
    if b + 1 <= a {
      MulMonotone(d, b + 1, a);
    }
  }

  lemma QuotientBound(p: int, x: int, d: int)
    requires 0 < d && d * p <= x
    ensures p <= x / d
  {
    var q := x / d;
    assert x < d * (q + 1);
    CancelFactor(d, p, q);
  }

  function Times(n: nat, x: int): int {
    if n == 0 then 0 else Times(n - 1, x) + x
  }

  lemma {:induction false} TimesProduct(n: nat, x: int)
    ensures Times(n, x) == n * x
  {
    if n != 0 {
      TimesProduct(n - 1, x);
      assert (n - 1) * x + x == n * x;
    }
  }

  function Sum(s: seq<int>): int {
    if s == [] then 0 else s[0] + Sum(s[1..])
  }

  lemma {:induction false} SumUpdate(s: seq<int>, k: nat, v: int)
    requires k < |s|
    ensures Sum(s[k := v]) == Sum(s) - s[k] + v
  {
    if k == 0 {
      assert s[k := v][1..] == s[1..];
    } else {
      SumUpdate(s[1..], k - 1, v);
      assert s[k := v][1..] == s[1..][k - 1 := v];
    }
  }

  lemma {:induction false} SumAppend(s: seq<int>, t: seq<int>)
    ensures Sum(s + t) == Sum(s) + Sum(t)
  {
    if s == [] {
      assert s + t == t;
    } else {
      SumAppend(s[1..], t);
      assert (s + t)[1..] == s[1..] + t;
    }
  }

  lemma SumPush(s: seq<int>, x: int)
    ensures Sum(s + [x]) == Sum(s) + x
  {
    SumAppend(s, [x]);
  }

  lemma Distribute(a: int, x: int, y: int)
    ensures a * (x + y) == a * x + a * y
  {
  }

  /** Pointwise a*s + b*t. */
  lemma {:induction false} SumLinear(r: seq<int>, a: int, s: seq<int>, b: int, t: seq<int>)
    requires |r| == |s| == |t|
    requires forall i | 0 <= i < |r| :: r[i] == a * s[i] + b * t[i]
    ensures Sum(r) == a * Sum(s) + b * Sum(t)
  {
    if r != [] {
      SumLinear(r[1..], a, s[1..], b, t[1..]);
      Distribute(a, s[0], Sum(s[1..]));
      Distribute(b, t[0], Sum(t[1..]));
    }
  }

  lemma {:induction false} SumMonotone(s: seq<int>, t: seq<int>)
    requires |s| == |t|
    requires forall i | 0 <= i < |s| :: s[i] <= t[i]
    ensures Sum(s) <= Sum(t)
  {
    if s != [] {
      SumMonotone(s[1..], t[1..]);
    }
  }

  /** With no negative element, a sum bounds each of its elements. */
  lemma {:induction false} SumCovers(s: seq<int>, k: nat)
    requires k < |s|
    requires forall i | 0 <= i < |s| :: 0 <= s[i]
    ensures s[k] <= Sum(s)
  {
    SumNonNegative(s[k := 0]);
    SumUpdate(s, k, 0);
  }

  lemma {:induction false} SumNonNegative(s: seq<int>)
    requires forall i | 0 <= i < |s| :: 0 <= s[i]
    ensures 0 <= Sum(s)
  {
    if s != [] {
      SumNonNegative(s[1..]);
    }
  }

  lemma {:induction false} AllZero(s: seq<int>)
    requires forall i | 0 <= i < |s| :: s[i] == 0
    ensures Sum(s) == 0
  {
    if s != [] {
      AllZero(s[1..]);
    }
  }
}
