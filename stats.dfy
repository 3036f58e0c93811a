/** Sums, order statistics and the linear-interpolation percentile over exact reals. */
module Stats {

  /** Sum of the first `n` elements of `s`. */
  function SumTo(s: seq<real>, n: nat): real
    requires n <= |s|
  {
    if n == 0 then 0.0 else SumTo(s, n - 1) + s[n - 1]
  }

  function Sum(s: seq<real>): real
  {
    SumTo(s, |s|)
  }

  /** A one-element sum is that element. */
  lemma SumSingle(s: seq<real>)
    requires |s| == 1
    ensures Sum(s) == s[0]
  {
    assert SumTo(s, 0) == 0.0;
  }

  function Mean(s: seq<real>): real
    requires |s| > 0
  {
    Sum(s) / |s| as real
  }

  /** Element-wise sum of two samples of equal length. */
  function Add(a: seq<real>, b: seq<real>): (r: seq<real>)
    requires |a| == |b|
    ensures |r| == |a|
  {
    seq(|a|, i requires 0 <= i < |a| => a[i] + b[i])
  }

  /** Element-wise difference of two samples of equal length. */
  function Sub(a: seq<real>, b: seq<real>): (r: seq<real>)
    requires |a| == |b|
    ensures |r| == |a|
  {
    seq(|a|, i requires 0 <= i < |a| => a[i] - b[i])
  }

  /** Every element multiplied by `c`. */
  function Scale(c: real, a: seq<real>): (r: seq<real>)
    ensures |r| == |a|
  {
    seq(|a|, i requires 0 <= i < |a| => c * a[i])
  }

  /** `n` copies of `c`. */
  function Constant(n: nat, c: real): (r: seq<real>)
    ensures |r| == n
  {
    seq(n, i requires 0 <= i < n => c)
  }

  /** Element-wise products of two samples of equal length. */
  function Products(a: seq<real>, b: seq<real>): (r: seq<real>)
    requires |a| == |b|
    ensures |r| == |a|
  {
    seq(|a|, i requires 0 <= i < |a| => a[i] * b[i])
  }

  /** Sum of pairwise products. */
  function Dot(a: seq<real>, b: seq<real>): real
    requires |a| == |b|
  {
    Sum(Products(a, b))
  }

  lemma {:induction false} SumToAdd(a: seq<real>, b: seq<real>, n: nat)
    requires |a| == |b| && n <= |a|
    ensures SumTo(Add(a, b), n) == SumTo(a, n) + SumTo(b, n)
  {
    if n > 0 {
      SumToAdd(a, b, n - 1);
    }
  }

  /** Summation distributes over element-wise addition. */
  lemma SumAdd(a: seq<real>, b: seq<real>)
    requires |a| == |b|
    ensures Sum(Add(a, b)) == Sum(a) + Sum(b)
  {
    SumToAdd(a, b, |a|);
  }

  lemma {:induction false} SumToSub(a: seq<real>, b: seq<real>, n: nat)
    requires |a| == |b| && n <= |a|
    ensures SumTo(Sub(a, b), n) == SumTo(a, n) - SumTo(b, n)
  {
    if n > 0 {
      SumToSub(a, b, n - 1);
    }
  }

  /** Summation distributes over element-wise subtraction. */
  lemma SumSub(a: seq<real>, b: seq<real>)
    requires |a| == |b|
    ensures Sum(Sub(a, b)) == Sum(a) - Sum(b)
  {
    SumToSub(a, b, |a|);
  }

  lemma {:induction false} SumToScale(c: real, a: seq<real>, n: nat)
    requires n <= |a|
    ensures SumTo(Scale(c, a), n) == c * SumTo(a, n)
  {
    if n > 0 {
      SumToScale(c, a, n - 1);
      assert c * SumTo(a, n) == c * SumTo(a, n - 1) + c * a[n - 1];
    }
  }

  /** A common factor comes out of a sum. */
  lemma SumScale(c: real, a: seq<real>)
    ensures Sum(Scale(c, a)) == c * Sum(a)
  {
    SumToScale(c, a, |a|);
  }

  lemma {:induction false} SumToConstant(m: nat, c: real, n: nat)
    requires n <= m
    ensures SumTo(Constant(m, c), n) == n as real * c
  {
    if n > 0 {
      SumToConstant(m, c, n - 1);
      assert n as real * c == (n - 1) as real * c + c;
    }
  }

  /** `n` copies of `c` sum to `n` times `c`. */
  lemma SumConstant(n: nat, c: real)
    ensures Sum(Constant(n, c)) == n as real * c
  {
    SumToConstant(n, c, n);
  }

  lemma {:induction false} SumToNonnegative(u: seq<real>, n: nat)
    requires n <= |u|
    requires forall i :: 0 <= i < |u| ==> u[i] >= 0.0
    ensures SumTo(u, n) >= 0.0
  {
    if n > 0 {
      SumToNonnegative(u, n - 1);
    }
  }

  /** A sum of non-negative terms is non-negative. */
  lemma SumNonnegative(u: seq<real>)
    requires forall i :: 0 <= i < |u| ==> u[i] >= 0.0
    ensures Sum(u) >= 0.0
  {
    SumToNonnegative(u, |u|);
  }

  lemma {:induction false} SumToZeroTerms(u: seq<real>, n: nat, i: nat)
    requires n <= |u|
    requires forall j :: 0 <= j < |u| ==> u[j] >= 0.0
    requires SumTo(u, n) == 0.0 && i < n
    ensures u[i] == 0.0
  {
    SumToNonnegative(u, n - 1);
    if i < n - 1 {
      SumToZeroTerms(u, n - 1, i);
    }
  }

  /** When non-negative terms sum to zero, each of them is zero. */
  lemma SumZeroTerms(u: seq<real>, i: nat)
    requires forall j :: 0 <= j < |u| ==> u[j] >= 0.0
    requires Sum(u) == 0.0 && i < |u|
    ensures u[i] == 0.0
  {
    SumToZeroTerms(u, |u|, i);
  }

  /** The smallest element of a non-empty sample. */
  function Min(s: seq<real>): (m: real)
    requires |s| > 0
    ensures m in s
    ensures forall i :: 0 <= i < |s| ==> m <= s[i]
  {
    if |s| == 1 then s[0]
    else
      var rest := Min(s[1..]);
      if s[0] <= rest then s[0] else rest
  }

  /** The largest element of a non-empty sample. */
  function Max(s: seq<real>): (m: real)
    requires |s| > 0
    ensures m in s
    ensures forall i :: 0 <= i < |s| ==> s[i] <= m
  {
    if |s| == 1 then s[0]
    else
      var rest := Max(s[1..]);
      if rest <= s[0] then s[0] else rest
  }

  predicate Ascending(s: seq<real>)
  {
    forall i, j :: 0 <= i < j < |s| ==> s[i] <= s[j]
  }

  /** Places `x` into an ascending sequence, keeping it ascending. */
  function Insert(x: real, s: seq<real>): (r: seq<real>)
    requires Ascending(s)
    ensures |r| == |s| + 1
    ensures Ascending(r)
    ensures multiset(r) == multiset(s) + multiset{x}
    decreases |s|
  {
    if |s| == 0 then [x]
    else if x <= s[0] then
      ConsAscending(x, s);
      [x] + s
    else
      var tail := Insert(x, s[1..]);
      assert s == [s[0]] + s[1..];
      RearrangedBound(tail, s[1..], x, s[0]);
      ConsAscending(s[0], tail);
      [s[0]] + tail
  }

  /** Putting a value no larger than the head in front keeps a sequence ascending. */
  lemma ConsAscending(h: real, t: seq<real>)
    requires Ascending(t) && (|t| > 0 ==> h <= t[0])
    ensures Ascending([h] + t)
  {
    var r := [h] + t;
    forall i, j | 0 <= i < j < |r|
      ensures r[i] <= r[j]
    {
      if i == 0 {
        assert r[j] == t[j - 1];
      } else {
        assert r[i] == t[i - 1] && r[j] == t[j - 1];
      }
    }
  }

  /** A rearrangement of `u` plus `x` keeps every lower bound of `u` and `x`. */
  lemma RearrangedBound(t: seq<real>, u: seq<real>, x: real, lo: real)
    requires multiset(t) == multiset(u) + multiset{x}
    requires lo <= x && forall i :: 0 <= i < |u| ==> lo <= u[i]
    ensures forall j :: 0 <= j < |t| ==> lo <= t[j]
  {
    forall j | 0 <= j < |t|
      ensures lo <= t[j]
    {
      assert t[j] in multiset(t);
      if t[j] != x {
        assert t[j] in multiset(u);
      }
    }
  }

  /** The sample in ascending order: the ranking step of a percentile. */
  function Sort(s: seq<real>): (r: seq<real>)
    ensures |r| == |s|
    ensures Ascending(r)
    ensures multiset(r) == multiset(s)
    decreases |s|
  {
    if |s| == 0 then []
    else
      assert s == [s[0]] + s[1..];
      Insert(s[0], Sort(s[1..]))
  }

  /** The ends of an ascending rearrangement of a sample are the sample's minimum and maximum. */
  lemma AscendingEnds(r: seq<real>, s: seq<real>)
    requires |s| > 0 && |r| == |s|
    requires Ascending(r) && multiset(r) == multiset(s)
    ensures r[0] == Min(s) && r[|r| - 1] == Max(s)
  {
    AscendingFirst(r, s);
    AscendingLast(r, s);
  }

  lemma AscendingFirst(r: seq<real>, s: seq<real>)
    requires |s| > 0 && |r| == |s|
    requires Ascending(r) && multiset(r) == multiset(s)
    ensures r[0] == Min(s)
  {
    var lo := Min(s);
    assert r[0] in multiset(r);
    assert r[0] in s;
    assert lo in multiset(s);
    assert lo in r;
    var i :| 0 <= i < |r| && r[i] == lo;
    assert r[0] <= r[i];
  }

  lemma AscendingLast(r: seq<real>, s: seq<real>)
    requires |s| > 0 && |r| == |s|
    requires Ascending(r) && multiset(r) == multiset(s)
    ensures r[|r| - 1] == Max(s)
  {
    var hi := Max(s);
    assert r[|r| - 1] in multiset(r);
    assert r[|r| - 1] in s;
    assert hi in multiset(s);
    assert hi in r;
    var j :| 0 <= j < |r| && r[j] == hi;
    assert r[j] <= r[|r| - 1];
  }

  /**
   * Linear interpolation at fractional rank `h` of an ascending sequence:
   * between the entries at floor(h) and floor(h) + 1.
   */
  function Interpolate(s: seq<real>, h: real): real
    requires 0.0 <= h <= (|s| - 1) as real
  {
    var lo := h.Floor;
    var t := h - lo as real;
    if lo + 1 < |s| then s[lo] + t * (s[lo + 1] - s[lo]) else s[lo]
  }

  /** Fractional rank of the `p`-th percentile in a sample of `m` values. */
  function Rank(m: nat, p: real): (h: real)
    requires m > 0 && 0.0 <= p <= 100.0
    ensures 0.0 <= h <= (m - 1) as real
  {
    assert (m - 1) as real * p <= (m - 1) as real * 100.0;
    (m - 1) as real * p / 100.0
  }

  /**
   * The `p`-th percentile of a non-empty sample with linear interpolation between
   * ranked values (definition 7 of Hyndman and Fan, numpy's default method).
   */
  function Percentile(v: seq<real>, p: real): real
    requires |v| > 0 && 0.0 <= p <= 100.0
  {
    Interpolate(Sort(v), Rank(|v|, p))
  }

  lemma MulNonneg(a: real, b: real)
    requires a >= 0.0 && b >= 0.0
    ensures a * b >= 0.0
  {}

  lemma MulPositive(a: real, b: real)
    requires a > 0.0 && b > 0.0
    ensures a * b > 0.0
  {}

  /** A square is never negative. */
  lemma Square(d: real)
    ensures d * d >= 0.0
  {
    if d > 0.0 {
      MulPositive(d, d);
    } else if d < 0.0 {
      MulPositive(-d, -d);
    }
  }

  /** A product with a non-zero factor is zero only when the other factor is. */
  lemma ProductZero(a: real, b: real)
    ensures a * b == 0.0 && b != 0.0 ==> a == 0.0
  {
  }

  /** A square is zero only for zero. */
  lemma SquareZero(d: real)
    ensures d * d == 0.0 ==> d == 0.0
  {
    ProductZero(d, d);
  }

  /** An interpolated value lies between the two ranked values it interpolates. */
  lemma InterpolateBetween(s: seq<real>, h: real)
    requires Ascending(s) && 0.0 <= h <= (|s| - 1) as real
    ensures var lo := h.Floor;
      0 <= lo < |s| &&
      s[lo] <= Interpolate(s, h) &&
      (lo + 1 < |s| ==> Interpolate(s, h) <= s[lo + 1]) &&
      (lo + 1 == |s| ==> Interpolate(s, h) == s[lo])
  {
    var lo := h.Floor;
    var t := h - lo as real;
    if lo + 1 < |s| {
      var d := s[lo + 1] - s[lo];
      assert 0.0 <= t < 1.0 && d >= 0.0;
      MulNonneg(t, d);
      MulNonneg(1.0 - t, d);
    }
  }

  /** A percentile is never below the minimum nor above the maximum of the sample. */
  lemma PercentileBounds(v: seq<real>, p: real)
    requires |v| > 0 && 0.0 <= p <= 100.0
    ensures Min(v) <= Percentile(v, p) <= Max(v)
  {
    var s := Sort(v);
    var h := Rank(|v|, p);
    AscendingEnds(s, v);
    InterpolateBetween(s, h);
    var lo := h.Floor;
    var x := Interpolate(s, h);
    assert Percentile(v, p) == x;
    assert lo > 0 ==> s[0] <= s[lo];
    if lo + 1 < |s| - 1 {
      assert s[lo + 1] <= s[|s| - 1];
    }
  }

  /** The percentile of a sample whose values all equal `e` is `e`. */
  lemma ConstPercentile(v: seq<real>, p: real, e: real)
    requires |v| > 0 && 0.0 <= p <= 100.0
    requires forall j :: 0 <= j < |v| ==> v[j] == e
    ensures Percentile(v, p) == e
  {
    PercentileBounds(v, p);
  }

  /** Interpolation in an ascending sequence is monotone in the rank. */
  lemma InterpolateMonotone(s: seq<real>, h1: real, h2: real)
    requires Ascending(s)
    requires 0.0 <= h1 <= h2 <= (|s| - 1) as real
    ensures Interpolate(s, h1) <= Interpolate(s, h2)
  {
    var lo1, lo2 := h1.Floor, h2.Floor;
    InterpolateBetween(s, h1);
    InterpolateBetween(s, h2);
    if lo1 == lo2 {
      if lo1 + 1 < |s| {
        var t1, t2 := h1 - lo1 as real, h2 - lo2 as real;
        var d := s[lo1 + 1] - s[lo1];
        assert t1 <= t2 && d >= 0.0;
        MulNonneg(t2 - t1, d);
      }
    } else {
      assert lo1 < lo2;
      assert s[lo1 + 1] <= s[lo2];
    }
  }

  /** A larger percentile is never smaller. */
  lemma PercentileMonotone(v: seq<real>, p1: real, p2: real)
    requires |v| > 0 && 0.0 <= p1 <= p2 <= 100.0
    ensures Percentile(v, p1) <= Percentile(v, p2)
  {
    var m := (|v| - 1) as real;
    MulNonneg(m, p2 - p1);
    InterpolateMonotone(Sort(v), Rank(|v|, p1), Rank(|v|, p2));
  }
}
