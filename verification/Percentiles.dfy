/** The sort-and-interpolate percentile behind the latency points and the bootstrap bounds. */
module Percentiles {
  import opened Aggregates

  function Times(f: real, x: real): real { f * x }

  function Lerp(a: real, b: real, f: real): real
  {
    a + Times(f, b - a)
  }

  lemma Scale(f: real, g: real, d: real)
    requires f <= g && d >= 0.0
    ensures Times(f, d) <= Times(g, d) && f * d <= g * d
  {
  }

  lemma TimesFacts(f: real, x: real, y: real)
    ensures Times(f, x - y) == Times(f, x) - Times(f, y)
    ensures Times(0.0, x) == 0.0 && Times(1.0, x) == x
  {
  }

  lemma LerpMonotone(a: real, b: real, f: real, g: real)
    requires a <= b && 0.0 <= f <= g <= 1.0
    ensures a <= Lerp(a, b, f) <= Lerp(a, b, g) <= b
  {
    hide Times;
    Scale(0.0, f, b - a);
    Scale(f, g, b - a);
    Scale(g, 1.0, b - a);
    TimesFacts(f, b - a, 0.0);
  }

  lemma LerpPointwise(a: real, b: real, c: real, d: real, f: real)
    requires a <= c && b <= d && 0.0 <= f <= 1.0
    ensures Lerp(a, b, f) <= Lerp(c, d, f)
  {
    hide Times;
    Scale(0.0, f, d - b);
    Scale(f, 1.0, c - a);
    TimesFacts(f, d, b);
    TimesFacts(f, c, a);
    TimesFacts(f, d, c);
    TimesFacts(f, b, a);
    TimesFacts(f, d - b, 0.0);
    TimesFacts(f, c - a, 0.0);
  }

  /** Linear interpolation between the neighbouring order statistics of an ascending list. */
  function Interpolate(ordered: seq<real>, position: real): real
    requires ordered != [] && 0.0 <= position <= (|ordered| - 1) as real
  {
    var lower := position.Floor;
    if position == lower as real then ordered[lower]
    else Lerp(ordered[lower], ordered[lower + 1], position - lower as real)
  }

  /** `_percentile`; without values it fails. */
  function Percentile(values: seq<real>, percentile: real): Option<real>
    requires 0.0 <= percentile <= 100.0
  {
    if values == [] then None
    else
      Bounded(|values|, percentile);
      Some(Interpolate(Sorted(values), Position(|values|, percentile)))
  }

  function Position(n: nat, percentile: real): real
    requires n > 0
  {
    (n - 1) as real * percentile / 100.0
  }

  lemma Bounded(n: nat, percentile: real)
    requires n > 0 && 0.0 <= percentile <= 100.0
    ensures 0.0 <= Position(n, percentile) <= (n - 1) as real
  {
    var m := (n - 1) as real;
    assert 0.0 <= m * percentile <= m * 100.0;
  }

  ghost predicate Ascending(s: seq<real>)
  {
    forall i, j :: 0 <= i <= j < |s| ==> s[i] <= s[j]
  }

  // ---------------------------------------------------------------- order and range

  /** The value lies between its two neighbouring order statistics. */
  lemma BetweenNeighbours(s: seq<real>, x: real)
    requires s != [] && Ascending(s) && 0.0 <= x <= (|s| - 1) as real
    ensures s[x.Floor] <= Interpolate(s, x)
    ensures x > x.Floor as real ==> x.Floor + 1 < |s| && Interpolate(s, x) <= s[x.Floor + 1]
    ensures x == x.Floor as real ==> Interpolate(s, x) == s[x.Floor]
  {
    hide Lerp;
    if x > x.Floor as real {
      LerpMonotone(s[x.Floor], s[x.Floor + 1], x - x.Floor as real, 1.0);
    }
  }

  lemma InterpolateMonotone(s: seq<real>, x: real, y: real)
    requires s != [] && Ascending(s) && 0.0 <= x <= y <= (|s| - 1) as real
    ensures Interpolate(s, x) <= Interpolate(s, y)
  {
    hide Lerp;
    BetweenNeighbours(s, x);
    BetweenNeighbours(s, y);
    if x.Floor == y.Floor && x > x.Floor as real {
      LerpMonotone(s[x.Floor], s[x.Floor + 1], x - x.Floor as real, y - y.Floor as real);
    }
  }

  /** A percentile does not depend on the order of the values. */
  lemma PercentileReordered(values: seq<real>, other: seq<real>, p: real)
    requires multiset(values) == multiset(other) && 0.0 <= p <= 100.0
    ensures Percentile(values, p) == Percentile(other, p)
  {
    SortedPermutation(values, other);
    SameSize(values, other);
  }

  /** It lies between the least and the greatest value; those are its two ends. */
  lemma PercentileRange(values: seq<real>, p: real, x: real)
    requires values != [] && 0.0 <= p <= 100.0
    ensures (forall v :: v in values ==> x <= v) ==> x <= Percentile(values, p).value
    ensures (forall v :: v in values ==> v <= x) ==> Percentile(values, p).value <= x
    ensures Percentile(values, 0.0).value in values && Percentile(values, 100.0).value in values
  {
    var s := Sorted(values);
    forall i | 0 <= i < |s| ensures s[i] in values {
      assert s[i] in multiset(values);
    }
    assert Position(|s|, 0.0) == 0.0 && Position(|s|, 100.0) == (|s| - 1) as real;
    Bounded(|s|, p);
    var x' := Position(|s|, p);
    hide Sorted, Position, Interpolate;
    BetweenNeighbours(s, x');
    BetweenNeighbours(s, 0.0);
    BetweenNeighbours(s, (|s| - 1) as real);
    if forall v :: v in values ==> x <= v { assert x <= s[x'.Floor]; }
    if forall v :: v in values ==> v <= x {
      assert s[x'.Floor] <= x;
      if x' > x'.Floor as real { assert s[x'.Floor + 1] <= x; }
    }
  }

  /** It never decreases as the percentile grows. */
  lemma PercentileMonotone(values: seq<real>, p: real, q: real)
    requires values != [] && 0.0 <= p <= q <= 100.0
    ensures Percentile(values, p).value <= Percentile(values, q).value
  {
    Bounded(|values|, p);
    Bounded(|values|, q);
    Scale(p, q, (|values| - 1) as real);
    InterpolateMonotone(Sorted(values), Position(|values|, p), Position(|values|, q));
  }

  /** p50 <= p95 <= p99 for latencies, and the 2.5 bound never exceeds the 97.5 bound. */
  lemma ReportedPointsOrdered(values: seq<real>)
    requires values != []
    ensures Percentile(values, 50.0).value <= Percentile(values, 95.0).value <= Percentile(values, 99.0).value
    ensures Percentile(values, 2.5).value <= Percentile(values, 97.5).value
  {
    PercentileMonotone(values, 50.0, 95.0);
    PercentileMonotone(values, 95.0, 99.0);
    PercentileMonotone(values, 2.5, 97.5);
  }

  // ---------------------------------------------------------------- pointwise monotonicity

  function UpTo(v: real): real -> real { (x: real) => if x <= v then 1.0 else 0.0 }

  lemma {:induction false} CountsCompare(a: seq<real>, b: seq<real>, v: real)
    requires |a| == |b| && forall i :: 0 <= i < |a| ==> a[i] <= b[i]
    ensures Sum(UpTo(v), a) >= Sum(UpTo(v), b)
  {
    if a != [] { CountsCompare(a[1..], b[1..], v); }
  }

  lemma CountBelow(s: seq<real>, k: nat, v: real)
    requires Ascending(s) && k < |s|
    ensures s[k] <= v ==> Sum(UpTo(v), s) >= (k + 1) as real
    ensures s[k] > v ==> Sum(UpTo(v), s) <= k as real
  {
    hide Sum;
    var f := UpTo(v);
    if s[k] <= v {
      assert s == s[..k + 1] + s[k + 1..];
      SumAppend(f, s[..k + 1], s[k + 1..]);
      SumConstant(f, 1.0, s[..k + 1]);
      CountIsNonNegative(s[k + 1..], v);
    } else {
      assert s == s[..k] + s[k..];
      SumAppend(f, s[..k], s[k..]);
      SumConstant(f, 0.0, s[k..]);
      CountIsAtMostSize(s[..k], v);
    }
  }

  lemma {:induction false} CountIsNonNegative(s: seq<real>, v: real)
    ensures Sum(UpTo(v), s) >= 0.0
  {
    if s != [] { CountIsNonNegative(s[1..], v); }
  }

  lemma {:induction false} CountIsAtMostSize(s: seq<real>, v: real)
    ensures Sum(UpTo(v), s) <= |s| as real
  {
    if s != [] { CountIsAtMostSize(s[1..], v); }
  }

  /** Raising values raises every order statistic. */
  lemma OrderStatisticsMonotone(a: seq<real>, b: seq<real>, k: nat)
    requires |a| == |b| && k < |a| && forall i :: 0 <= i < |a| ==> a[i] <= b[i]
    ensures Sorted(a)[k] <= Sorted(b)[k]
  {
    hide Sum, Sorted;
    var v := Sorted(b)[k];
    CountsCompare(a, b, v);
    SumPermutation(UpTo(v), a, Sorted(a));
    SumPermutation(UpTo(v), b, Sorted(b));
    CountBelow(Sorted(a), k, v);
    CountBelow(Sorted(b), k, v);
  }

  /** Raising values never lowers a percentile. */
  lemma PercentilePointwise(a: seq<real>, b: seq<real>, p: real)
    requires a != [] && |a| == |b| && 0.0 <= p <= 100.0
    requires forall i :: 0 <= i < |a| ==> a[i] <= b[i]
    ensures Percentile(a, p).value <= Percentile(b, p).value
  {
    hide Sorted;
    var s, t, x := Sorted(a), Sorted(b), Position(|a|, p);
    Bounded(|a|, p);
    var k := x.Floor;
    OrderStatisticsMonotone(a, b, k);
    if x > k as real {
      OrderStatisticsMonotone(a, b, k + 1);
      LerpPointwise(s[k], s[k + 1], t[k], t[k + 1], x - k as real);
    }
    hide Lerp;
  }

  // ---------------------------------------------------------------- which point it is

  /** p parts in a hundred of the n - 1 steps from the first value to the last are x steps. */
  predicate Reaches(n: nat, p: real, x: real)
  {
    (n - 1) as real * p == 100.0 * x
  }

  predicate PartWay(a: real, b: real, f: real, v: real)
  {
    v == a + f * (b - a)
  }

  /** A percentile whose position is k is order statistic k; one a part f of the way to k + 1 is that part of the
      way between the two. */
  lemma PercentileBetween(values: seq<real>, p: real, k: nat, f: real)
    requires 0.0 <= p <= 100.0 && k < |values| && 0.0 <= f < 1.0
    requires Reaches(|values|, p, k as real + f)
    ensures var s := Sorted(values);
      && (f == 0.0 ==> Percentile(values, p) == Some(s[k]))
      && (f > 0.0 ==> k + 1 < |values| && PartWay(s[k], s[k + 1], f, Percentile(values, p).value))
  {
    hide Sorted, Position, Interpolate, Percentile, Reaches, PartWay;
    PositionIs(|values|, p, k as real + f);
    PercentileIs(values, p);
    InterpolateIs(Sorted(values), k, f);
  }

  lemma PositionIs(n: nat, p: real, x: real)
    requires n > 0 && Reaches(n, p, x)
    ensures Position(n, p) == x
  {
  }

  lemma PercentileIs(values: seq<real>, p: real)
    requires values != [] && 0.0 <= p <= 100.0
    ensures 0.0 <= Position(|values|, p) <= (|values| - 1) as real
    ensures Percentile(values, p) == Some(Interpolate(Sorted(values), Position(|values|, p)))
  {
    Bounded(|values|, p);
    hide Sorted, Position, Interpolate;
  }

  lemma InterpolateIs(s: seq<real>, k: nat, f: real)
    requires k < |s| && 0.0 <= f < 1.0 && k as real + f <= (|s| - 1) as real
    ensures f == 0.0 ==> Interpolate(s, k as real + f) == s[k]
    ensures f > 0.0 ==> k + 1 < |s| && PartWay(s[k], s[k + 1], f, Interpolate(s, k as real + f))
  {
    var x := k as real + f;
    assert x.Floor == k && x - k as real == f;
    if f > 0.0 {
      LerpIs(s[k], s[k + 1], f);
      hide Lerp, PartWay;
    }
  }

  lemma LerpIs(a: real, b: real, f: real)
    ensures PartWay(a, b, f, Lerp(a, b, f))
  {
  }

  /** Turning all values round turns every percentile into its counterpart from the other end. */
  lemma PercentileNegated(values: seq<real>, p: real)
    requires values != [] && 0.0 <= p <= 100.0
    ensures Percentile(Map(Minus(), values), 100.0 - p).value == -Percentile(values, p).value
  {
    hide Sorted, Position, Interpolate, Percentile, Map, Negated;
    PercentileIs(values, p);
    PercentileIs(Map(Minus(), values), 100.0 - p);
    SortedNegated(values);
    FromTheEnd(|values|, p);
    InterpolateNegated(Sorted(values), Position(|values|, p));
  }

  lemma FromTheEnd(n: nat, p: real)
    requires n > 0
    ensures Position(n, 100.0 - p) == (n - 1) as real - Position(n, p)
  {
  }

  lemma InterpolateNegated(s: seq<real>, x: real)
    requires s != [] && 0.0 <= x <= (|s| - 1) as real
    ensures Interpolate(Negated(s), (|s| - 1) as real - x) == -Interpolate(s, x)
  {
    var n, k := |s| - 1, x.Floor;
    var f, t := x - k as real, Negated(s);
    hide Negated, Times;
    if f == 0.0 {
      assert (n as real - x).Floor == n - k;
    } else {
      assert (n as real - x).Floor == n - k - 1 && n as real - x - (n - k - 1) as real == 1.0 - f;
      assert t[n - k - 1] == -s[k + 1] && t[n - k] == -s[k];
      LerpNegated(s[k], s[k + 1], f);
    }
  }

  lemma LerpNegated(a: real, b: real, f: real)
    ensures Lerp(-b, -a, 1.0 - f) == -Lerp(a, b, f)
  {
  }
}
