/** Ten-bin calibration error: expected and maximum. */
module Calibration {
  import opened Aggregates
  import opened RankingMetrics

  const BINS: nat := 10

  /** Bin i holds [i/10, (i+1)/10); the last bin also holds 1. */
  function InBin(i: nat): Row -> bool
  {
    (x: Row) => i as real / 10.0 <= x.score && (if i == 9 then x.score <= 1.0 else x.score < (i + 1) as real / 10.0)
  }

  function Bin(rows: seq<Row>, i: nat): seq<Row> { Filter(InBin(i), rows) }

  function Score(): Row -> real { (x: Row) => x.score }
  function Abs(x: real): real { if x < 0.0 then -x else x }

  /** |mean probability - empirical rate| of a list of rows. */
  function Gap(bin: seq<Row>): real
    requires bin != []
  {
    Abs(Sum(Score(), bin) / |bin| as real - Sum(Pos(), bin) / |bin| as real)
  }

  /** The first n bins that hold rows, each with its size and its gap. */
  function Gaps(rows: seq<Row>, n: nat): seq<(nat, real)>
  {
    if n == 0 then []
    else if Bin(rows, n - 1) == [] then Gaps(rows, n - 1)
    else Gaps(rows, n - 1) + [(|Bin(rows, n - 1)|, Gap(Bin(rows, n - 1)))]
  }

  function Weighted(total: nat): ((nat, real)) -> real
    requires total > 0
  {
    (g: (nat, real)) => g.0 as real / total as real * g.1
  }

  function Largest(gaps: seq<(nat, real)>): real
  {
    if gaps == [] then 0.0
    else
      var n := |gaps| - 1;
      var m := Largest(gaps[..n]);
      if n == 0 || gaps[n].1 > m then gaps[n].1 else m
  }

  function ExpectedError(rows: seq<Row>): real
    requires rows != []
  {
    Sum(Weighted(|rows|), Gaps(rows, BINS))
  }

  function MaximumError(rows: seq<Row>): real
  {
    Largest(Gaps(rows, BINS))
  }

  /** The calibration part of `_metric_expectations`. Without rows the division raises. */
  method CalibrationErrors(rows: seq<Row>) returns (r: Option<(real, real)>)
    ensures r.None? <==> rows == []
    ensures r.Some? ==> r.value.0 == ExpectedError(rows) && r.value.1 == MaximumError(rows)
  {
    if rows == [] {
      return None;
    }
    var gaps: seq<(nat, real)> := [];
    for index := 0 to BINS
      invariant gaps == Gaps(rows, index)
    {
      var positions := Bin(rows, index);
      if positions != [] {
        var mean := Sum(Score(), positions) / |positions| as real;
        var empirical := Sum(Pos(), positions) / |positions| as real;
        gaps := gaps + [(|positions|, Abs(mean - empirical))];
      }
    }
    return Some((Sum(Weighted(|rows|), gaps), Largest(gaps)));
  }

  // ---------------------------------------------------------------- the bins partition

  ghost predicate Probabilities(rows: seq<Row>)
  {
    forall x :: x in rows ==> 0.0 <= x.score <= 1.0
  }

  /** Every probability in [0, 1] falls in exactly one of the ten bins: that of its first decimal, 1 in the last. */
  lemma BinsPartition(x: Row) returns (i: nat)
    requires 0.0 <= x.score <= 1.0
    ensures i < BINS && InBin(i)(x) && forall j: nat :: j < BINS && InBin(j)(x) ==> j == i
    ensures if x.score == 1.0 then i == 9 else i as real <= 10.0 * x.score < (i + 1) as real
  {
    i := if x.score == 1.0 then 9 else (x.score * 10.0).Floor;
  }

  /** The rows of the first n bins. */
  function Below(n: nat): Row -> bool
  {
    (x: Row) => 0.0 <= x.score && (if n >= 10 then x.score <= 1.0 else x.score < n as real / 10.0)
  }

  function Residual(): Row -> real { (x: Row) => x.score - Pos()(x) }
  function Unit(): Row -> real { (x: Row) => 1.0 }

  /** A row's share of bin n on top of the bins before it. */
  lemma NextBin(f: Row -> real, n: nat, rows: seq<Row>)
    requires n < BINS
    ensures Sum(Where(Below(n + 1), f), rows) == Sum(Where(Below(n), f), rows) + Sum(f, Bin(rows, n))
  {
    SumFilter(InBin(n), f, rows);
    SumLinear(1.0, Where(Below(n), f), 1.0, Where(InBin(n), f), Where(Below(n + 1), f), rows);
  }

  lemma AllBins(f: Row -> real, rows: seq<Row>)
    requires Probabilities(rows)
    ensures Sum(Where(Below(BINS), f), rows) == Sum(f, rows)
  {
    SumCongruent(Where(Below(BINS), f), f, rows);
  }

  lemma NoBins(f: Row -> real, rows: seq<Row>)
    ensures Sum(Where(Below(0), f), rows) == 0.0
  {
    SumConstant(Where(Below(0), f), 0.0, rows);
  }

  // ---------------------------------------------------------------- residuals

  /** Sum over the first n bins of the absolute residual. */
  function AbsResiduals(rows: seq<Row>, n: nat): real
  {
    if n == 0 then 0.0 else AbsResiduals(rows, n - 1) + Abs(Sum(Residual(), Bin(rows, n - 1)))
  }

  lemma GapIsResidual(bin: seq<Row>)
    requires bin != []
    ensures Gap(bin) == Abs(Sum(Residual(), bin)) / |bin| as real
  {
    hide Sum, Filter, Bin, Gaps;
    SumLinear(1.0, Score(), -1.0, Pos(), Residual(), bin);
    QuotientOfAbs(Sum(Score(), bin), Sum(Pos(), bin), |bin| as real);
  }

  lemma QuotientOfAbs(a: real, b: real, n: real)
    requires n > 0.0
    ensures Abs(a / n - b / n) == Abs(a - b) / n
  {
    assert a / n - b / n == (a - b) / n;
    if a - b < 0.0 {
      assert (a - b) / n < 0.0 && -((a - b) / n) == (-(a - b)) / n;
    }
  }

  function Share(a: real, total: nat): real
    requires total > 0
  {
    a / total as real
  }

  lemma WeightedGap(count: nat, total: nat, a: real, gap: real)
    requires count > 0 && total > 0 && gap == a / count as real
    ensures Weighted(total)((count, gap)) == Share(a, total)
  {
    var c, t := count as real, total as real;
    assert c / t * (a / c) == (c * a) / (t * c) by {
      assert (c / t * (a / c)) * (t * c) == c * a;
    }
  }

  lemma AddShares(a: real, b: real, total: nat)
    requires total > 0
    ensures Share(a, total) + Share(b, total) == Share(a + b, total)
  {
  }

  lemma WeightedBin(bin: seq<Row>, total: nat)
    requires bin != [] && total > 0
    ensures Weighted(total)((|bin|, Gap(bin))) == Share(Abs(Sum(Residual(), bin)), total)
  {
    hide Gap, Sum, Weighted, Share, Abs;
    GapIsResidual(bin);
    WeightedGap(|bin|, total, Abs(Sum(Residual(), bin)), Gap(bin));
  }

  lemma WeightedSnoc(f: ((nat, real)) -> real, gaps: seq<(nat, real)>, g: (nat, real))
    ensures Sum(f, gaps + [g]) == Sum(f, gaps) + f(g)
  {
    SumSnoc(f, gaps + [g], |gaps|);
    assert (gaps + [g])[..|gaps|] == gaps && (gaps + [g])[..|gaps| + 1] == gaps + [g];
  }

  lemma NextGap(rows: seq<Row>, total: nat, n: nat)
    requires total > 0
    ensures Sum(Weighted(total), Gaps(rows, n + 1))
         == Sum(Weighted(total), Gaps(rows, n)) + Share(Abs(Sum(Residual(), Bin(rows, n))), total)
  {
    var bin := Bin(rows, n);
    if bin == [] {
      assert Abs(Sum(Residual(), bin)) == 0.0;
    } else {
      assert Gaps(rows, n + 1) == Gaps(rows, n) + [(|bin|, Gap(bin))];
      hide Weighted, Sum, Gap, Gaps, Abs, Bin, Share;
      WeightedBin(bin, total);
      WeightedSnoc(Weighted(total), Gaps(rows, n), (|bin|, Gap(bin)));
    }
  }

  /** Weighting each gap by its share of the rows leaves the absolute residuals over the total. */
  lemma {:induction false} WeightedGaps(rows: seq<Row>, total: nat, n: nat)
    requires total > 0
    ensures Sum(Weighted(total), Gaps(rows, n)) == Share(AbsResiduals(rows, n), total)
  {
    if n > 0 {
      var a, r := AbsResiduals(rows, n - 1), Abs(Sum(Residual(), Bin(rows, n - 1)));
      assert AbsResiduals(rows, n) == a + r;
      hide Weighted, Sum, Gaps, Abs, Bin, AbsResiduals, Share;
      WeightedGaps(rows, total, n - 1);
      NextGap(rows, total, n - 1);
      AddShares(a, r, total);
    }
  }

  /** The residuals of the bins add up to the residual of all rows, in absolute value at most. */
  lemma {:induction false} ResidualsAddUp(rows: seq<Row>, n: nat)
    requires n <= BINS
    ensures Abs(Sum(Where(Below(n), Residual()), rows)) <= AbsResiduals(rows, n)
  {
    if n == 0 {
      NoBins(Residual(), rows);
    } else {
      ResidualsAddUp(rows, n - 1);
      NextBin(Residual(), n - 1, rows);
    }
  }

  lemma {:induction false} LargestBounds(gaps: seq<(nat, real)>, i: nat)
    requires i < |gaps|
    ensures gaps[i].1 <= Largest(gaps)
  {
    if i < |gaps| - 1 { LargestBounds(gaps[..|gaps| - 1], i); }
  }

  lemma {:induction false} LargestIsListed(gaps: seq<(nat, real)>) returns (i: nat)
    requires gaps != []
    ensures i < |gaps| && gaps[i].1 == Largest(gaps)
  {
    var n := |gaps| - 1;
    if n == 0 || gaps[n].1 > Largest(gaps[..n]) { i := n; } else { i := LargestIsListed(gaps[..n]); }
  }

  lemma {:induction false} GapListed(rows: seq<Row>, i: nat, n: nat) returns (k: nat)
    requires i < n && Bin(rows, i) != []
    ensures k < |Gaps(rows, n)| && Gaps(rows, n)[k] == (|Bin(rows, i)|, Gap(Bin(rows, i)))
  {
    if i == n - 1 { k := |Gaps(rows, n)| - 1; } else { k := GapListed(rows, i, n - 1); }
  }

  lemma {:induction false} ListedGap(rows: seq<Row>, k: nat, n: nat) returns (i: nat)
    requires k < |Gaps(rows, n)|
    ensures i < n && Bin(rows, i) != [] && Gaps(rows, n)[k] == (|Bin(rows, i)|, Gap(Bin(rows, i)))
  {
    if Bin(rows, n - 1) != [] && k == |Gaps(rows, n)| - 1 { i := n - 1; } else { i := ListedGap(rows, k, n - 1); }
  }

  lemma BinResidual(rows: seq<Row>, i: nat)
    requires i < BINS
    ensures Abs(Sum(Residual(), Bin(rows, i))) <= MaximumError(rows) * |Bin(rows, i)| as real
    ensures Abs(Sum(Residual(), Bin(rows, i))) <= |Bin(rows, i)| as real
  {
    hide Gaps, Filter;
    var bin := Bin(rows, i);
    var c, r := |bin| as real, Sum(Residual(), bin);
    if bin == [] {
      assert r == 0.0 && c == 0.0;
    } else {
      var k := GapListed(rows, i, BINS);
      LargestBounds(Gaps(rows, BINS), k);
      GapIsResidual(bin);
      Uncrossed(Abs(r), c, MaximumError(rows));
      InBinRange(rows, i);
      var low := (x: Row) => -1.0;
      SumMonotone(low, Residual(), bin);
      SumMonotone(Residual(), Unit(), bin);
      SumConstant(low, -1.0, bin);
      SumConstant(Unit(), 1.0, bin);
    }
  }

  lemma InBinRange(rows: seq<Row>, i: nat)
    requires i < BINS
    ensures forall x :: x in Bin(rows, i) ==> 0.0 <= x.score <= 1.0
  {
  }

  lemma Uncrossed(a: real, c: real, m: real)
    requires c > 0.0 && a / c <= m
    ensures a <= m * c
  {
    assert a == a / c * c;
    assert a / c * c <= m * c;
  }

  lemma {:induction false} ResidualsCapped(rows: seq<Row>, n: nat)
    requires n <= BINS
    ensures AbsResiduals(rows, n) <= MaximumError(rows) * Sum(Where(Below(n), Unit()), rows)
  {
    hide MaximumError, Sum, Filter, Where;
    if n == 0 {
      NoBins(Unit(), rows);
    } else {
      ResidualsCapped(rows, n - 1);
      NextBin(Unit(), n - 1, rows);
      SumConstant(Unit(), 1.0, Bin(rows, n - 1));
      BinResidual(rows, n - 1);
    }
  }

  // ---------------------------------------------------------------- the sandwich

  /** |mean probability - prevalence| <= expected error <= maximum error <= 1. */
  lemma CalibrationSandwich(rows: seq<Row>)
    requires rows != [] && Probabilities(rows)
    ensures Gap(rows) <= ExpectedError(rows) <= MaximumError(rows) <= 1.0
  {
    hide Sum, Gap, Gaps, AbsResiduals, MaximumError, Filter, Where, Residual;
    var n := |rows| as real;
    GapIsResidual(rows);
    WeightedGaps(rows, |rows|, BINS);
    ResidualsAddUp(rows, BINS);
    AllBins(Residual(), rows);
    DivideBoth(Abs(Sum(Residual(), rows)), AbsResiduals(rows, BINS), n);
    ResidualsCapped(rows, BINS);
    AllBins(Unit(), rows);
    SumConstant(Unit(), 1.0, rows);
    DivideCap(AbsResiduals(rows, BINS), MaximumError(rows), n);
    MaximumAtMostOne(rows);
  }

  lemma DivideBoth(a: real, b: real, n: real)
    requires n > 0.0 && a <= b
    ensures a / n <= b / n
  {
  }

  lemma DivideCap(a: real, m: real, n: real)
    requires n > 0.0 && a <= m * n
    ensures a / n <= m
  {
    DivideBoth(a, m * n, n);
    assert m * n / n == m;
  }

  lemma MaximumAtMostOne(rows: seq<Row>)
    ensures MaximumError(rows) <= 1.0
  {
    hide Filter, Gaps, Gap;
    var gaps := Gaps(rows, BINS);
    if gaps != [] {
      var k := LargestIsListed(gaps);
      var i := ListedGap(rows, k, BINS);
      BinResidual(rows, i);
      GapIsResidual(Bin(rows, i));
      DivideCap(Abs(Sum(Residual(), Bin(rows, i))), 1.0, |Bin(rows, i)| as real);
    }
  }

  /** The rows of bin i are off by g: their mean score and their prevalence lie g apart. */
  predicate OffBy(rows: seq<Row>, i: nat, g: real)
  {
    var bin := Bin(rows, i);
    && bin != []
    && var mean, prevalence := Sum(Score(), bin) / |bin| as real, Sum(Pos(), bin) / |bin| as real;
       g == if mean >= prevalence then mean - prevalence else prevalence - mean
  }

  /** The maximum error is that of some bin and no bin is off by more; the expected error over all rows is
      what the bins miss. */
  lemma ErrorsAre(rows: seq<Row>) returns (worst: nat)
    requires rows != [] && Probabilities(rows)
    ensures worst < 10 && OffBy(rows, worst, MaximumError(rows))
    ensures forall i: nat, g: real :: i < 10 && OffBy(rows, i, g) ==> g <= MaximumError(rows)
    ensures ExpectedError(rows) * |rows| as real == AbsResiduals(rows, 10)
  {
    hide Gaps, Bin, Gap, OffBy, AbsResiduals, Sum, MaximumError, Probabilities;
    WeightedGaps(rows, |rows|, BINS);
    Unshared(AbsResiduals(rows, BINS), |rows|);
    worst := WorstBin(rows);
    forall i: nat, g: real | i < 10 && OffBy(rows, i, g) ensures g <= MaximumError(rows) {
      BinAtMost(rows, i, g);
    }
  }

  lemma WorstBin(rows: seq<Row>) returns (worst: nat)
    requires rows != [] && Probabilities(rows)
    ensures worst < 10 && OffBy(rows, worst, MaximumError(rows))
  {
    hide Gaps, Gap, OffBy, Bin;
    var first := SomeBin(rows);
    var j := GapListed(rows, first, BINS);
    var k := LargestIsListed(Gaps(rows, BINS));
    worst := ListedGap(rows, k, BINS);
    GapIsOff(rows, worst, MaximumError(rows));
  }

  lemma SomeBin(rows: seq<Row>) returns (first: nat)
    requires rows != [] && Probabilities(rows)
    ensures first < BINS && Bin(rows, first) != []
  {
    first := BinsPartition(rows[0]);
    assert rows[0] in Bin(rows, first);
    hide InBin;
  }

  lemma BinAtMost(rows: seq<Row>, i: nat, g: real)
    requires i < 10 && OffBy(rows, i, g)
    ensures g <= MaximumError(rows)
  {
    assert Bin(rows, i) != [];
    hide Gaps, Gap, OffBy, Bin;
    var at := GapListed(rows, i, BINS);
    LargestBounds(Gaps(rows, BINS), at);
    GapIsOff(rows, i, g);
  }

  lemma GapIsOff(rows: seq<Row>, i: nat, g: real)
    requires Bin(rows, i) != []
    ensures OffBy(rows, i, g) <==> g == Gap(Bin(rows, i))
  {
    hide Bin, Sum;
  }

  lemma Unshared(a: real, total: nat)
    requires total > 0
    ensures Share(a, total) * total as real == a
  {
  }

  // ---------------------------------------------------------------- when the lower bound is met

  /** All bins err on the same side. */
  ghost predicate OneSided(rows: seq<Row>, n: nat)
  {
    || (forall i: nat :: i < n ==> Sum(Residual(), Bin(rows, i)) >= 0.0)
    || (forall i: nat :: i < n ==> Sum(Residual(), Bin(rows, i)) <= 0.0)
  }

  lemma {:induction false} ResidualsSigned(rows: seq<Row>, n: nat)
    requires n <= BINS
    ensures var s, a := Sum(Where(Below(n), Residual()), rows), AbsResiduals(rows, n);
      && (s == a <==> forall i: nat :: i < n ==> Sum(Residual(), Bin(rows, i)) >= 0.0)
      && (s == -a <==> forall i: nat :: i < n ==> Sum(Residual(), Bin(rows, i)) <= 0.0)
      && -a <= s <= a
  {
    hide Sum, Filter, Where;
    if n == 0 {
      NoBins(Residual(), rows);
    } else {
      ResidualsSigned(rows, n - 1);
      NextBin(Residual(), n - 1, rows);
    }
  }

  /** The expected error equals the overall gap exactly when no two bins err in opposite
      directions: otherwise over- and under-confidence cancel in the overall gap only. */
  lemma LowerBoundMetIff(rows: seq<Row>)
    requires rows != [] && Probabilities(rows)
    ensures ExpectedError(rows) == Gap(rows) <==> OneSided(rows, BINS)
  {
    hide Sum, Gap, AbsResiduals, Filter, Where, Gaps;
    GapIsResidual(rows);
    WeightedGaps(rows, |rows|, BINS);
    ResidualsSigned(rows, BINS);
    AllBins(Residual(), rows);
    SameQuotient(AbsResiduals(rows, BINS), Abs(Sum(Residual(), rows)), |rows| as real);
  }

  lemma SameQuotient(a: real, b: real, n: real)
    requires n > 0.0
    ensures a / n == b / n <==> a == b
  {
    assert a / n * n == a && b / n * n == b;
  }
}
