/** Tie-grouped average precision and pairwise ROC-AUC. */
module RankingMetrics {
  import opened Aggregates

  /** A label and its probability. */
  datatype Row = Row(positive: bool, score: real)

  function Pos(): Row -> real { (x: Row) => if x.positive then 1.0 else 0.0 }
  function Neg(): Row -> real { (x: Row) => if x.positive then 0.0 else 1.0 }
  function AtLeast(s: real): Row -> real { (x: Row) => if x.score >= s then 1.0 else 0.0 }
  function PosAtLeast(s: real): Row -> real { (x: Row) => if x.positive && x.score >= s then 1.0 else 0.0 }

  // ---------------------------------------------------------------- sums of non-negative terms

  lemma SumNonNegative<T>(f: T -> real, s: seq<T>)
    requires forall x :: x in s ==> f(x) >= 0.0
    ensures Sum(f, s) >= 0.0
  {
    var zero := (x: T) => 0.0;
    SumMonotone(zero, f, s);
    SumConstant(zero, 0.0, s);
  }

  lemma SumAtLeastTerm<T>(f: T -> real, s: seq<T>, i: nat)
    requires i < |s| && forall x :: x in s ==> f(x) >= 0.0
    ensures Sum(f, s) >= f(s[i])
  {
    SumRemove(f, s, i);
    SumNonNegative(f, s[..i] + s[i + 1..]);
  }

  /** Sums of f <= g agree only if f and g agree term by term. */
  lemma {:induction false} SumsEqual<T>(f: T -> real, g: T -> real, s: seq<T>)
    requires forall x :: x in s ==> f(x) <= g(x)
    ensures Sum(f, s) == Sum(g, s) <==> forall x :: x in s ==> f(x) == g(x)
  {
    if s != [] {
      SumsEqual(f, g, s[1..]);
      SumMonotone(f, g, s[1..]);
      assert forall x :: x in s <==> x == s[0] || x in s[1..];
    }
  }

  lemma CountPositive(f: Row -> real, rows: seq<Row>, i: nat)
    requires i < |rows| && f(rows[i]) == 1.0 && forall x :: x in rows ==> f(x) >= 0.0
    ensures Sum(f, rows) >= 1.0
  {
    SumAtLeastTerm(f, rows, i);
  }

  // ---------------------------------------------------------------- average precision, closed form

  /** The share of positives among the rows that score at least s. */
  function Precision(rows: seq<Row>, s: real): real
  {
    var n := Sum(AtLeast(s), rows);
    if n == 0.0 then 0.0 else Sum(PosAtLeast(s), rows) / n
  }

  function PrecisionTerm(rows: seq<Row>): Row -> real
  {
    (x: Row) => if x.positive then Precision(rows, x.score) else 0.0
  }

  /** Mean over the positive rows of the precision at their own score. Undefined without positives. */
  function AveragePrecision(rows: seq<Row>): Option<real>
  {
    var positives := Sum(Pos(), rows);
    if positives == 0.0 then None else Some(Sum(PrecisionTerm(rows), rows) / positives)
  }

  lemma PrecisionRange(rows: seq<Row>, x: Row)
    requires x in rows && x.positive
    ensures 0.0 < Precision(rows, x.score) <= 1.0
    ensures Precision(rows, x.score) == 1.0 <==> forall y :: y in rows && !y.positive ==> y.score < x.score
  {
    var s := x.score;
    var i :| 0 <= i < |rows| && rows[i] == x;
    CountPositive(PosAtLeast(s), rows, i);
    SumMonotone(PosAtLeast(s), AtLeast(s), rows);
    SumsEqual(PosAtLeast(s), AtLeast(s), rows);
    RatioFacts(Sum(PosAtLeast(s), rows), Sum(AtLeast(s), rows));
    forall y | y in rows ensures PosAtLeast(s)(y) == AtLeast(s)(y) <==> y.positive || y.score < s {}
    hide Sum;
  }

  lemma Positives(rows: seq<Row>)
    ensures Sum(Pos(), rows) >= 0.0
    ensures Sum(Pos(), rows) == 0.0 <==> forall x :: x in rows ==> !x.positive
  {
    SumNonNegative(Pos(), rows);
    SumsEqual((x: Row) => 0.0, Pos(), rows);
    SumConstant((x: Row) => 0.0, 0.0, rows);
  }

  /** Whenever there is a positive, average precision lies in (0, 1], and it is 1 exactly when
      every positive scores strictly above every negative. */
  lemma AveragePrecisionRange(rows: seq<Row>)
    requires exists x :: x in rows && x.positive
    ensures AveragePrecision(rows).Some?
    ensures 0.0 < AveragePrecision(rows).value <= 1.0
    ensures AveragePrecision(rows).value == 1.0 <==> Separated(rows)
  {
    hide Precision, Sum;
    Positives(rows);
    var f := PrecisionTerm(rows);
    forall x | x in rows ensures 0.0 <= f(x) <= Pos()(x) {
      if x.positive { PrecisionRange(rows, x); }
    }
    SumMonotone(f, Pos(), rows);
    SumsEqual(f, Pos(), rows);
    var x :| x in rows && x.positive;
    var i :| 0 <= i < |rows| && rows[i] == x;
    PrecisionRange(rows, x);
    SumAtLeastTerm(f, rows, i);
    forall y | y in rows && y.positive
      ensures f(y) == 1.0 <==> forall z :: z in rows && !z.positive ==> z.score < y.score
    {
      PrecisionRange(rows, y);
    }
    RatioFacts(Sum(f, rows), Sum(Pos(), rows));
  }

  lemma RatioFacts(a: real, b: real)
    requires 0.0 < a <= b
    ensures 0.0 < a / b <= 1.0 && (a / b == 1.0 <==> a == b)
  {
  }

  ghost predicate Separated(rows: seq<Row>)
  {
    forall x, y :: x in rows && y in rows && x.positive && !y.positive ==> y.score < x.score
  }

  /** Reordering the rows, ties included, changes nothing. */
  lemma AveragePrecisionReordered(rows: seq<Row>, other: seq<Row>)
    requires multiset(rows) == multiset(other)
    ensures AveragePrecision(rows) == AveragePrecision(other)
  {
    forall s ensures Precision(rows, s) == Precision(other, s) {
      SumPermutation(AtLeast(s), rows, other);
      SumPermutation(PosAtLeast(s), rows, other);
    }
    hide Precision, Sum;
    SumPermutation(Pos(), rows, other);
    SumPermutation(PrecisionTerm(rows), rows, other);
    SumCongruent(PrecisionTerm(rows), PrecisionTerm(other), other);
  }

  // ---------------------------------------------------------------- the tie-grouped loop

  ghost predicate Descending(s: seq<real>)
  {
    forall i, j :: 0 <= i < j < |s| ==> s[i] > s[j]
  }

  function InsertDistinct(x: real, s: seq<real>): (r: seq<real>)
    requires Descending(s)
    ensures Descending(r)
    ensures forall y :: y in r <==> y == x || y in s
  {
    if s == [] || x > s[0] then [x] + s
    else if x == s[0] then s
    else
      var t := InsertDistinct(x, s[1..]);
      assert forall j :: 0 <= j < |t| ==> t[j] in t;
      [s[0]] + t
  }

  /** `sorted(set(probabilities), reverse=True)`. */
  function Thresholds(rows: seq<Row>): (r: seq<real>)
    ensures Descending(r)
    ensures forall y :: y in r <==> exists x :: x in rows && x.score == y
  {
    if rows == [] then []
    else
      assert forall x :: x in rows <==> x == rows[0] || x in rows[1..];
      InsertDistinct(rows[0].score, Thresholds(rows[1..]))
  }

  function PosEqual(s: real): Row -> real { (x: Row) => if x.positive && x.score == s then 1.0 else 0.0 }
  function NegEqual(s: real): Row -> real { (x: Row) => if !x.positive && x.score == s then 1.0 else 0.0 }

  /** The part of the closed form that the rows scoring at least s contribute. */
  function TermAtLeast(rows: seq<Row>, s: real): Row -> real
  {
    (x: Row) => if x.score >= s then PrecisionTerm(rows)(x) else 0.0
  }

  /** Going down to the next threshold adds exactly the rows tied at it. */
  lemma NextThreshold(rows: seq<Row>, ts: seq<real>, k: nat)
    requires ts == Thresholds(rows) && k < |ts|
    ensures forall x :: x in rows && x.score >= ts[k] ==> x.score == ts[k] || (k > 0 && x.score >= ts[k - 1])
  {
    forall x | x in rows && x.score >= ts[k] ensures x.score == ts[k] || (k > 0 && x.score >= ts[k - 1]) {
      assert x.score in ts;
      var j :| 0 <= j < |ts| && ts[j] == x.score;
      assert j <= k;
    }
  }

  lemma TiedTerm(rows: seq<Row>, s: real, x: Row)
    ensures Precision(rows, s) * PosEqual(s)(x) == if x.score == s then PrecisionTerm(rows)(x) else 0.0
  {
  }

  lemma GroupCounts(rows: seq<Row>, ts: seq<real>, k: nat)
    requires ts == Thresholds(rows) && k < |ts|
    ensures Sum(PosAtLeast(ts[k]), rows)
         == (if k == 0 then 0.0 else Sum(PosAtLeast(ts[k - 1]), rows)) + Sum(PosEqual(ts[k]), rows)
    ensures Sum(AtLeast(ts[k]), rows)
         == (if k == 0 then 0.0 else Sum(AtLeast(ts[k - 1]), rows)) + Sum(PosEqual(ts[k]), rows)
           + Sum(NegEqual(ts[k]), rows)
    ensures Sum(AtLeast(ts[k]), rows) >= 1.0
  {
    hide Sum, Precision, Thresholds;
    var s := ts[k];
    NextThreshold(rows, ts, k);
    assert s in ts;
    var w :| w in rows && w.score == s;
    var i :| 0 <= i < |rows| && rows[i] == w;
    CountPositive(AtLeast(s), rows, i);
    var tied := (x: Row) => if x.score == s then 1.0 else 0.0;
    SumLinear(1.0, PosEqual(s), 1.0, NegEqual(s), tied, rows);
    if k == 0 {
      SumCongruent(PosEqual(s), PosAtLeast(s), rows);
      SumCongruent(tied, AtLeast(s), rows);
    } else {
      SumLinear(1.0, PosAtLeast(ts[k - 1]), 1.0, PosEqual(s), PosAtLeast(s), rows);
      SumLinear(1.0, AtLeast(ts[k - 1]), 1.0, tied, AtLeast(s), rows);
    }
  }

  lemma GroupTerms(rows: seq<Row>, ts: seq<real>, k: nat)
    requires ts == Thresholds(rows) && k < |ts|
    ensures Sum(TermAtLeast(rows, ts[k]), rows)
         == (if k == 0 then 0.0 else Sum(TermAtLeast(rows, ts[k - 1]), rows))
            + Precision(rows, ts[k]) * Sum(PosEqual(ts[k]), rows)
  {
    hide Sum, Precision, Thresholds;
    var s, c := ts[k], Precision(rows, ts[k]);
    NextThreshold(rows, ts, k);
    var above: Row -> real := if k == 0 then ((x: Row) => 0.0) else TermAtLeast(rows, ts[k - 1]);
    forall x | x in rows ensures TermAtLeast(rows, s)(x) == 1.0 * above(x) + c * PosEqual(s)(x) {
      TiedTerm(rows, s, x);
      if k > 0 { assert ts[k - 1] > s; }
    }
    SumLinear(1.0, above, c, PosEqual(s), TermAtLeast(rows, s), rows);
    if k == 0 { SumConstant(above, 0.0, rows); }
  }

  lemma AreaStep(area: real, done: real, p: real, tp: real, before: real, n: real)
    requires p > 0.0 && n > 0.0 && area == done / p
    ensures area + (tp / p - before / p) * (tp / n) == (done + (tp / n) * (tp - before)) / p
  {
  }

  lemma LastThreshold(rows: seq<Row>, ts: seq<real>)
    requires ts == Thresholds(rows)
    ensures Sum(PrecisionTerm(rows), rows) == if ts == [] then 0.0 else Sum(TermAtLeast(rows, ts[|ts| - 1]), rows)
  {
    assert rows != [] ==> rows[0].score in ts;
    if ts != [] {
      hide Sum, Thresholds, Precision;
      forall x | x in rows ensures x.score >= ts[|ts| - 1] {
        assert x.score in ts;
        var j :| 0 <= j < |ts| && ts[j] == x.score;
      }
      SumCongruent(PrecisionTerm(rows), TermAtLeast(rows, ts[|ts| - 1]), rows);
    }
  }

  /** `_average_precision`: one step per distinct probability, from the highest down. */
  method GroupedAveragePrecision(rows: seq<Row>) returns (r: Option<real>)
    ensures r == AveragePrecision(rows)
  {
    hide Sum, Precision, Thresholds;
    var positives := Sum(Pos(), rows);
    Positives(rows);
    if positives == 0.0 {
      return None;
    }
    var truePositive, falsePositive, previousRecall, area := 0.0, 0.0, 0.0, 0.0;
    var ts := Thresholds(rows);
    for k := 0 to |ts|
      invariant truePositive == if k == 0 then 0.0 else Sum(PosAtLeast(ts[k - 1]), rows)
      invariant truePositive + falsePositive == if k == 0 then 0.0 else Sum(AtLeast(ts[k - 1]), rows)
      invariant previousRecall == truePositive / positives
      invariant area == (if k == 0 then 0.0 else Sum(TermAtLeast(rows, ts[k - 1]), rows)) / positives
    {
      ghost var before, done := truePositive, if k == 0 then 0.0 else Sum(TermAtLeast(rows, ts[k - 1]), rows);
      GroupCounts(rows, ts, k);
      GroupTerms(rows, ts, k);
      truePositive := truePositive + Sum(PosEqual(ts[k]), rows);
      falsePositive := falsePositive + Sum(NegEqual(ts[k]), rows);
      var recall := truePositive / positives;
      var precision := truePositive / (truePositive + falsePositive);
      PrecisionIs(rows, ts[k]);
      AreaStep(area, done, positives, truePositive, before, truePositive + falsePositive);
      area := area + (recall - previousRecall) * precision;
      previousRecall := recall;
    }
    LastThreshold(rows, ts);
    return Some(area);
  }

  lemma PrecisionIs(rows: seq<Row>, s: real)
    requires Sum(AtLeast(s), rows) > 0.0
    ensures Precision(rows, s) == Sum(PosAtLeast(s), rows) / Sum(AtLeast(s), rows)
  {
  }

  // ---------------------------------------------------------------- ROC-AUC

  /** One comparison of a positive x with a negative y: 1 for a win, 1/2 for a tie. */
  function Win(x: Row, y: Row): real
  {
    if x.positive && !y.positive then
      (if x.score > y.score then 1.0 else if x.score == y.score then 0.5 else 0.0)
    else 0.0
  }

  function WinOver(x: Row): Row -> real { (y: Row) => Win(x, y) }
  function LossTo(y: Row): Row -> real { (x: Row) => Win(x, y) }
  function Wins(others: seq<Row>): Row -> real { (x: Row) => Sum(WinOver(x), others) }

  function PerPair(wins: real, positives: real, negatives: real): real
    requires positives != 0.0 && negatives != 0.0
  {
    wins / (positives * negatives)
  }

  /** Total wins over the number of (positive, negative) pairs; undefined without both classes. */
  function RocAuc(rows: seq<Row>): Option<real>
  {
    var positives, negatives := Sum(Pos(), rows), Sum(Neg(), rows);
    if positives == 0.0 || negatives == 0.0 then None
    else Some(PerPair(Sum(Wins(rows), rows), positives, negatives))
  }

  /** `_roc_auc`: the double loop. */
  method PairwiseRocAuc(rows: seq<Row>) returns (r: Option<real>)
    ensures r == RocAuc(rows)
  {
    var positives := Sum(Pos(), rows);
    var negatives := |rows| as real - positives;
    NegativesCount(rows);
    if positives == 0.0 || negatives == 0.0 {
      return None;
    }
    var wins := 0.0;
    for i := 0 to |rows|
      invariant wins == Sum(Wins(rows), rows[..i])
    {
      SumSnoc(Wins(rows), rows, i);
      if !rows[i].positive {
        SumConstant(WinOver(rows[i]), 0.0, rows);
        continue;
      }
      ghost var before := wins;
      for j := 0 to |rows|
        invariant wins == before + Sum(WinOver(rows[i]), rows[..j])
      {
        SumSnoc(WinOver(rows[i]), rows, j);
        if rows[j].positive {
          continue;
        }
        wins := wins + if rows[i].score > rows[j].score then 1.0
                       else if rows[i].score == rows[j].score then 0.5 else 0.0;
      }
      assert rows[..|rows|] == rows;
    }
    assert rows[..|rows|] == rows;
    return Some(PerPair(wins, positives, negatives));
  }

  lemma NegativesCount(rows: seq<Row>)
    ensures Sum(Neg(), rows) == |rows| as real - Sum(Pos(), rows)
  {
    var one := (x: Row) => 1.0;
    SumConstant(one, 1.0, rows);
    SumLinear(1.0, one, -1.0, Pos(), Neg(), rows);
  }

  /** The order of summation does not matter. */
  lemma {:induction false} SumExchanged(xs: seq<Row>, ys: seq<Row>)
    ensures Sum(Wins(ys), xs) == Sum(Losses(xs), ys)
  {
    if xs == [] {
      SumConstant(Losses(xs), 0.0, ys);
    } else {
      SumExchanged(xs[1..], ys);
      SumLinear(1.0, WinOver(xs[0]), 1.0, Losses(xs[1..]), Losses(xs), ys);
    }
  }

  function Losses(xs: seq<Row>): Row -> real { (y: Row) => Sum(LossTo(y), xs) }

  function Cap(negatives: real): Row -> real { (x: Row) => if x.positive then negatives else 0.0 }

  lemma WinsCap(rows: seq<Row>, x: Row)
    ensures 0.0 <= Wins(rows)(x) <= Cap(Sum(Neg(), rows))(x)
    ensures Wins(rows)(x) == Cap(Sum(Neg(), rows))(x)
       <==> (x.positive ==> forall y :: y in rows && !y.positive ==> y.score < x.score)
  {
    SumNonNegative(WinOver(x), rows);
    if x.positive {
      SumMonotone(WinOver(x), Neg(), rows);
      SumsEqual(WinOver(x), Neg(), rows);
      forall y | y in rows ensures WinOver(x)(y) == Neg()(y) <==> y.positive || y.score < x.score {}
    } else {
      SumConstant(WinOver(x), 0.0, rows);
    }
    hide Sum;
  }

  /** ROC-AUC lies in [0, 1], and is 1 exactly when every positive scores strictly above every
      negative. */
  lemma RocAucRange(rows: seq<Row>)
    requires RocAuc(rows).Some?
    ensures 0.0 <= RocAuc(rows).value <= 1.0
    ensures RocAuc(rows).value == 1.0 <==> Separated(rows)
  {
    var p, n := Sum(Pos(), rows), Sum(Neg(), rows);
    SumNonNegative(Pos(), rows);
    SumNonNegative(Neg(), rows);
    forall x: Row { WinsCap(rows, x); }
    hide Sum, Wins, PerPair;
    SumNonNegative(Wins(rows), rows);
    SumMonotone(Wins(rows), Cap(n), rows);
    SumsEqual(Wins(rows), Cap(n), rows);
    CapTotal(n, rows);
    QuotientRange(Sum(Wins(rows), rows), p, n);
  }

  lemma CapTotal(c: real, rows: seq<Row>)
    ensures Sum(Cap(c), rows) == c * Sum(Pos(), rows)
  {
    forall x | x in rows ensures Cap(c)(x) == c * Pos()(x) + 0.0 * Pos()(x) {
      assert x.positive ==> c * Pos()(x) == c * 1.0;
    }
    SumLinear(c, Pos(), 0.0, Pos(), Cap(c), rows);
  }

  lemma QuotientRange(w: real, p: real, n: real)
    requires p > 0.0 && n > 0.0 && 0.0 <= w <= n * p
    ensures 0.0 <= PerPair(w, p, n) <= 1.0 && (PerPair(w, p, n) == 1.0 <==> w == n * p)
  {
    assert p * n > 0.0;
  }

  /** Perfect ranking seen by one metric is perfect ranking seen by the other. */
  lemma PerfectTogether(rows: seq<Row>)
    requires RocAuc(rows).Some?
    ensures AveragePrecision(rows).Some?
    ensures AveragePrecision(rows).value == 1.0 <==> RocAuc(rows).value == 1.0
  {
    hide Sum, Precision;
    Positives(rows);
    RocAucRange(rows);
    AveragePrecisionRange(rows);
  }

  function Flip(): Row -> Row { (x: Row) => Row(!x.positive, x.score) }

  /** The AUC of the flipped labels is the complement. */
  lemma FlippedLabels(rows: seq<Row>)
    requires RocAuc(rows).Some?
    ensures var flipped := Map(Flip(), rows);
      RocAuc(flipped).Some? && RocAuc(rows).value + RocAuc(flipped).value == 1.0
  {
    hide Sum, Map, PerPair, Losses;
    var flipped := Map(Flip(), rows);
    var p, n := Sum(Pos(), rows), Sum(Neg(), rows);
    SumMap(Flip(), Pos(), Neg(), rows);
    SumMap(Flip(), Neg(), Pos(), rows);
    FlippedTotal(rows);
    QuotientsAddToOne(Sum(Wins(rows), rows), Sum(Wins(flipped), flipped), p, n);
  }

  /** The wins after the flip are all pairs but the wins before it. */
  lemma FlippedTotal(rows: seq<Row>)
    ensures Sum(Wins(Map(Flip(), rows)), Map(Flip(), rows))
         == Sum(Pos(), rows) * Sum(Neg(), rows) - Sum(Wins(rows), rows)
  {
    hide Sum, Map, Wins, Cap, Losses;
    var flipped, p := Map(Flip(), rows), Sum(Pos(), rows);
    var after := (x: Row) => Wins(flipped)(Flip()(x));
    SumMap(Flip(), Wins(flipped), after, rows);
    forall x | x in rows ensures after(x) == 1.0 * FlippedCap(p)(x) + -1.0 * Losses(rows)(x) {
      FlippedWins(rows, x);
    }
    SumLinear(1.0, FlippedCap(p), -1.0, Losses(rows), after, rows);
    FlippedCapTotal(p, rows);
    SumExchanged(rows, rows);
  }

  function FlippedCap(p: real): Row -> real { (x: Row) => Cap(p)(Flip()(x)) }

  lemma FlippedCapTotal(p: real, rows: seq<Row>)
    ensures Sum(FlippedCap(p), rows) == p * Sum(Neg(), rows)
  {
    hide Sum, Map;
    SumMap(Flip(), Cap(p), FlippedCap(p), rows);
    CapTotal(p, Map(Flip(), rows));
    SumMap(Flip(), Pos(), Neg(), rows);
  }

  lemma FlippedWins(rows: seq<Row>, x: Row)
    ensures Wins(Map(Flip(), rows))(Flip()(x)) == Cap(Sum(Pos(), rows))(Flip()(x)) - Losses(rows)(x)
  {
    hide Sum, Map;
    var mirrored := (y: Row) => Win(Flip()(x), Flip()(y));
    SumMap(Flip(), WinOver(Flip()(x)), mirrored, rows);
    if x.positive {
      SumConstant(mirrored, 0.0, rows);
      SumConstant(LossTo(x), 0.0, rows);
    } else {
      SumLinear(1.0, Pos(), -1.0, LossTo(x), mirrored, rows);
    }
  }

  lemma QuotientsAddToOne(w: real, v: real, p: real, n: real)
    requires p != 0.0 && n != 0.0 && w + v == p * n
    ensures PerPair(w, p, n) + PerPair(v, n, p) == 1.0
  {
    assert p * n == n * p != 0.0;
    assert w / (p * n) + v / (p * n) == (w + v) / (p * n);
  }

  function Rescored(f: real -> real): Row -> Row { (x: Row) => Row(x.positive, f(x.score)) }

  /** Only the order of the scores matters: any map that is strictly increasing on them changes
      nothing. */
  lemma MonotoneRescoring(rows: seq<Row>, f: real -> real)
    requires forall x, y :: x in rows && y in rows && x.score < y.score ==> f(x.score) < f(y.score)
    ensures RocAuc(Map(Rescored(f), rows)) == RocAuc(rows)
  {
    hide Sum, Map, PerPair;
    var r := Rescored(f);
    var moved := Map(r, rows);
    SumMap(r, Pos(), Pos(), rows);
    SumMap(r, Neg(), Neg(), rows);
    var after := (x: Row) => Sum(WinOver(r(x)), moved);
    SumMap(r, Wins(moved), after, rows);
    forall x | x in rows ensures after(x) == Wins(rows)(x) {
      RescoredWins(rows, f, x);
    }
    SumCongruent(after, Wins(rows), rows);
  }

  lemma RescoredWins(rows: seq<Row>, f: real -> real, x: Row)
    requires x in rows
    requires forall x, y :: x in rows && y in rows && x.score < y.score ==> f(x.score) < f(y.score)
    ensures Sum(WinOver(Rescored(f)(x)), Map(Rescored(f), rows)) == Sum(WinOver(x), rows)
  {
    hide Sum, Map;
    var r := Rescored(f);
    forall y | y in rows ensures WinOver(r(x))(r(y)) == WinOver(x)(y) {
      assert x.score < y.score || x.score == y.score || y.score < x.score;
    }
    SumMap(r, WinOver(r(x)), WinOver(x), rows);
  }

  lemma RocAucReordered(rows: seq<Row>, other: seq<Row>)
    requires multiset(rows) == multiset(other)
    ensures RocAuc(rows) == RocAuc(other)
  {
    hide Sum, PerPair;
    SumPermutation(Pos(), rows, other);
    SumPermutation(Neg(), rows, other);
    SumPermutation(Wins(rows), rows, other);
    forall x | x in other ensures Wins(rows)(x) == Wins(other)(x) {
      SumPermutation(WinOver(x), rows, other);
    }
    SumCongruent(Wins(rows), Wins(other), other);
  }
}
