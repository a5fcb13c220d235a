/** Per-rank average precision, and exactly when it depends on the order of tied rows and when it
    agrees with the tie-grouped form. */
module RankedPrecision {
  import opened Aggregates
  import opened RankingMetrics

  function ByScore(): (Row, Row) -> bool { (x: Row, y: Row) => x.score >= y.score }

  /** Sum over the first n ranks of the running precision at each positive. */
  function RankSum(ordered: seq<Row>, n: nat): real
    requires n <= |ordered|
  {
    if n == 0 then 0.0
    else
      var here := if ordered[n - 1].positive then Sum(Pos(), ordered[..n]) / n as real else 0.0;
      RankSum(ordered, n - 1) + here
  }

  /** `average_precision` of the validation spike: stable descending order, then the mean of the
      running precision at the positives; 0 without positives. */
  function RankAveragePrecision(rows: seq<Row>): real
  {
    var positives := Sum(Pos(), rows);
    if positives == 0.0 then 0.0
    else var ordered := SortBy(ByScore(), rows); RankSum(ordered, |ordered|) / positives
  }

  /** No positive shares its score with a negative. */
  ghost predicate Unmixed(rows: seq<Row>)
  {
    forall x, y :: x in rows && y in rows && x.positive && !y.positive ==> x.score != y.score
  }

  /** A positive that shares its score with another positive has no negative above it. */
  ghost predicate TiesOnTop(rows: seq<Row>)
  {
    forall x, y :: x in rows && x.positive && multiset(rows)[x] >= 2 && y in rows && !y.positive ==> y.score <= x.score
  }

  lemma SameMembers(rows: seq<Row>, other: seq<Row>)
    requires multiset(rows) == multiset(other)
    ensures forall x :: x in rows <==> x in other
  {
    forall x ensures x in rows <==> x in other {
      assert x in rows <==> x in multiset(rows);
      assert x in other <==> x in multiset(other);
    }
  }

  // ---------------------------------------------------------------- without mixed ties

  /** Without mixed ties there is one descending arrangement: tied rows are equal rows. */
  lemma {:induction false} DescendingUnique(s: seq<Row>, t: seq<Row>)
    requires multiset(s) == multiset(t) && SortedBy(ByScore(), s) && SortedBy(ByScore(), t) && Unmixed(s)
    ensures s == t
  {
    SameSize(s, t);
    if s != [] {
      SameMembers(s, t);
      assert s[0] in s && t[0] in t;
      var i :| 0 <= i < |t| && t[i] == s[0];
      var j :| 0 <= j < |s| && s[j] == t[0];
      if i > 0 { assert ByScore()(t[0], t[i]); }
      if j > 0 { assert ByScore()(s[0], s[j]); }
      assert s[0] == t[0];
      Uncons(s);
      Uncons(t);
      Cancel(s[0], multiset(s[1..]), multiset(t[1..]));
      DescendingUnique(s[1..], t[1..]);
    }
  }

  lemma Arranged(rows: seq<Row>) returns (ordered: seq<Row>)
    ensures ordered == SortBy(ByScore(), rows) && multiset(ordered) == multiset(rows)
    ensures SortedBy(ByScore(), ordered)
    ensures Sum(Pos(), rows) != 0.0 ==> RankAveragePrecision(rows) == RankSum(ordered, |ordered|) / Sum(Pos(), rows)
    ensures forall x :: x in rows <==> x in ordered
  {
    hide RankSum;
    ordered := SortBy(ByScore(), rows);
    assert TotalPreorder(ByScore());
    SortBySorted(ByScore(), rows);
    SameMembers(rows, ordered);
  }

  lemma UnmixedOrderUnseen(rows: seq<Row>, other: seq<Row>)
    requires multiset(rows) == multiset(other) && Unmixed(rows)
    ensures RankAveragePrecision(rows) == RankAveragePrecision(other)
  {
    hide RankSum, Sum, SortBy, SortedBy;
    var s := Arranged(rows);
    var t := Arranged(other);
    DescendingUnique(s, t);
    SumPermutation(Pos(), rows, other);
  }

  // ---------------------------------------------------------------- with a mixed tie

  /** Where a row of score v is inserted. */
  function Place(v: real, s: seq<Row>): (k: nat)
    ensures k <= |s|
  {
    if s == [] || v >= s[0].score then 0 else 1 + Place(v, s[1..])
  }

  lemma {:induction false} InsertAt(x: Row, s: seq<Row>)
    ensures var k := Place(x.score, s); Insert(ByScore(), x, s) == s[..k] + [x] + s[k..]
  {
    if s != [] && !ByScore()(x, s[0]) {
      InsertAt(x, s[1..]);
      var k := Place(x.score, s[1..]);
      assert Place(x.score, s) == k + 1;
      assert Insert(ByScore(), x, s) == [s[0]] + Insert(ByScore(), x, s[1..]);
      hide Insert, Place;
      assert s[..k + 1] == [s[0]] + s[1..][..k] && s[k + 1..] == s[1..][k..];
    } else {
      assert s[..0] == [] && s[0..] == s;
    }
  }

  lemma {:induction false} PlaceKept(x: Row, s: seq<Row>)
    ensures Place(x.score, Insert(ByScore(), x, s)) == Place(x.score, s)
  {
    if s != [] && !ByScore()(x, s[0]) {
      PlaceKept(x, s[1..]);
      assert ([s[0]] + Insert(ByScore(), x, s[1..]))[1..] == Insert(ByScore(), x, s[1..]);
    }
  }

  /** Two rows of one score are inserted next to each other, the second one first. */
  lemma InsertPair(x: Row, y: Row, s: seq<Row>)
    requires x.score == y.score
    ensures var k := Place(x.score, s);
      Insert(ByScore(), x, Insert(ByScore(), y, s)) == s[..k] + [x, y] + s[k..]
  {
    var k, t := Place(x.score, s), Insert(ByScore(), y, s);
    InsertAt(y, s);
    InsertAt(x, t);
    PlaceKept(y, s);
    hide Insert, Place;
    assert t[..k] == s[..k] && t[k..] == [y] + s[k..];
  }

  /** Swapping a positive with a negative right after it changes the sum of the running precisions
      by the same amount at every later rank. */
  lemma {:induction false} RankSumSwapped(a: seq<Row>, x: Row, y: Row, b: seq<Row>, m: nat)
    requires x.positive && !y.positive && |a| + 2 <= m <= |a| + 2 + |b|
    ensures var c := Sum(Pos(), a) + 1.0;
      RankSum(a + [x, y] + b, m) - RankSum(a + [y, x] + b, m) == c / (|a| + 1) as real - c / (|a| + 2) as real
    decreases m
  {
    var u, v := a + [x, y] + b, a + [y, x] + b;
    if m == |a| + 2 {
      RankSumTop(a, x, y, b);
    } else {
      hide Sum;
      RankSumSwapped(a, x, y, b, m - 1);
      SwappedPrefix(a, x, y, b, m);
    }
  }

  lemma SwappedPrefix(a: seq<Row>, x: Row, y: Row, b: seq<Row>, m: nat)
    requires |a| + 2 < m <= |a| + 2 + |b|
    ensures var u, v := a + [x, y] + b, a + [y, x] + b;
      u[m - 1] == v[m - 1] && Sum(Pos(), u[..m]) == Sum(Pos(), v[..m])
  {
    hide Sum;
    var u, v, tail := a + [x, y] + b, a + [y, x] + b, b[..m - |a| - 2];
    assert u[..m] == a + [x, y] + tail && v[..m] == a + [y, x] + tail;
    assert multiset(u[..m]) == multiset(v[..m]);
    SumPermutation(Pos(), u[..m], v[..m]);
  }

  lemma RankSumTop(a: seq<Row>, x: Row, y: Row, b: seq<Row>)
    requires x.positive && !y.positive
    ensures var c := Sum(Pos(), a) + 1.0;
      RankSum(a + [x, y] + b, |a| + 2) - RankSum(a + [y, x] + b, |a| + 2)
        == c / (|a| + 1) as real - c / (|a| + 2) as real
  {
    var u, v := a + [x, y] + b, a + [y, x] + b;
    RankSumPrefix(u, a, |a|);
    RankSumPrefix(v, a, |a|);
    assert u[..|a| + 1] == a + [x] && u[..|a| + 2] == a + [x, y];
    assert v[..|a| + 1] == a + [y] && v[..|a| + 2] == a + [y, x];
    SumAppend(Pos(), a, [x]);
    SumAppend(Pos(), a, [y, x]);
    assert Sum(Pos(), [x]) == 1.0;
    assert [y, x][1..] == [x] && Sum(Pos(), [y, x]) == 1.0;
    hide Sum;
    assert RankSum(u, |a| + 1) == RankSum(u, |a|) + Sum(Pos(), u[..|a| + 1]) / (|a| + 1) as real;
    assert RankSum(v, |a| + 1) == RankSum(v, |a|);
  }

  lemma {:induction false} RankSumPrefix(u: seq<Row>, a: seq<Row>, n: nat)
    requires n <= |a| <= |u| && a == u[..|a|]
    ensures RankSum(u, n) == RankSum(a, n)
  {
    if n > 0 {
      RankSumPrefix(u, a, n - 1);
      assert u[..n] == a[..n] && u[n - 1] == a[n - 1];
    }
  }

  lemma PullOut(rows: seq<Row>, x: Row) returns (rest: seq<Row>)
    requires x in rows
    ensures multiset(rows) == multiset{x} + multiset(rest)
  {
    var i :| 0 <= i < |rows| && rows[i] == x;
    Around(rows, i);
    rest := rows[..i] + rows[i + 1..];
  }

  lemma PairFirst(rows: seq<Row>, x: Row, y: Row) returns (rest: seq<Row>)
    requires x in rows && y in rows && x != y
    ensures multiset(rows) == multiset([x, y] + rest) == multiset([y, x] + rest)
  {
    var others := PullOut(rows, x);
    assert y in multiset(rows) && y in multiset(others);
    rest := PullOut(others, y);
  }

  /** A mixed tie gives two arrangements of the rows with different values. */
  lemma MixedOrderSeen(rows: seq<Row>, x: Row, y: Row) returns (u: seq<Row>, v: seq<Row>)
    requires x in rows && y in rows && x.positive && !y.positive && x.score == y.score
    ensures multiset(u) == multiset(v) == multiset(rows)
    ensures RankAveragePrecision(u) > RankAveragePrecision(v)
  {
    var rest := PairFirst(rows, x, y);
    u, v := [x, y] + rest, [y, x] + rest;
    var s := SortBy(ByScore(), rest);
    var k := Place(x.score, s);
    SortedPair(x, y, rest);
    SortedPair(y, x, rest);
    hide Insert, SortBy, Place, RankSum, Sum, RankAveragePrecision;
    assert u[0] == x && x in u;
    FirstRanked(u, v, s[..k], x, y, s[k..]);
  }

  lemma FirstRanked(u: seq<Row>, v: seq<Row>, a: seq<Row>, x: Row, y: Row, b: seq<Row>)
    requires multiset(u) == multiset(v) && x in u && x.positive && !y.positive
    requires SortBy(ByScore(), u) == a + [x, y] + b && SortBy(ByScore(), v) == a + [y, x] + b
    ensures RankAveragePrecision(u) > RankAveragePrecision(v)
  {
    hide SortBy, RankSum, Sum, RankAveragePrecision;
    Positives(a);
    RankSumSwapped(a, x, y, b, |a| + 2 + |b|);
    Swapped(u, v, a + [x, y] + b, a + [y, x] + b, Sum(Pos(), a) + 1.0, |a| + 1);
  }

  lemma SortedPair(x: Row, y: Row, rest: seq<Row>)
    requires x.score == y.score
    ensures var s := SortBy(ByScore(), rest);
      var k := Place(x.score, s);
      SortBy(ByScore(), [x, y] + rest) == s[..k] + [x, y] + s[k..]
  {
    var all := [x, y] + rest;
    assert all[1..] == [y] + rest && ([y] + rest)[1..] == rest;
    assert SortBy(ByScore(), [y] + rest) == Insert(ByScore(), y, SortBy(ByScore(), rest));
    InsertPair(x, y, SortBy(ByScore(), rest));
  }

  lemma Swapped(u: seq<Row>, v: seq<Row>, s: seq<Row>, t: seq<Row>, c: real, n: nat)
    requires s == SortBy(ByScore(), u) && t == SortBy(ByScore(), v) && multiset(u) == multiset(v)
    requires exists x :: x in u && x.positive
    requires c > 0.0 && n > 0 && RankSum(s, |s|) - RankSum(t, |t|) == c / n as real - c / (n + 1) as real
    ensures RankAveragePrecision(u) > RankAveragePrecision(v)
  {
    hide RankSum, Sum, SortBy;
    SumPermutation(Pos(), u, v);
    Positives(u);
    Quotients(c, n);
    LessOver(RankSum(t, |t|), RankSum(s, |s|), Sum(Pos(), u));
  }

  lemma Quotients(c: real, n: nat)
    requires c > 0.0 && n > 0
    ensures c / n as real > c / (n + 1) as real
  {
  }

  lemma LessOver(a: real, b: real, d: real)
    requires a < b && d > 0.0
    ensures a / d < b / d
  {
  }

  /** The per-rank form is the same for every arrangement of the rows exactly when no positive
      shares its score with a negative. */
  lemma OrderUnseenIff(rows: seq<Row>)
    ensures (forall other :: multiset(other) == multiset(rows) ==>
        RankAveragePrecision(other) == RankAveragePrecision(rows))
       <==> Unmixed(rows)
  {
    hide RankAveragePrecision;
    if Unmixed(rows) {
      forall other | multiset(other) == multiset(rows)
        ensures RankAveragePrecision(other) == RankAveragePrecision(rows)
      {
        UnmixedOrderUnseen(rows, other);
      }
    } else {
      var x, y :| x in rows && y in rows && x.positive && !y.positive && x.score == y.score;
      var u, v := MixedOrderSeen(rows, x, y);
    }
  }

  // ---------------------------------------------------------------- agreement with the grouped form

  lemma PrefixCounts(f: Row -> real, ordered: seq<Row>, n: nat)
    requires n <= |ordered|
    requires forall j :: n <= j < |ordered| ==> f(ordered[j]) == 0.0
    ensures Sum(f, ordered) == Sum(f, ordered[..n])
  {
    assert ordered == ordered[..n] + ordered[n..];
    SumAppend(f, ordered[..n], ordered[n..]);
    SumConstant(f, 0.0, ordered[n..]);
  }

  function RankTerm(ordered: seq<Row>, i: nat): real
    requires i < |ordered|
  {
    Sum(Pos(), ordered[..i + 1]) / (i + 1) as real
  }

  /** Row i is the last of its score, or only positives come before it. */
  ghost predicate Exact(ordered: seq<Row>, i: nat)
    requires i < |ordered|
  {
    i + 1 == |ordered| || ordered[i + 1].score < ordered[i].score || forall j :: 0 <= j < i ==> ordered[j].positive
  }

  /** Where the rows that score at least as much as row i end. */
  lemma {:induction false} GroupEnd(ordered: seq<Row>, i: nat, from: nat) returns (n: nat)
    requires SortedBy(ByScore(), ordered) && i < from <= |ordered|
    requires forall j :: 0 <= j < from ==> ordered[j].score >= ordered[i].score
    ensures from <= n <= |ordered|
    ensures forall j :: 0 <= j < |ordered| ==> (ordered[j].score >= ordered[i].score <==> j < n)
    decreases |ordered| - from
  {
    if from < |ordered| && ordered[from].score >= ordered[i].score {
      n := GroupEnd(ordered, i, from + 1);
    } else {
      n := from;
      forall j | from <= j < |ordered| ensures ordered[j].score < ordered[i].score {
        if j > from { assert ByScore()(ordered[from], ordered[j]); }
      }
    }
  }

  /** The precision at row i counts the rows up to i and then the rest of its tie, all positive. */
  lemma PrecisionAt(ordered: seq<Row>, i: nat) returns (n: nat)
    requires SortedBy(ByScore(), ordered) && Unmixed(ordered) && i < |ordered| && ordered[i].positive
    ensures i < n <= |ordered| && (n == i + 1 <==> i + 1 == |ordered| || ordered[i + 1].score < ordered[i].score)
    ensures Precision(ordered, ordered[i].score) == (Sum(Pos(), ordered[..i + 1]) + (n - i - 1) as real) / n as real
  {
    var s := ordered[i].score;
    forall j | 0 <= j < i ensures ordered[j].score >= s { assert ByScore()(ordered[j], ordered[i]); }
    n := GroupEnd(ordered, i, i + 1);
    forall j | i < j < n ensures ordered[j].positive {
      assert ByScore()(ordered[i], ordered[j]);
      assert ordered[j] in ordered && ordered[i] in ordered;
    }
    GroupSums(ordered, i, n);
    hide Sum;
  }

  lemma GroupSums(ordered: seq<Row>, i: nat, n: nat)
    requires i < n <= |ordered| && forall j :: i < j < n ==> ordered[j].positive
    requires forall j :: 0 <= j < |ordered| ==> (ordered[j].score >= ordered[i].score <==> j < n)
    ensures Sum(AtLeast(ordered[i].score), ordered) == n as real
    ensures Sum(PosAtLeast(ordered[i].score), ordered) == Sum(Pos(), ordered[..i + 1]) + (n - i - 1) as real
  {
    hide Sum;
    var s := ordered[i].score;
    PrefixCounts(AtLeast(s), ordered, n);
    PrefixCounts(PosAtLeast(s), ordered, n);
    SumConstant(AtLeast(s), 1.0, ordered[..n]);
    SumCongruent(PosAtLeast(s), Pos(), ordered[..n]);
    assert ordered[..n] == ordered[..i + 1] + ordered[i + 1..n];
    SumAppend(Pos(), ordered[..i + 1], ordered[i + 1..n]);
    SumConstant(Pos(), 1.0, ordered[i + 1..n]);
  }

  lemma Dilution(c: real, k: nat, d: nat)
    requires k > 0 && 0.0 <= c <= k as real
    ensures c / k as real <= (c + d as real) / (k + d) as real
    ensures c / k as real == (c + d as real) / (k + d) as real <==> d == 0 || c == k as real
  {
    var a, b, n := c / k as real, (c + d as real) / (k + d) as real, (k + d) as real;
    assert a * k as real == c && b * n == c + d as real;
    assert n == k as real + d as real;
    assert (b - a) * n == d as real * (1.0 - a);
    DilutionSign(1.0 - a, k as real, 1.0, k as real - c);
    DilutionSign(b - a, n, d as real, 1.0 - a);
  }

  lemma DilutionSign(x: real, n: real, d: real, y: real)
    requires x * n == d * y && n > 0.0 && d >= 0.0 && y >= 0.0
    ensures x >= 0.0 && (x == 0.0 <==> d == 0.0 || y == 0.0)
  {
  }

  /** Without mixed ties the running precision at a positive is at most the precision at its score,
      and equals it exactly there. */
  lemma TermCompare(ordered: seq<Row>, i: nat)
    requires SortedBy(ByScore(), ordered) && Unmixed(ordered) && i < |ordered| && ordered[i].positive
    ensures RankTerm(ordered, i) <= Precision(ordered, ordered[i].score)
    ensures RankTerm(ordered, i) == Precision(ordered, ordered[i].score) <==> Exact(ordered, i)
  {
    hide Precision, SortedBy;
    var n := PrecisionAt(ordered, i);
    var head, one := ordered[..i + 1], (x: Row) => 1.0;
    Positives(head);
    SumMonotone(Pos(), one, head);
    SumsEqual(Pos(), one, head);
    SumConstant(one, 1.0, head);
    hide Sum;
    Dilution(Sum(Pos(), head), i + 1, n - i - 1);
    assert (forall x :: x in head ==> Pos()(x) == one(x)) <==> forall j :: 0 <= j < i ==> ordered[j].positive by {
      forall j | 0 <= j < i ensures ordered[j] == head[j] && head[j] in head {}
    }
  }

  lemma {:induction false} RankSumCompare(ordered: seq<Row>, n: nat)
    requires SortedBy(ByScore(), ordered) && Unmixed(ordered) && n <= |ordered|
    ensures RankSum(ordered, n) <= Sum(PrecisionTerm(ordered), ordered[..n])
    ensures RankSum(ordered, n) == Sum(PrecisionTerm(ordered), ordered[..n])
       <==> forall i :: 0 <= i < n && ordered[i].positive ==> Exact(ordered, i)
  {
    hide Precision, SortedBy, Unmixed, Exact;
    if n > 0 {
      RankSumCompare(ordered, n - 1);
      SumSnoc(PrecisionTerm(ordered), ordered, n - 1);
      if ordered[n - 1].positive { TermCompare(ordered, n - 1); }
      hide Sum;
    }
  }

  lemma TwoPlaces(s: seq<Row>, x: Row) returns (i: nat, j: nat)
    requires multiset(s)[x] >= 2
    ensures i < j < |s| && s[i] == s[j] == x
  {
    assert x in s;
    i :| 0 <= i < |s| && s[i] == x;
    Around(s, i);
    var rest := s[..i] + s[i + 1..];
    assert x in multiset(rest);
    assert x in rest;
    var k :| 0 <= k < |rest| && rest[k] == x;
    j := if k < i then k else k + 1;
    assert s[j] == x;
    i, j := if i < j then i else j, if i < j then j else i;
  }

  lemma AllExactIff(ordered: seq<Row>)
    requires SortedBy(ByScore(), ordered) && Unmixed(ordered)
    ensures (forall i :: 0 <= i < |ordered| && ordered[i].positive ==> Exact(ordered, i)) <==> TiesOnTop(ordered)
  {
    hide Exact, SortedBy;
    if TiesOnTop(ordered) {
      forall i | 0 <= i < |ordered| && ordered[i].positive ensures Exact(ordered, i) { TopIsExact(ordered, i); }
    }
    if forall i :: 0 <= i < |ordered| && ordered[i].positive ==> Exact(ordered, i) {
      forall x, y | x in ordered && x.positive && multiset(ordered)[x] >= 2 && y in ordered && !y.positive
        ensures y.score <= x.score
      {
        ExactIsTop(ordered, x, y);
      }
    }
  }

  lemma ExactIsTop(ordered: seq<Row>, x: Row, y: Row)
    requires SortedBy(ByScore(), ordered)
    requires forall i :: 0 <= i < |ordered| && ordered[i].positive ==> Exact(ordered, i)
    requires x.positive && multiset(ordered)[x] >= 2 && y in ordered && !y.positive
    ensures y.score <= x.score
  {
    var i, j := TwoPlaces(ordered, x);
    var l :| 0 <= l < |ordered| && ordered[l] == y;
    assert Exact(ordered, i);
    if i < l { assert ByScore()(ordered[i], ordered[l]); }
    if i + 1 < j { assert ByScore()(ordered[i + 1], ordered[j]); }
  }

  lemma TopIsExact(ordered: seq<Row>, i: nat)
    requires SortedBy(ByScore(), ordered) && Unmixed(ordered) && TiesOnTop(ordered) && i < |ordered|
        && ordered[i].positive
    ensures Exact(ordered, i)
  {
    if i + 1 < |ordered| && ordered[i + 1].score >= ordered[i].score {
      var x := ordered[i];
      assert ByScore()(ordered[i], ordered[i + 1]);
      assert x in ordered && ordered[i + 1] in ordered;
      assert ordered[i + 1] == x;
      CountTwice(ordered, i, i + 1);
      forall j | 0 <= j < i ensures ordered[j].positive {
        assert ByScore()(ordered[j], ordered[i]);
        assert ordered[j] in ordered;
      }
    }
  }

  /** The ranked form is 0 exactly without positives, and otherwise positive. */
  lemma RankedIsZeroIff(rows: seq<Row>)
    ensures RankAveragePrecision(rows) >= 0.0
    ensures RankAveragePrecision(rows) == 0.0 <==> forall x :: x in rows ==> !x.positive
  {
    var ordered := Arranged(rows);
    hide SortBy, SortedBy, RankSum;
    Positives(rows);
    RankSumSign(ordered, |ordered|);
  }

  lemma {:induction false} RankSumSign(ordered: seq<Row>, n: nat)
    requires n <= |ordered|
    ensures RankSum(ordered, n) >= 0.0
    ensures (exists i :: 0 <= i < n && ordered[i].positive) ==> RankSum(ordered, n) > 0.0
  {
    if n > 0 {
      RankSumSign(ordered, n - 1);
      Positives(ordered[..n]);
      assert ordered[n - 1] in ordered[..n];
    }
    hide Sum;
  }

  /** Without mixed ties the per-rank form is at most the grouped one, and equals it exactly when
      the positive ties have no negative above them. */
  lemma RankedAtMostGrouped(rows: seq<Row>)
    requires Unmixed(rows) && exists x :: x in rows && x.positive
    ensures AveragePrecision(rows).Some? && RankAveragePrecision(rows) <= AveragePrecision(rows).value
    ensures RankAveragePrecision(rows) == AveragePrecision(rows).value <==> TiesOnTop(rows)
  {
    hide RankSum, Sum, SortBy, SortedBy, RankAveragePrecision, Exact, Precision;
    var ordered := Arranged(rows);
    assert TiesOnTop(rows) <==> TiesOnTop(ordered);
    assert Unmixed(ordered);
    RankSumCompare(ordered, |ordered|);
    AllExactIff(ordered);
    assert ordered[..|ordered|] == ordered;
    AveragePrecisionReordered(rows, ordered);
    SumPermutation(Pos(), rows, ordered);
    Positives(rows);
    hide Unmixed, TiesOnTop;
    OverOne(RankSum(ordered, |ordered|), Sum(PrecisionTerm(ordered), ordered), Sum(Pos(), rows));
  }

  lemma OverOne(a: real, b: real, d: real)
    requires a <= b && d > 0.0
    ensures a / d <= b / d && (a / d == b / d <==> a == b)
  {
    if a < b { LessOver(a, b, d); }
  }

  /** Every arrangement of the rows gives the grouped value exactly when no positive shares its score
      with a negative, and positives that share theirs have no negative above them. */
  lemma RankedIsGroupedIff(rows: seq<Row>)
    requires exists x :: x in rows && x.positive
    ensures (forall other :: multiset(other) == multiset(rows) ==>
        AveragePrecision(rows) == Some(RankAveragePrecision(other)))
       <==> Unmixed(rows) && TiesOnTop(rows)
  {
    hide RankAveragePrecision, AveragePrecision, TiesOnTop;
    OrderUnseenIff(rows);
    if Unmixed(rows) { RankedAtMostGrouped(rows); }
    hide Unmixed;
  }

  /** In particular the forms agree whenever all scores are distinct. */
  lemma GroupedEqualsRanked(rows: seq<Row>)
    requires forall i, j :: 0 <= i < |rows| && 0 <= j < |rows| && i != j && rows[i].positive ==>
        rows[i].score != rows[j].score
    requires exists x :: x in rows && x.positive
    ensures AveragePrecision(rows) == Some(RankAveragePrecision(rows))
  {
    hide RankAveragePrecision, AveragePrecision;
    assert Unmixed(rows);
    forall x | x in rows && x.positive ensures multiset(rows)[x] < 2 {
      if multiset(rows)[x] >= 2 { var i, j := TwoPlaces(rows, x); }
    }
    RankedAtMostGrouped(rows);
  }

  /** The smallest mixed tie: the per-rank form is 1 or 1/2, the grouped one 1/2 either way. */
  lemma TiesBreakTheRankedForm(s: real)
    ensures var p, n := Row(true, s), Row(false, s);
      && RankAveragePrecision([p, n]) == 1.0 && RankAveragePrecision([n, p]) == 0.5
      && AveragePrecision([p, n]) == AveragePrecision([n, p]) == Some(0.5)
  {
    var p, n := Row(true, s), Row(false, s);
    assert SortBy(ByScore(), [n]) == [n] && SortBy(ByScore(), [p]) == [p];
    assert SortBy(ByScore(), [p, n]) == [p, n] && SortBy(ByScore(), [n, p]) == [n, p];
    hide SortBy;
    RankPair(p, n);
    RankPair(n, p);
    SumPair(AtLeast(s), p, n);
    SumPair(PosAtLeast(s), p, n);
    SumPair(PrecisionTerm([p, n]), p, n);
    AveragePrecisionReordered([p, n], [n, p]);
    hide RankSum;
  }

  lemma SumPair(f: Row -> real, x: Row, y: Row)
    ensures Sum(f, [x, y]) == f(x) + f(y)
  {
    assert [x, y][1..] == [y] && [y][1..] == [];
    assert Sum(f, [y]) == f(y);
  }

  lemma RankPair(x: Row, y: Row)
    ensures RankSum([x, y], 2)
        == (if x.positive then 1.0 else 0.0) + if y.positive then (if x.positive then 1.0 else 0.5) else 0.0
    ensures Sum(Pos(), [x, y]) == Pos()(x) + Pos()(y)
  {
    var o := [x, y];
    SumPair(Pos(), x, y);
    assert o[..1] == [x] && o[..2] == o;
    assert Sum(Pos(), [x]) == Pos()(x);
    assert RankSum(o, 1) == if x.positive then Sum(Pos(), o[..1]) / 1.0 else 0.0;
    assert RankSum(o, 2) == RankSum(o, 1) + if y.positive then Sum(Pos(), o[..2]) / 2.0 else 0.0;
  }
}
