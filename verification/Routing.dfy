/** Calibrator interpolation, the model, rule and full routes, and the noisy-or rule score. */
module Routing {
  import opened Aggregates
  import opened Percentiles

  datatype Action = Approve | Challenge | ReviewHold | DeclineHold

  function Severity(a: Action): nat
  {
    match a
    case Approve => 0
    case Challenge => 1
    case ReviewHold => 2
    case DeclineHold => 3
  }

  datatype Thresholds = Thresholds(modelChallenge: real, modelReview: real, modelDecline: real,
                                   rulesChallenge: real, rulesDecline: real, disagreementReview: real,
                                   noveltyReview: real, noveltyChallenge: real)

  // ---------------------------------------------------------------- calibrator interpolation

  predicate ValidKnots(xs: seq<real>, ys: seq<real>)
  {
    |xs| == |ys| && |xs| >= 2 && forall i :: 0 < i < |xs| ==> xs[i - 1] < xs[i]
  }

  /** The value on the first segment, from k on, whose right end is not left of v. */
  function OnSegment(v: real, xs: seq<real>, ys: seq<real>, k: nat): real
    requires ValidKnots(xs, ys) && 1 <= k < |xs|
    decreases |xs| - k
  {
    if v <= xs[k] || k == |xs| - 1
    then Lerp(ys[k - 1], ys[k], (v - xs[k - 1]) / (xs[k] - xs[k - 1]))
    else OnSegment(v, xs, ys, k + 1)
  }

  /** `_interp`; invalid knots fail. */
  function Interp(v: real, xs: seq<real>, ys: seq<real>): Option<real>
  {
    if !ValidKnots(xs, ys) then None
    else if v <= xs[0] then Some(ys[0])
    else if v >= xs[|xs| - 1] then Some(ys[|ys| - 1])
    else Some(OnSegment(v, xs, ys, 1))
  }

  /** The search loop; its final failure is never reached. */
  method InterpSearch(v: real, xs: seq<real>, ys: seq<real>) returns (r: Option<real>)
    ensures r == Interp(v, xs, ys)
  {
    if !ValidKnots(xs, ys) {
      return None;
    }
    if v <= xs[0] {
      return Some(ys[0]);
    }
    if v >= xs[|xs| - 1] {
      return Some(ys[|ys| - 1]);
    }
    hide Lerp;
    var index := 1;
    while index < |xs|
      invariant 1 <= index < |xs| && xs[index - 1] < v
      invariant OnSegment(v, xs, ys, 1) == OnSegment(v, xs, ys, index)
      decreases |xs| - index
    {
      if v <= xs[index] {
        var fraction := (v - xs[index - 1]) / (xs[index] - xs[index - 1]);
        return Some(Lerp(ys[index - 1], ys[index], fraction));
      }
      index := index + 1;
    }
    assert false;
  }

  ghost predicate NonDecreasing(ys: seq<real>)
  {
    forall i, j :: 0 <= i <= j < |ys| ==> ys[i] <= ys[j]
  }

  lemma Fractions(a: real, b: real, v: real, w: real)
    requires a < b && a <= v <= w <= b
    ensures 0.0 <= (v - a) / (b - a) <= (w - a) / (b - a) <= 1.0
    ensures v == b ==> (v - a) / (b - a) == 1.0
  {
    var d := b - a;
    Quotients(0.0, v - a, d);
    Quotients(v - a, w - a, d);
    Quotients(w - a, d, d);
  }

  lemma Quotients(p: real, q: real, d: real)
    requires p <= q && d > 0.0
    ensures p / d <= q / d && 0.0 / d == 0.0 && d / d == 1.0
  {
  }

  /** On its range a segment search stays between the knot on its left and the last knot. */
  lemma {:induction false} SegmentRange(v: real, xs: seq<real>, ys: seq<real>, k: nat)
    requires ValidKnots(xs, ys) && NonDecreasing(ys) && 1 <= k < |xs| && xs[k - 1] <= v <= xs[|xs| - 1]
    ensures ys[k - 1] <= OnSegment(v, xs, ys, k) <= ys[|ys| - 1]
    decreases |xs| - k
  {
    hide Lerp;
    if v <= xs[k] {
      Fractions(xs[k - 1], xs[k], v, v);
      var f := (v - xs[k - 1]) / (xs[k] - xs[k - 1]);
      LerpMonotone(ys[k - 1], ys[k], f, f);
    } else {
      SegmentRange(v, xs, ys, k + 1);
    }
  }

  lemma {:induction false} SegmentMonotone(v: real, w: real, xs: seq<real>, ys: seq<real>, k: nat)
    requires ValidKnots(xs, ys) && NonDecreasing(ys) && 1 <= k < |xs| && xs[k - 1] <= v <= w <= xs[|xs| - 1]
    ensures OnSegment(v, xs, ys, k) <= OnSegment(w, xs, ys, k)
    decreases |xs| - k
  {
    hide Lerp;
    if w <= xs[k] {
      Fractions(xs[k - 1], xs[k], v, w);
      LerpMonotone(ys[k - 1], ys[k], (v - xs[k - 1]) / (xs[k] - xs[k - 1]), (w - xs[k - 1]) / (xs[k] - xs[k - 1]));
    } else if v <= xs[k] {
      Fractions(xs[k - 1], xs[k], v, xs[k]);
      var f := (v - xs[k - 1]) / (xs[k] - xs[k - 1]);
      LerpMonotone(ys[k - 1], ys[k], f, f);
      SegmentRange(w, xs, ys, k + 1);
    } else {
      SegmentMonotone(v, w, xs, ys, k + 1);
    }
  }

  lemma InterpMonotone(v: real, w: real, xs: seq<real>, ys: seq<real>)
    requires ValidKnots(xs, ys) && NonDecreasing(ys) && v <= w
    ensures Interp(v, xs, ys).value <= Interp(w, xs, ys).value
  {
    hide OnSegment;
    if xs[0] < v < xs[|xs| - 1] { SegmentRange(v, xs, ys, 1); }
    if xs[0] < w < xs[|xs| - 1] { SegmentRange(w, xs, ys, 1); }
    if xs[0] < v && w < xs[|xs| - 1] { SegmentMonotone(v, w, xs, ys, 1); }
  }

  lemma {:induction false} KnotsAscend(xs: seq<real>, ys: seq<real>, i: nat, j: nat)
    requires ValidKnots(xs, ys) && i <= j < |xs|
    ensures xs[i] <= xs[j] && (i < j ==> xs[i] < xs[j])
  {
    if i < j { KnotsAscend(xs, ys, i, j - 1); }
  }

  lemma {:induction false} SegmentAtKnot(xs: seq<real>, ys: seq<real>, k: nat, i: nat)
    requires ValidKnots(xs, ys) && 1 <= k <= i < |xs|
    ensures OnSegment(xs[i], xs, ys, k) == ys[i]
    decreases i - k
  {
    KnotsAscend(xs, ys, k, i);
    if k == i {
      Fractions(xs[k - 1], xs[k], xs[k], xs[k]);
    } else {
      SegmentAtKnot(xs, ys, k + 1, i);
    }
  }

  lemma InterpAtKnot(xs: seq<real>, ys: seq<real>, i: nat)
    requires ValidKnots(xs, ys) && i < |xs|
    ensures Interp(xs[i], xs, ys) == Some(ys[i])
  {
    hide OnSegment;
    KnotsAscend(xs, ys, 0, i);
    KnotsAscend(xs, ys, i, |xs| - 1);
    if 0 < i < |xs| - 1 { SegmentAtKnot(xs, ys, 1, i); }
  }

  /** Valid knots are only required to ascend in x. The interpolation is monotone exactly when
      they do not descend in y either. */
  lemma InterpMonotoneIff(xs: seq<real>, ys: seq<real>)
    requires ValidKnots(xs, ys)
    ensures (forall v, w :: v <= w ==> Interp(v, xs, ys).value <= Interp(w, xs, ys).value) <==> NonDecreasing(ys)
  {
    hide OnSegment;
    if NonDecreasing(ys) {
      forall v, w | v <= w ensures Interp(v, xs, ys).value <= Interp(w, xs, ys).value {
        InterpMonotone(v, w, xs, ys);
      }
    }
    if forall v, w :: v <= w ==> Interp(v, xs, ys).value <= Interp(w, xs, ys).value {
      forall i, j | 0 <= i <= j < |ys| ensures ys[i] <= ys[j] {
        KnotsAscend(xs, ys, i, j);
        InterpAtKnot(xs, ys, i);
        InterpAtKnot(xs, ys, j);
      }
    }
  }

  /** Outside the knots the value is that of the nearest; between two neighbours it is as far between their
      values as the argument is between them. */
  lemma InterpBetween(xs: seq<real>, ys: seq<real>, k: nat, f: real, v: real)
    requires ValidKnots(xs, ys) && k + 1 < |xs| && 0.0 <= f <= 1.0 && v == xs[k] + f * (xs[k + 1] - xs[k])
    ensures Interp(v, xs, ys) == Some(ys[k] + f * (ys[k + 1] - ys[k]))
    ensures forall w :: w <= xs[0] ==> Interp(w, xs, ys) == Some(ys[0])
    ensures forall w :: w >= xs[|xs| - 1] ==> Interp(w, xs, ys) == Some(ys[|ys| - 1])
  {
    hide OnSegment;
    KnotsAscend(xs, ys, 0, k);
    KnotsAscend(xs, ys, k + 1, |xs| - 1);
    KnotsAscend(xs, ys, 0, |xs| - 1);
    Between(xs[k], xs[k + 1], f, v);
    if f == 0.0 {
      InterpAtKnot(xs, ys, k);
    } else if f == 1.0 {
      InterpAtKnot(xs, ys, k + 1);
      assert f * (ys[k + 1] - ys[k]) == ys[k + 1] - ys[k];
    } else {
      SegmentBetween(xs, ys, 1, k, f, v);
    }
  }

  lemma Between(a: real, b: real, f: real, v: real)
    requires a < b && 0.0 <= f <= 1.0 && v == a + f * (b - a)
    ensures (v - a) / (b - a) == f && a <= v <= b && (f > 0.0 <==> v > a) && (f < 1.0 <==> v < b)
    ensures (f == 0.0 ==> v == a) && (f == 1.0 ==> v == b)
  {
    PartOf(a, b, b - a, f, v);
  }

  lemma PartOf(a: real, b: real, w: real, f: real, v: real)
    requires w == b - a > 0.0 && 0.0 <= f <= 1.0 && v == a + f * w
    ensures (v - a) / w == f && a <= v <= b && (f > 0.0 <==> v > a) && (f < 1.0 <==> v < b)
    ensures (f == 0.0 ==> v == a) && (f == 1.0 ==> v == b)
  {
    Part(f, w);
    FromTo(a, b, f * w, v);
  }

  lemma FromTo(a: real, b: real, part: real, v: real)
    requires 0.0 <= part <= b - a && v == a + part
    ensures v - a == part && a <= v <= b && (part > 0.0 <==> v > a) && (part < b - a <==> v < b)
  {
  }

  lemma Part(f: real, w: real)
    requires w > 0.0 && 0.0 <= f <= 1.0
    ensures f * w / w == f && 0.0 <= f * w <= w && (f > 0.0 <==> f * w > 0.0) && (f < 1.0 <==> f * w < w)
    ensures (f == 0.0 ==> f * w == 0.0) && (f == 1.0 ==> f * w == w)
  {
    PartPositive(f, w);
    PartPositive(1.0 - f, w);
    assert (1.0 - f) * w == w - f * w;
  }

  lemma PartPositive(f: real, w: real)
    requires w > 0.0 && f >= 0.0
    ensures f * w / w == f && f * w >= 0.0 && (f > 0.0 <==> f * w > 0.0)
  {
  }

  lemma {:induction false} SegmentBetween(xs: seq<real>, ys: seq<real>, from: nat, k: nat, f: real, v: real)
    requires ValidKnots(xs, ys) && 1 <= from <= k + 1 < |xs| && 0.0 < f < 1.0 && v == xs[k] + f * (xs[k + 1] - xs[k])
    ensures OnSegment(v, xs, ys, from) == ys[k] + f * (ys[k + 1] - ys[k])
    decreases k - from
  {
    Between(xs[k], xs[k + 1], f, v);
    if from < k + 1 {
      KnotsAscend(xs, ys, from, k);
      SegmentBetween(xs, ys, from + 1, k, f, v);
    }
  }

  /** Valid knots may descend. */
  lemma DescendingKnots()
    ensures Interp(0.0, [0.0, 1.0], [1.0, 0.0]) == Some(1.0) && Interp(1.0, [0.0, 1.0], [1.0, 0.0]) == Some(0.0)
  {
  }

  // ---------------------------------------------------------------- the model route

  function ModelAction(p: real, t: Thresholds): Action
  {
    if p >= t.modelDecline then DeclineHold
    else if p >= t.modelReview then ReviewHold
    else if p >= t.modelChallenge then Challenge
    else Approve
  }

  function RuleAction(score: real, t: Thresholds): Action
  {
    if score >= t.rulesDecline then DeclineHold
    else if score >= t.rulesChallenge then Challenge
    else Approve
  }

  datatype Calibrator = Calibrator(xs: seq<real>, ys: seq<real>)
  datatype Member = Member(raw: real, calibrator: Calibrator)

  function Clamp(x: real): real
  {
    if x < 0.0 then 0.0 else if x > 1.0 then 1.0 else x
  }

  function Calibrated(): Member -> real
  {
    (m: Member) => match Interp(m.raw, m.calibrator.xs, m.calibrator.ys) case Some(y) => Clamp(y) case None => 0.0
  }

  /** The ensemble probability of at least one member. */
  function Probability(members: seq<Member>): real
    requires members != []
  {
    Sum(Calibrated(), members) / |members| as real
  }

  ghost predicate Monotone(m: Member)
  {
    ValidKnots(m.calibrator.xs, m.calibrator.ys) && NonDecreasing(m.calibrator.ys)
  }

  lemma {:induction false} CalibratedRaised(a: seq<Member>, b: seq<Member>)
    requires |a| == |b|
    requires forall i :: 0 <= i < |a| ==> Monotone(a[i]) && a[i].calibrator == b[i].calibrator && a[i].raw <= b[i].raw
    ensures Sum(Calibrated(), a) <= Sum(Calibrated(), b)
  {
    if a != [] {
      CalibratedRaised(a[1..], b[1..]);
      InterpMonotone(a[0].raw, b[0].raw, a[0].calibrator.xs, a[0].calibrator.ys);
      hide Interp;
    }
  }

  /** Raising raw member scores never lowers the severity of a model-only arm, through
      interpolation, clamping, mean and thresholds, whatever the thresholds. */
  lemma ModelArmMonotone(a: seq<Member>, b: seq<Member>, t: Thresholds)
    requires |a| == |b| && a != []
    requires forall i :: 0 <= i < |a| ==> Monotone(a[i]) && a[i].calibrator == b[i].calibrator && a[i].raw <= b[i].raw
    ensures Severity(ModelAction(Probability(a), t)) <= Severity(ModelAction(Probability(b), t))
  {
    CalibratedRaised(a, b);
    hide Sum, Calibrated;
    Quotients(Sum(Calibrated(), a), Sum(Calibrated(), b), |a| as real);
  }

  /** With ordered thresholds the severity of the model's action is the number of thresholds that the
      probability reaches. */
  lemma ModelSeverity(p: real, t: Thresholds)
    requires t.modelChallenge <= t.modelReview <= t.modelDecline
    ensures Severity(ModelAction(p, t))
         == (if t.modelChallenge <= p then 1 else 0) + (if t.modelReview <= p then 1 else 0)
            + (if t.modelDecline <= p then 1 else 0)
  {
  }

  /** Each member adds its interpolated score, cut to [0, 1], to the mean. */
  lemma ProbabilityGrows(members: seq<Member>, m: Member, y: real)
    requires Interp(m.raw, m.calibrator.xs, m.calibrator.ys) == Some(y)
    ensures var cut := if y < 0.0 then 0.0 else if y > 1.0 then 1.0 else y;
      && Probability([m]) == cut
      && (members != [] ==>
            Probability(members + [m]) * (|members| + 1) as real == Probability(members) * |members| as real + cut)
  {
    SumAppend(Calibrated(), members, [m]);
    hide Interp;
  }

  // ---------------------------------------------------------------- the full route

  /** `_full_route`: the action, and whether disagreement or novelty routed it. */
  function FullRoute(p: real, disagreement: real, novelty: real, t: Thresholds): (Action, bool, bool)
  {
    if p >= t.modelDecline && disagreement < t.disagreementReview then (DeclineHold, false, false)
    else if p >= t.modelReview then (ReviewHold, false, false)
    else if disagreement >= t.disagreementReview && p >= t.modelChallenge then (ReviewHold, true, false)
    else if novelty >= t.noveltyReview && p >= 0.3 then (ReviewHold, false, true)
    else if p >= t.modelChallenge then (Challenge, false, false)
    else if novelty >= t.noveltyChallenge then (Challenge, false, true)
    else (Approve, false, false)
  }

  /** Where the members agree and nothing is novel, the full route is that of the model-only arm. */
  lemma RouteIsModelAction(p: real, d: real, n: real, t: Thresholds)
    requires d < t.disagreementReview && n < t.noveltyReview && n < t.noveltyChallenge
    ensures FullRoute(p, d, n, t) == (ModelAction(p, t), false, false)
  {
  }

  /** When the full route declines, reviews and approves; otherwise it challenges. */
  lemma RouteIff(p: real, d: real, n: real, t: Thresholds)
    ensures var a := FullRoute(p, d, n, t).0;
      var split := d >= t.disagreementReview;
      && (a == DeclineHold <==> p >= t.modelDecline && !split)
      && (a == ReviewHold <==>
            && (p < t.modelDecline || split)
            && (p >= t.modelReview || (p >= t.modelChallenge && split) || (p >= 0.3 && n >= t.noveltyReview)))
      && (a == Approve <==>
            && (p < t.modelDecline || split) && p < t.modelReview && p < t.modelChallenge
            && (p < 0.3 || n < t.noveltyReview) && n < t.noveltyChallenge)
  {
  }

  /** The two flags tell what made the route worse. Novelty routed it exactly when the same request without any
      would be routed to a milder action; disagreement did exactly when, all novelty aside, the same request with
      agreeing members would be. */
  lemma FlagsTellIff(p: real, d: real, e: real, n: real, m: real, t: Thresholds)
    requires e < t.disagreementReview && m < t.noveltyReview && m < t.noveltyChallenge
    requires t.modelReview <= t.modelDecline
    ensures var route := FullRoute(p, d, n, t);
      && (route.2 <==> Severity(FullRoute(p, d, m, t).0) < Severity(route.0))
      && (route.1 <==> Severity(FullRoute(p, e, m, t).0) < Severity(FullRoute(p, d, m, t).0))
  {
  }

  /** `max` by severity: of two equally severe actions, the first. */
  function Worse(a: Action, b: Action): Action
  {
    if Severity(b) > Severity(a) then b else a
  }

  /** The final action of the full arm. */
  function FullAction(trustFailed: bool, p: real, disagreement: real, novelty: real, ruleScore: real,
                      t: Thresholds): Action
  {
    if trustFailed then DeclineHold else Worse(FullRoute(p, disagreement, novelty, t).0, RuleAction(ruleScore, t))
  }

  /** At fixed disagreement the full arm is monotone in probability, novelty and rule score at
      once, and a trust failure never lowers it. */
  lemma FullActionMonotone(f: bool, g: bool, p: real, q: real, d: real, n: real, m: real, r: real, s: real,
                           t: Thresholds)
    requires p <= q && n <= m && r <= s && (f ==> g)
    ensures Severity(FullAction(f, p, d, n, r, t)) <= Severity(FullAction(g, q, d, m, s, t))
  {
    assert Severity(FullRoute(p, d, n, t).0) <= Severity(FullRoute(q, d, m, t).0);
  }

  /** A rise in disagreement turns a decline into a review. */
  predicate DeclineLost(p: real, d: real, e: real, t: Thresholds)
  {
    p >= t.modelDecline && d < t.disagreementReview <= e
  }

  /** A fall in disagreement takes away the review that it alone had called for, and nothing else
      calls for one. */
  predicate ReviewLost(p: real, q: real, d: real, e: real, n: real, t: Thresholds)
  {
    && p >= t.modelChallenge && e < t.disagreementReview <= d
    && q < t.modelReview && q < t.modelDecline && !(n >= t.noveltyReview && q >= 0.3)
  }

  /** With probability and novelty raised and the disagreement changed at will, the route is lowered
      exactly when a decline or a review is lost, whatever the order of the thresholds. */
  lemma RouteLoweredIff(p: real, q: real, d: real, e: real, n: real, o: real, t: Thresholds)
    requires p <= q && n <= o
    ensures Severity(FullRoute(q, e, o, t).0) < Severity(FullRoute(p, d, n, t).0)
       <==> DeclineLost(p, d, e, t) || ReviewLost(p, q, d, e, o, t)
  {
  }

  /** The full arm is then lowered exactly when the route is, nothing fails in trust, and the rules
      do not already call for the old route. */
  lemma FullActionLoweredIff(f: bool, g: bool, p: real, q: real, d: real, e: real, n: real, o: real, r: real, s: real,
                             t: Thresholds)
    requires p <= q && n <= o && r <= s && (f ==> g)
    ensures Severity(FullAction(g, q, e, o, s, t)) < Severity(FullAction(f, p, d, n, r, t))
       <==> && !g
            && (DeclineLost(p, d, e, t) || ReviewLost(p, q, d, e, o, t))
            && Severity(RuleAction(s, t)) < Severity(FullRoute(p, d, n, t).0)
  {
    RouteLoweredIff(p, q, d, e, n, o, t);
    assert Severity(RuleAction(r, t)) <= Severity(RuleAction(s, t));
    hide DeclineLost, ReviewLost, FullRoute, RuleAction;
  }

  /** So raising raw member scores lowers the full arm exactly in these cases, d and e being the
      disagreement of the members before and after. */
  lemma MembersRaisedLowerIff(a: seq<Member>, b: seq<Member>, f: bool, d: real, e: real, n: real, r: real,
                              t: Thresholds)
    requires |a| == |b| && a != []
    requires forall i :: 0 <= i < |a| ==> Monotone(a[i]) && a[i].calibrator == b[i].calibrator && a[i].raw <= b[i].raw
    ensures var p, q := Probability(a), Probability(b);
      Severity(FullAction(f, q, e, n, r, t)) < Severity(FullAction(f, p, d, n, r, t))
      <==> && !f
           && (DeclineLost(p, d, e, t) || ReviewLost(p, q, d, e, n, t))
           && Severity(RuleAction(r, t)) < Severity(FullRoute(p, d, n, t).0)
  {
    CalibratedRaised(a, b);
    hide Sum, Calibrated, FullAction, FullRoute, RuleAction, DeclineLost, ReviewLost, Monotone;
    Quotients(Sum(Calibrated(), a), Sum(Calibrated(), b), |a| as real);
    FullActionLoweredIff(f, f, Probability(a), Probability(b), d, e, n, n, r, r, t);
  }

  /** d is the population standard deviation of the scores. */
  ghost predicate IsDeviation(scores: seq<real>, d: real)
  {
    scores != [] && d >= 0.0 &&
    var mean := Sum(Id(), scores) / |scores| as real;
    d * d * |scores| as real == Sum(SquaredFrom(mean), scores)
  }

  function Id(): real -> real { (x: real) => x }
  function SquaredFrom(mean: real): real -> real { (x: real) => (x - mean) * (x - mean) }

  /** A member whose calibrator leaves scores in [0, 1] as they are. */
  function Plain(score: real): Member
  {
    Member(score, Calibrator([0.0, 1.0], [0.0, 1.0]))
  }

  lemma PlainIs(score: real)
    requires 0.0 <= score <= 1.0
    ensures Monotone(Plain(score)) && Calibrated()(Plain(score)) == score
  {
    var xs := [0.0, 1.0];
    assert ValidKnots(xs, xs);
    if score == 0.0 {
      InterpAtKnot(xs, xs, 0);
    } else if score == 1.0 {
      InterpAtKnot(xs, xs, 1);
    } else {
      UnitSegment(score);
    }
  }

  lemma UnitSegment(score: real)
    requires 0.0 < score < 1.0
    ensures Interp(score, [0.0, 1.0], [0.0, 1.0]) == Some(score)
  {
    var xs := [0.0, 1.0];
    assert ValidKnots(xs, xs) && OnSegment(score, xs, xs, 1) == Lerp(0.0, 1.0, (score - 0.0) / (1.0 - 0.0));
    hide OnSegment, ValidKnots;
  }

  /** Four members with one score and a fifth with another. */
  function Five(x: real, y: real): seq<Member>
  {
    [Plain(x), Plain(x), Plain(x), Plain(x), Plain(y)]
  }

  /** Their calibrated scores have this mean and this deviation. */
  ghost predicate Scores(members: seq<Member>, mean: real, d: real)
  {
    members != [] && Probability(members) == mean && IsDeviation(Map(Calibrated(), members), d)
  }

  lemma FiveScores(x: real, y: real, mean: real, d: real)
    requires 0.0 <= x <= 1.0 && 0.0 <= y <= 1.0 && d >= 0.0
    requires 4.0 * x + y == 5.0 * mean
    requires 4.0 * ((x - mean) * (x - mean)) + (y - mean) * (y - mean) == 5.0 * (d * d)
    ensures Scores(Five(x, y), mean, d)
    ensures forall m :: m in Five(x, y) ==> Monotone(m)
  {
    PlainIs(x);
    PlainIs(y);
    var scores := [x, x, x, x, y];
    hide Calibrated, Sum, Monotone;
    assert Map(Calibrated(), Five(x, y)) == scores;
    FiveSum(Id(), x, y);
    FiveSum(SquaredFrom(mean), x, y);
    SumMap(Calibrated(), Id(), Calibrated(), Five(x, y));
    hide Map;
  }

  /** What the full arm decides on the members at rule score 0, without novelty or trust failure. */
  function Decided(members: seq<Member>, d: real, t: Thresholds): Action
    requires members != []
  {
    FullAction(false, Probability(members), d, 0.0, 0.0, t)
  }

  /** Both happen when one member of five is raised. Raising one away from the others loses a decline:
      five at 0.6, one raised to 1. */
  lemma RaisingOneAwayLowers(t: Thresholds)
    requires t.modelDecline == 0.6 && t.modelReview <= 0.6 && t.disagreementReview == 0.1
    requires t.rulesChallenge > 0.0 && t.rulesDecline > 0.0
    ensures Scores(Five(0.6, 0.6), 0.6, 0.0) && Scores(Five(0.6, 1.0), 0.68, 0.16)
    ensures Decided(Five(0.6, 0.6), 0.0, t) == DeclineHold && Decided(Five(0.6, 1.0), 0.16, t) == ReviewHold
  {
    FiveScores(0.6, 0.6, 0.6, 0.0);
    FiveScores(0.6, 1.0, 0.68, 0.16);
    hide Probability, IsDeviation;
  }

  /** Raising one towards the others loses a review: four at 0.4, the fifth raised from 0.1 to 0.4. */
  lemma RaisingOneTowardsLowers(t: Thresholds)
    requires t.modelChallenge == 0.3 && t.modelReview == 0.6 && t.modelDecline == 0.8
    requires t.disagreementReview == 0.1 && t.noveltyReview == t.noveltyChallenge == 0.9
    requires t.rulesChallenge > 0.0 && t.rulesDecline > 0.0
    ensures Scores(Five(0.4, 0.1), 0.34, 0.12) && Scores(Five(0.4, 0.4), 0.4, 0.0)
    ensures Decided(Five(0.4, 0.1), 0.12, t) == ReviewHold && Decided(Five(0.4, 0.4), 0.0, t) == Challenge
  {
    FiveScores(0.4, 0.1, 0.34, 0.12);
    FiveScores(0.4, 0.4, 0.4, 0.0);
    hide Probability, IsDeviation;
  }

  lemma FiveSum(f: real -> real, x: real, y: real)
    ensures Sum(f, [x, x, x, x, y]) == f(x) + f(x) + f(x) + f(x) + f(y)
  {
    assert [x, x, x, x, y] == [x, x, x] + [x, y];
    SumAppend(f, [x, x, x], [x, y]);
    assert [x, y] == [x] + [y] && [x, x, x] == [x] + [x] + [x];
    SumAppend(f, [x], [y]);
    SumAppend(f, [x] + [x], [x]);
    SumAppend(f, [x], [x]);
  }

  // ---------------------------------------------------------------- the noisy-or rule score

  /** The scores a row's features yield; each feature absent from the catalog reads as zero. */
  datatype Features = Features(actorCount1m: real, actorCount10m: real, fanIn: real, fanOut: real,
                               actorZ: real, counterpartyZ: real, sharedNeighbors: real, pairCount: real,
                               degraded: real)

  /** The inner `score` helper: None below the threshold. */
  function Score(value: real, threshold: real): Option<real>
    requires threshold > 0.0
  {
    if value < threshold then None
    else
      var s := 0.60 + 0.20 * (value / threshold - 1.0);
      Some(if s < 1.0 then s else 1.0)
  }

  function MaxOf(a: Option<real>, b: Option<real>): Option<real>
  {
    if a.None? then b else if b.None? || a.value >= b.value then a else b
  }

  function AbsMax(a: real, b: real): real
  {
    var x, y := if a < 0.0 then -a else a, if b < 0.0 then -b else b;
    if x >= y then x else y
  }

  /** The components in alphabetical order of their reasons; `integrityFailed` and `incoherent`
      are the two verdicts on the row's rail, event kind and integrity status. */
  function Components(f: Features, integrityFailed: bool, incoherent: bool): seq<Option<real>>
  {
    [ MaxOf(Score(f.actorCount1m, 4.0), Score(f.actorCount10m, 8.0)),
      Score(AbsMax(f.actorZ, f.counterpartyZ), 4.0),
      Score(f.pairCount, 4.0),
      if f.degraded >= 1.0 then Some(0.60) else None,
      Score(f.fanIn, 5.0),
      Score(f.fanOut, 5.0),
      Score(f.sharedNeighbors, 3.0),
      if integrityFailed then Some(1.0) else None,
      if incoherent then Some(1.0) else None ]
  }

  /** The scores actually listed. */
  function Listed(c: seq<Option<real>>): seq<real>
  {
    if c == [] then [] else (if c[0].Some? then [c[0].value] else []) + Listed(c[1..])
  }

  function Miss(scores: seq<real>): real
  {
    if scores == [] then 1.0 else Times(1.0 - scores[0], Miss(scores[1..]))
  }

  function NoisyOr(scores: seq<real>): real
  {
    1.0 - Miss(scores)
  }

  ghost predicate InUnit(scores: seq<real>)
  {
    forall x :: x in scores ==> 0.0 <= x <= 1.0
  }

  lemma UnitProduct(a: real, b: real)
    requires 0.0 <= a <= 1.0 && 0.0 <= b <= 1.0
    ensures 0.0 <= Times(a, b) <= a && Times(a, b) <= b
  {
    Scale(0.0, a, b);
    Scale(b, 1.0, a);
    Scale(a, 1.0, b);
  }

  lemma {:induction false} MissRange(scores: seq<real>)
    requires InUnit(scores)
    ensures 0.0 <= Miss(scores) <= 1.0
    ensures forall x :: x in scores ==> Miss(scores) <= 1.0 - x
  {
    hide Times;
    if scores != [] {
      assert forall x :: x in scores <==> x == scores[0] || x in scores[1..];
      MissRange(scores[1..]);
      assert scores[0] in scores;
      UnitProduct(1.0 - scores[0], Miss(scores[1..]));
    }
  }

  /** The rule score lies in [0, 1] and is at least every component. */
  lemma NoisyOrRange(scores: seq<real>)
    requires InUnit(scores)
    ensures 0.0 <= NoisyOr(scores) <= 1.0
    ensures forall x :: x in scores ==> x <= NoisyOr(scores)
  {
    MissRange(scores);
  }

  /** b is listed if a is, with at least its score; both are scores in [0, 1]. */
  ghost predicate Up(a: Option<real>, b: Option<real>)
  {
    && (a.Some? ==> 0.0 <= a.value <= 1.0 && b.Some? && a.value <= b.value)
    && (b.Some? ==> 0.0 <= b.value <= 1.0)
  }

  ghost predicate Raised(a: seq<Option<real>>, b: seq<Option<real>>)
  {
    |a| == |b| && forall i :: 0 <= i < |a| ==> Up(a[i], b[i])
  }

  ghost predicate UnitComponents(c: seq<Option<real>>)
  {
    forall i :: 0 <= i < |c| && c[i].Some? ==> 0.0 <= c[i].value <= 1.0
  }

  lemma {:induction false} ListedInUnit(c: seq<Option<real>>)
    requires UnitComponents(c)
    ensures InUnit(Listed(c))
  {
    if c != [] {
      assert forall i :: 0 <= i < |c| - 1 ==> c[1..][i] == c[i + 1];
      ListedInUnit(c[1..]);
    }
  }

  function MissOne(c: Option<real>): real { if c.Some? then 1.0 - c.value else 1.0 }

  lemma ListedHead(c: seq<Option<real>>)
    requires c != []
    ensures Listed(c) == (if c[0].Some? then [c[0].value] else []) + Listed(c[1..])
  {
  }

  lemma MissCons(x: real, rest: seq<real>)
    ensures Miss([x] + rest) == Times(1.0 - x, Miss(rest))
  {
    assert ([x] + rest)[1..] == rest;
    hide Times;
  }

  lemma MissHead(c: seq<Option<real>>)
    requires c != []
    ensures Miss(Listed(c)) == Times(MissOne(c[0]), Miss(Listed(c[1..])))
  {
    hide Miss, Listed, Times;
    var rest := Listed(c[1..]);
    ListedHead(c);
    if c[0].Some? {
      MissCons(c[0].value, rest);
    } else {
      TimesFacts(1.0, Miss(rest), 0.0);
      assert [] + rest == rest;
    }
  }

  /** Raising a component, or adding one, never lowers the noisy-or. */
  lemma {:induction false} NoisyOrMonotone(a: seq<Option<real>>, b: seq<Option<real>>)
    requires Raised(a, b)
    ensures NoisyOr(Listed(a)) <= NoisyOr(Listed(b))
  {
    if a == [] {
      assert b == [];
    } else {
      hide Miss, Listed;
      assert Up(a[0], b[0]);
      forall i | 0 <= i < |a[1..]| ensures Up(a[1..][i], b[1..][i]) {
        assert Up(a[i + 1], b[i + 1]);
      }
      NoisyOrMonotone(a[1..], b[1..]);
      RaisedAreUnits(a[1..], b[1..]);
      ListedInUnit(a[1..]);
      ListedInUnit(b[1..]);
      MissRange(Listed(a[1..]));
      MissRange(Listed(b[1..]));
      MissHead(a);
      MissHead(b);
      ProductsOrdered(MissOne(b[0]), MissOne(a[0]), Miss(Listed(b[1..])), Miss(Listed(a[1..])));
    }
  }

  lemma ProductsOrdered(x: real, y: real, m: real, n: real)
    requires 0.0 <= x <= y && 0.0 <= m <= n
    ensures Times(x, m) <= Times(y, n)
  {
    Scale(m, n, x);
    Scale(x, y, n);
  }

  lemma ScoreRange(v: real, w: real, threshold: real)
    requires threshold > 0.0 && v <= w
    ensures Score(v, threshold).Some? ==> 0.6 <= Score(v, threshold).value <= 1.0
    ensures Score(v, threshold).Some?
        ==> Score(w, threshold).Some? && Score(v, threshold).value <= Score(w, threshold).value
  {
    Quotients(v, w, threshold);
    if v >= threshold { Quotients(threshold, v, threshold); }
  }

  /** Every feature at least as large; the two z-scores by magnitude. */
  predicate FeaturesRaised(f: Features, g: Features)
  {
    && f.actorCount1m <= g.actorCount1m && f.actorCount10m <= g.actorCount10m && f.fanIn <= g.fanIn
    && f.fanOut <= g.fanOut
    && AbsMax(f.actorZ, f.counterpartyZ) <= AbsMax(g.actorZ, g.counterpartyZ)
    && f.sharedNeighbors <= g.sharedNeighbors && f.pairCount <= g.pairCount && f.degraded <= g.degraded
  }

  lemma RaisedAreUnits(a: seq<Option<real>>, b: seq<Option<real>>)
    requires Raised(a, b)
    ensures UnitComponents(a) && UnitComponents(b)
  {
    assert forall i :: 0 <= i < |a| ==> Up(a[i], b[i]);
  }

  lemma ScoreUp(v: real, w: real, threshold: real)
    requires threshold > 0.0 && v <= w
    ensures Up(Score(v, threshold), Score(w, threshold))
  {
    ScoreRange(v, w, threshold);
    ScoreRange(w, w, threshold);
    hide Score;
  }

  lemma MaxUp(a: Option<real>, b: Option<real>, c: Option<real>, d: Option<real>)
    requires Up(a, c) && Up(b, d)
    ensures Up(MaxOf(a, b), MaxOf(c, d))
  {
  }

  lemma ComponentsRaised(f: Features, g: Features, i: bool, j: bool, u: bool, v: bool)
    requires FeaturesRaised(f, g) && (i ==> j) && (u ==> v)
    ensures Raised(Components(f, i, u), Components(g, j, v))
  {
    hide Score, AbsMax, MaxOf;
    var c, d := Components(f, i, u), Components(g, j, v);
    ScoreUp(f.actorCount1m, g.actorCount1m, 4.0);
    ScoreUp(f.actorCount10m, g.actorCount10m, 8.0);
    MaxUp(Score(f.actorCount1m, 4.0), Score(f.actorCount10m, 8.0), Score(g.actorCount1m, 4.0),
      Score(g.actorCount10m, 8.0));
    ScoreUp(AbsMax(f.actorZ, f.counterpartyZ), AbsMax(g.actorZ, g.counterpartyZ), 4.0);
    ScoreUp(f.pairCount, g.pairCount, 4.0);
    ScoreUp(f.fanIn, g.fanIn, 5.0);
    ScoreUp(f.fanOut, g.fanOut, 5.0);
    ScoreUp(f.sharedNeighbors, g.sharedNeighbors, 3.0);
    assert Up(c[3], d[3]) && Up(c[7], d[7]) && Up(c[8], d[8]);
    hide Up;
    assert Up(c[0], d[0]) && Up(c[1], d[1]) && Up(c[2], d[2]) && Up(c[4], d[4]) && Up(c[5], d[5]) && Up(c[6], d[6]);
    assert |c| == |d| == 9;
    hide Components;
  }

  /** Raising features, or failing integrity or coherence, never lowers the rule score or the
      severity of the rule action. */
  lemma RuleActionMonotone(f: Features, g: Features, i: bool, j: bool, u: bool, v: bool, t: Thresholds)
    requires FeaturesRaised(f, g) && (i ==> j) && (u ==> v)
    ensures var a, b := NoisyOr(Listed(Components(f, i, u))), NoisyOr(Listed(Components(g, j, v)));
      0.0 <= a <= b <= 1.0 && Severity(RuleAction(a, t)) <= Severity(RuleAction(b, t))
  {
    hide Components, Listed, Miss, FeaturesRaised;
    ComponentsRaised(f, g, i, j, u, v);
    RaisedAreUnits(Components(f, i, u), Components(g, j, v));
    NoisyOrMonotone(Components(f, i, u), Components(g, j, v));
    ListedInUnit(Components(f, i, u));
    ListedInUnit(Components(g, j, v));
    NoisyOrRange(Listed(Components(f, i, u)));
    NoisyOrRange(Listed(Components(g, j, v)));
  }

  // ---------------------------------------------------------------- rows that show one thing

  function RuleScore(f: Features, integrityFailed: bool, incoherent: bool): real
  {
    NoisyOr(Listed(Components(f, integrityFailed, incoherent)))
  }

  lemma ComponentsAreUnits(f: Features, i: bool, u: bool)
    ensures UnitComponents(Components(f, i, u)) && |Components(f, i, u)| == 9
  {
    hide Components, FeaturesRaised;
    assert FeaturesRaised(f, f) by { SameFeatures(f); }
    ComponentsRaised(f, f, i, i, u, u);
    RaisedAreUnits(Components(f, i, u), Components(f, i, u));
    NineComponents(f, i, u);
  }

  lemma SameFeatures(f: Features)
    ensures FeaturesRaised(f, f)
  {
  }

  lemma NineComponents(f: Features, i: bool, u: bool)
    ensures var c := Components(f, i, u);
      |c| == 9 && c[7] == (if i then Some(1.0) else None) && c[8] == (if u then Some(1.0) else None)
  {
    hide Score, AbsMax, MaxOf;
  }

  lemma {:induction false} ValueListed(c: seq<Option<real>>, k: nat)
    requires k < |c| && c[k].Some?
    ensures c[k].value in Listed(c)
  {
    if k > 0 { ValueListed(c[1..], k - 1); }
  }

  /** A row whose integrity check fails, or that is incoherent, has rule score 1 whatever its features; the
      rules decline it exactly when their threshold is no more than 1. */
  lemma FailureDeclines(f: Features, i: bool, u: bool, t: Thresholds)
    requires i || u
    ensures RuleScore(f, i, u) == 1.0
    ensures RuleAction(RuleScore(f, i, u), t) == DeclineHold <==> t.rulesDecline <= 1.0
  {
    var c := Components(f, i, u);
    hide Components, Listed, Miss;
    ComponentsAreUnits(f, i, u);
    NineComponents(f, i, u);
    ValueListed(c, if i then 7 else 8);
    ListedInUnit(c);
    NoisyOrRange(Listed(c));
  }

  datatype Signal = ActorCount1m | ActorCount10m | FanIn | FanOut | ActorZ | CounterpartyZ | SharedNeighbors | PairCount

  /** Features of which only one is not zero. */
  function Lone(s: Signal, v: real): Features
  {
    var none := Features(0.0, 0.0, 0.0, 0.0, 0.0, 0.0, 0.0, 0.0, 0.0);
    match s
    case ActorCount1m => none.(actorCount1m := v)
    case ActorCount10m => none.(actorCount10m := v)
    case FanIn => none.(fanIn := v)
    case FanOut => none.(fanOut := v)
    case ActorZ => none.(actorZ := v)
    case CounterpartyZ => none.(counterpartyZ := v)
    case SharedNeighbors => none.(sharedNeighbors := v)
    case PairCount => none.(pairCount := v)
  }

  /** Where the rule on a signal starts. */
  function Start(s: Signal): real
  {
    match s
    case ActorCount1m => 4.0
    case ActorCount10m => 8.0
    case FanIn => 5.0
    case FanOut => 5.0
    case ActorZ => 4.0
    case CounterpartyZ => 4.0
    case SharedNeighbors => 3.0
    case PairCount => 4.0
  }

  lemma {:induction false} MissAlone(c: seq<Option<real>>, k: nat)
    requires k < |c| && forall j :: 0 <= j < |c| && j != k ==> c[j] == None
    ensures Miss(Listed(c)) == MissOne(c[k])
  {
    hide Miss, Listed, Times;
    MissHead(c);
    if k == 0 {
      MissNothing(c[1..]);
      TimesFacts(MissOne(c[0]), 1.0, 0.0);
      UnitFactor(MissOne(c[0]));
    } else {
      MissAlone(c[1..], k - 1);
      TimesFacts(0.0, MissOne(c[k]), 0.0);
    }
  }

  lemma UnitFactor(x: real)
    ensures Times(x, 1.0) == x
  {
  }

  lemma {:induction false} MissNothing(c: seq<Option<real>>)
    requires forall j :: 0 <= j < |c| ==> c[j] == None
    ensures Miss(Listed(c)) == 1.0
  {
    if c != [] {
      hide Miss, Listed, Times;
      MissHead(c);
      MissNothing(c[1..]);
      TimesFacts(0.0, 1.0, 0.0);
    }
  }

  lemma ScoreIs(v: real, start: real)
    requires start > 0.0
    ensures v < start ==> Score(v, start) == None
    ensures v == start ==> Score(v, start) == Some(0.6)
    ensures v == 2.0 * start ==> Score(v, start) == Some(0.8)
    ensures v >= 3.0 * start ==> Score(v, start) == Some(1.0)
  {
    Quotients(start, start, start);
    if v == 2.0 * start {
      assert v / start == 2.0;
    }
    if v >= 3.0 * start {
      Quotients(3.0 * start, v, start);
      assert 3.0 * start / start == 3.0;
    }
  }

  /** One signal alone scores nothing below its start, 0.6 there, 0.8 at twice and 1 from three times it on;
      z-scores count by magnitude. */
  lemma LoneSignal(s: Signal, v: real)
    requires v >= 0.0 || s.ActorZ? || s.CounterpartyZ?
    ensures var size, score := if v < 0.0 then -v else v, RuleScore(Lone(s, v), false, false);
      && (size < Start(s) ==> score == 0.0) && (size == Start(s) ==> score == 0.6)
      && (size == 2.0 * Start(s) ==> score == 0.8) && (size >= 3.0 * Start(s) ==> score == 1.0)
  {
    ScoreIs(if v < 0.0 then -v else v, Start(s));
    LoneScores(s, v, 0.0);
    hide Score, RuleScore;
    assert Lone(s, v).(degraded := 0.0) == Lone(s, v);
  }

  /** A degraded state alone scores 0.6. */
  lemma DegradedAlone(d: real)
    ensures RuleScore(Lone(FanIn, 0.0).(degraded := d), false, false) == if d >= 1.0 then 0.6 else 0.0
  {
    ScoreIs(0.0, 5.0);
    LoneScores(FanIn, 0.0, d);
    hide Score, RuleScore;
  }

  lemma LoneScores(s: Signal, v: real, d: real)
    requires (v >= 0.0 || s.ActorZ? || s.CounterpartyZ?) && (v == 0.0 || d == 0.0)
    ensures var size := if v < 0.0 then -v else v;
      var one := Score(size, Start(s));
      RuleScore(Lone(s, v).(degraded := d), false, false)
      == if d >= 1.0 then 0.6 else if one.Some? then one.value else 0.0
  {
    var c := Components(Lone(s, v).(degraded := d), false, false);
    ScoreIs(0.0, 4.0);
    ScoreIs(0.0, 8.0);
    ScoreIs(0.0, 5.0);
    ScoreIs(0.0, 3.0);
    var k := if d >= 1.0 then 3 else
      match s
      case ActorCount1m => 0
      case ActorCount10m => 0
      case ActorZ => 1
      case CounterpartyZ => 1
      case PairCount => 2
      case FanIn => 4
      case FanOut => 5
      case SharedNeighbors => 6;
    hide Score, Miss, Listed;
    MissAlone(c, k);
  }

  /** Two scores combine as independent chances; the two counts of one actor are not independent and only the
      larger counts. */
  lemma TwoSignals(x: real, y: real)
    ensures NoisyOr([x, y]) == 1.0 - (1.0 - x) * (1.0 - y)
    ensures RuleScore(Lone(ActorCount1m, 4.0).(actorCount10m := 8.0), false, false) == 0.6
    ensures RuleScore(Lone(FanIn, 5.0).(fanOut := 5.0), false, false) == 0.84
  {
    MissTwo(x, y);
    var c := Components(Lone(ActorCount1m, 4.0).(actorCount10m := 8.0), false, false);
    var d := Components(Lone(FanIn, 5.0).(fanOut := 5.0), false, false);
    assert c == [Some(0.6), None, None, None, None, None, None, None, None];
    assert d == [None, None, None, None, Some(0.6), Some(0.6), None, None, None];
    MissAlone(c, 0);
    MissPair(d);
  }

  lemma MissTwo(x: real, y: real)
    ensures Miss([x, y]) == (1.0 - x) * (1.0 - y)
  {
    assert [x, y][1..] == [y] && [y][1..] == [];
    assert Miss([y]) == Times(1.0 - y, 1.0) == 1.0 - y;
    assert Miss([x, y]) == Times(1.0 - x, 1.0 - y);
  }

  lemma MissPair(d: seq<Option<real>>)
    requires d == [None, None, None, None, Some(0.6), Some(0.6), None, None, None]
    ensures Miss(Listed(d)) == 0.16
  {
    hide Miss, Listed, Times;
    MissHead(d);
    MissHead(d[1..]);
    MissHead(d[2..]);
    MissHead(d[3..]);
    MissHead(d[4..]);
    MissAlone(d[5..], 0);
    assert d[1..][1..] == d[2..] && d[2..][1..] == d[3..] && d[3..][1..] == d[4..] && d[4..][1..] == d[5..];
    TimesFacts(0.0, Miss(Listed(d[4..])), 0.0);
    assert Times(0.4, 0.4) == 0.16 by { FourTenths(); }
  }

  lemma FourTenths()
    ensures Times(0.4, 0.4) == 0.16
  {
  }

  /** The final action of the full arm is the more severe of the route and the rules, and a trust failure
      declines. */
  lemma FullActionWorst(f: bool, p: real, d: real, n: real, r: real, t: Thresholds)
    ensures var a, b := Severity(FullRoute(p, d, n, t).0), Severity(RuleAction(r, t));
      Severity(FullAction(f, p, d, n, r, t)) == if f then 3 else if a >= b then a else b
    ensures t.rulesChallenge <= t.rulesDecline ==>
      Severity(RuleAction(r, t)) == (if t.rulesChallenge <= r then 1 else 0) + (if t.rulesDecline <= r then 2 else 0)
  {
  }
}
