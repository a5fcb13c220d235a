/** The exact paired sign-resampling reference interval of `_descriptive_uncertainty`. */
module SignResampling {
  import opened Aggregates

  function Pow2(n: nat): (r: nat)
    ensures r >= 1
  {
    if n == 0 then 1 else 2 * Pow2(n - 1)
  }

  /** `mask & (1 << index)`. */
  predicate Bit(mask: nat, index: nat)
  {
    if index == 0 then mask % 2 == 1 else Bit(mask / 2, index - 1)
  }

  /** The signed sum that a mask selects, over the deltas from position i on. */
  function SignedSum(deltas: seq<real>, mask: nat, i: nat): real
    requires i <= |deltas|
    decreases |deltas| - i
  {
    if i == |deltas| then 0.0
    else (if Bit(mask, i) then deltas[i] else -deltas[i]) + SignedSum(deltas, mask, i + 1)
  }

  function Id(): real -> real { (x: real) => x }

  function ObservedMean(deltas: seq<real>): real
    requires deltas != []
  {
    Sum(Id(), deltas) / |deltas| as real
  }

  function MaskMean(deltas: seq<real>, mask: nat): real
    requires deltas != []
  {
    SignedSum(deltas, mask, 0) / |deltas| as real
  }

  /** The means of all 2^n sign masks, in mask order. */
  function AllMeans(deltas: seq<real>): (r: seq<real>)
    requires deltas != []
    ensures |r| == Pow2(|deltas|)
  {
    seq(Pow2(|deltas|), mask requires 0 <= mask < Pow2(|deltas|) => MaskMean(deltas, mask))
  }

  function SignMeans(deltas: seq<real>): (r: seq<real>)
    requires deltas != []
    ensures |r| == Pow2(|deltas|)
  {
    Sorted(AllMeans(deltas))
  }

  datatype Report = Report(mean: real, lower: real, upper: real)

  /** The reported mean and the order statistics at ranks floor(0.025 (N-1)) and
      floor(0.975 (N-1)). With no delta the division by the count raises: None. */
  function Uncertainty(deltas: seq<real>): Option<Report>
  {
    if deltas == [] then None
    else
      var means := SignMeans(deltas);
      Some(Report(ObservedMean(deltas), means[LowerRank(|means|)], means[UpperRank(|means|)]))
  }

  function LowerRank(n: nat): (r: nat)
    requires n > 0
    ensures r < n
  {
    (0.025 * (n - 1) as real).Floor
  }

  function UpperRank(n: nat): (r: nat)
    requires n > 0
    ensures r < n
  {
    (0.975 * (n - 1) as real).Floor
  }

  // ---------------------------------------------------------------- symmetry

  /** Complementing a mask flips every one of its bits. */
  lemma {:induction false} BitComplement(n: nat, mask: nat, i: nat)
    requires i < n && mask < Pow2(n)
    ensures Bit(Pow2(n) - 1 - mask, i) == !Bit(mask, i)
  {
    var other := Pow2(n) - 1 - mask;
    assert other % 2 == 1 - mask % 2 && other / 2 == Pow2(n - 1) - 1 - mask / 2;
    if i > 0 {
      BitComplement(n - 1, mask / 2, i - 1);
    }
  }

  lemma {:induction false} SumComplement(deltas: seq<real>, mask: nat, i: nat)
    requires i <= |deltas| && mask < Pow2(|deltas|)
    ensures SignedSum(deltas, Pow2(|deltas|) - 1 - mask, i) == -SignedSum(deltas, mask, i)
    decreases |deltas| - i
  {
    if i < |deltas| {
      BitComplement(|deltas|, mask, i);
      SumComplement(deltas, mask, i + 1);
    }
  }

  lemma MaskMeanComplement(deltas: seq<real>, mask: nat)
    requires deltas != [] && mask < Pow2(|deltas|)
    ensures MaskMean(deltas, Pow2(|deltas|) - 1 - mask) == -MaskMean(deltas, mask)
  {
    SumComplement(deltas, mask, 0);
  }

  lemma MeansSymmetric(deltas: seq<real>)
    requires deltas != []
    ensures Negated(AllMeans(deltas)) == AllMeans(deltas)
  {
    hide Negated, MaskMean;
    var n := Pow2(|deltas|);
    forall k | 0 <= k < n ensures Negated(AllMeans(deltas))[k] == AllMeans(deltas)[k] {
      MaskMeanComplement(deltas, k);
    }
  }

  /** The sorted list of sign-mask means is antisymmetric: element k is minus element N-1-k. */
  lemma SignMeansAntisymmetric(deltas: seq<real>)
    requires deltas != []
    ensures Negated(SignMeans(deltas)) == SignMeans(deltas)
  {
    hide AllMeans, Negated, Sorted;
    var raw, sorted := AllMeans(deltas), SignMeans(deltas);
    MeansSymmetric(deltas);
    NegatedPermutes(sorted, raw);
    AscendingUnique(Negated(sorted), sorted);
  }

  // ---------------------------------------------------------------- the observed mean

  lemma {:induction false} AllBitsSet(n: nat, i: nat)
    requires i < n
    ensures Bit(Pow2(n) - 1, i)
  {
    if i > 0 {
      assert (Pow2(n) - 1) / 2 == Pow2(n - 1) - 1;
      AllBitsSet(n - 1, i - 1);
    }
  }

  lemma {:induction false} FullMaskSum(deltas: seq<real>, i: nat)
    requires i <= |deltas|
    ensures SignedSum(deltas, Pow2(|deltas|) - 1, i) == Sum(Id(), deltas[i..])
    decreases |deltas| - i
  {
    if i < |deltas| {
      AllBitsSet(|deltas|, i);
      FullMaskSum(deltas, i + 1);
      assert deltas[i..][1..] == deltas[i + 1..];
    }
  }

  /** The observed mean is one of the listed sign-mask means. */
  lemma ObservedMeanListed(deltas: seq<real>)
    requires deltas != []
    ensures ObservedMean(deltas) in SignMeans(deltas)
  {
    var raw, top := AllMeans(deltas), Pow2(|deltas|) - 1;
    FullMaskSum(deltas, 0);
    assert deltas[0..] == deltas;
    assert raw[top] == ObservedMean(deltas);
    assert raw[top] in multiset(SignMeans(deltas));
  }

  // ---------------------------------------------------------------- the interval

  lemma Ranks(n: nat)
    requires n >= 2
    ensures Pow2(n) % 2 == 0 && Pow2(n) >= 4
    ensures LowerRank(Pow2(n)) + UpperRank(Pow2(n)) == Pow2(n) - 2
    ensures LowerRank(Pow2(n)) < UpperRank(Pow2(n))
  {
    var m := Pow2(n) - 1;
    assert Pow2(n) == 2 * Pow2(n - 1) && Pow2(n - 1) == 2 * Pow2(n - 2);
    var q := m / 40;
    assert m == 40 * q + m % 40 && 1 <= m % 40 <= 39;
    assert 0.025 * m as real == q as real + (m % 40) as real / 40.0;
    assert 0.975 * m as real == (m - q) as real - (m % 40) as real / 40.0;
    assert LowerRank(Pow2(n)) == q;
    assert UpperRank(Pow2(n)) == m - q - 1;
  }

  /** With two or more deltas: lower <= 0 <= upper <= -lower. */
  lemma IntervalAroundZero(deltas: seq<real>)
    requires |deltas| >= 2
    ensures var r := Uncertainty(deltas).value; r.lower <= 0.0 <= r.upper <= -r.lower
  {
    var means := SignMeans(deltas);
    var n := |means|;
    var l, u := LowerRank(n), UpperRank(n);
    Ranks(|deltas|);
    SignMeansAntisymmetric(deltas);
    assert means[n - 1 - l] == -means[l] && means[n - 1 - u] == -means[u];
    assert u <= n - 1 - l && n - 1 - u <= u && l <= n - 1 - l;
  }

  /** With one delta both ranks are 0, so the interval is the single point -|delta|. */
  lemma SinglePointInterval(deltas: seq<real>)
    requires |deltas| == 1
    ensures var r := Uncertainty(deltas).value;
      r.lower == r.upper == if deltas[0] < 0.0 then deltas[0] else -deltas[0]
  {
    assert Pow2(1) == 2 * Pow2(0);
    assert Sum(Id(), deltas) == deltas[0] && ObservedMean(deltas) == deltas[0] / 1.0;
    hide AllMeans, Negated, Sorted, Sum, Pow2;
    var means := SignMeans(deltas);
    SignMeansAntisymmetric(deltas);
    assert means[1] == -means[0];
    ObservedMeanListed(deltas);
    assert LowerRank(2) == 0 && UpperRank(2) == 0;
  }

  /** So the property holds in general exactly when there are two deltas or the one is zero. */
  lemma IntervalAroundZeroIff(deltas: seq<real>)
    requires deltas != []
    ensures var r := Uncertainty(deltas).value;
      (r.lower <= 0.0 <= r.upper <= -r.lower) <==> (|deltas| >= 2 || deltas[0] == 0.0)
  {
    hide SignMeans;
    if |deltas| >= 2 {
      IntervalAroundZero(deltas);
    } else {
      SinglePointInterval(deltas);
    }
  }

  // ---------------------------------------------------------------- which means, which ranks

  /** The deltas with the signs given. */
  function Signed(deltas: seq<real>, signs: seq<bool>): seq<real>
    requires |signs| == |deltas|
  {
    seq(|deltas|, i requires 0 <= i < |deltas| => if signs[i] then deltas[i] else -deltas[i])
  }

  lemma {:induction false} MaskOf(signs: seq<bool>) returns (mask: nat)
    ensures mask < Pow2(|signs|) && forall i :: 0 <= i < |signs| ==> Bit(mask, i) == signs[i]
  {
    mask := 0;
    if signs != [] {
      var rest := MaskOf(signs[1..]);
      mask := 2 * rest + if signs[0] then 1 else 0;
      assert mask / 2 == rest && (mask % 2 == 1) == signs[0];
      forall i | 0 <= i < |signs| ensures Bit(mask, i) == signs[i] {
        if i > 0 { assert Bit(rest, i - 1) == signs[1..][i - 1]; }
      }
    }
  }

  lemma {:induction false} MaskUnique(n: nat, a: nat, b: nat)
    requires a < Pow2(n) && b < Pow2(n) && forall i :: 0 <= i < n ==> Bit(a, i) == Bit(b, i)
    ensures a == b
  {
    if n > 0 {
      assert Bit(a, 0) == Bit(b, 0);
      forall i | 0 <= i < n - 1 ensures Bit(a / 2, i) == Bit(b / 2, i) { assert Bit(a, i + 1) == Bit(b, i + 1); }
      MaskUnique(n - 1, a / 2, b / 2);
      assert a == 2 * (a / 2) + a % 2 && b == 2 * (b / 2) + b % 2;
    }
  }

  lemma {:induction false} SignedSumIs(deltas: seq<real>, signs: seq<bool>, mask: nat, i: nat)
    requires |signs| == |deltas| && i <= |deltas| && forall k :: 0 <= k < |signs| ==> Bit(mask, k) == signs[k]
    ensures SignedSum(deltas, mask, i) == Sum(Id(), Signed(deltas, signs)[i..])
    decreases |deltas| - i
  {
    if i < |deltas| {
      SignedSumIs(deltas, signs, mask, i + 1);
      assert Signed(deltas, signs)[i..][1..] == Signed(deltas, signs)[i + 1..];
      hide Bit;
    }
  }

  /** The mask sets exactly the bits of the positive signs. */
  predicate Chooses(mask: nat, signs: seq<bool>)
  {
    forall i :: 0 <= i < |signs| ==> Bit(mask, i) == signs[i]
  }

  /** The enumeration holds the mean of every choice of signs, each choice at one mask only. */
  lemma EverySignChoice(deltas: seq<real>, signs: seq<bool>) returns (mask: nat)
    requires |signs| == |deltas| > 0
    ensures mask < |AllMeans(deltas)| && AllMeans(deltas)[mask] == Sum(Id(), Signed(deltas, signs)) / |deltas| as real
    ensures Chooses(mask, signs)
    ensures forall other: nat :: other < Pow2(|deltas|) && Chooses(other, signs) ==> other == mask
  {
    mask := MaskOf(signs);
    SignedSumIs(deltas, signs, mask, 0);
    assert Signed(deltas, signs)[0..] == Signed(deltas, signs);
    hide SignedSum, Signed, Sum;
    forall other: nat | other < Pow2(|deltas|) && Chooses(other, signs) ensures other == mask {
      MaskUnique(|signs|, mask, other);
    }
  }

  /** The two bounds are the sorted means one fortieth of the way in from either end, rounded down. */
  lemma IntervalRanks(deltas: seq<real>) returns (l: nat, u: nat)
    requires deltas != []
    ensures var means, r := SignMeans(deltas), Uncertainty(deltas).value;
      && l < |means| && u < |means| && r.lower == means[l] && r.upper == means[u]
      && 40 * l <= |means| - 1 < 40 * (l + 1) && 40 * u <= 39 * (|means| - 1) < 40 * (u + 1)
  {
    var n := |SignMeans(deltas)|;
    l, u := LowerRank(n), UpperRank(n);
    assert l as real <= 0.025 * (n - 1) as real < l as real + 1.0;
    assert u as real <= 0.975 * (n - 1) as real < u as real + 1.0;
    hide SignMeans;
  }

  // ---------------------------------------------------------------- sign blindness

  /** Reversing the sign of every delta leaves the interval as it was. */
  lemma SignsReversed(deltas: seq<real>, flipped: seq<real>)
    requires deltas != [] && |flipped| == |deltas|
    requires forall i :: 0 <= i < |deltas| ==> flipped[i] == -deltas[i]
    ensures SignMeans(flipped) == SignMeans(deltas)
  {
    hide MaskMean, Sorted, Reverse;
    var n, raw, turned := Pow2(|deltas|), AllMeans(deltas), AllMeans(flipped);
    forall k: nat | k < n ensures turned[k] == Reverse(raw)[k] {
      MeanReversed(deltas, flipped, k);
      MaskMeanComplement(deltas, k);
    }
    assert turned == Reverse(raw);
    ReversePermutes(raw);
    SortedPermutation(turned, raw);
  }

  lemma MeanReversed(deltas: seq<real>, flipped: seq<real>, mask: nat)
    requires deltas != [] && |flipped| == |deltas|
    requires forall i :: 0 <= i < |deltas| ==> flipped[i] == -deltas[i]
    ensures MaskMean(flipped, mask) == -MaskMean(deltas, mask)
  {
    SumReversed(deltas, flipped, mask, 0);
  }

  lemma {:induction false} SumReversed(deltas: seq<real>, flipped: seq<real>, mask: nat, i: nat)
    requires |flipped| == |deltas| && i <= |deltas|
    requires forall k :: 0 <= k < |deltas| ==> flipped[k] == -deltas[k]
    ensures SignedSum(flipped, mask, i) == -SignedSum(deltas, mask, i)
    decreases |deltas| - i
  {
    if i < |deltas| { SumReversed(deltas, flipped, mask, i + 1); }
  }

  // ---------------------------------------------------------------- paired deltas

  /** `_paired_delta`; `rate` selects the settled-value-rate outcome. */
  function PairedDelta(adaptive: real, random: real, rate: bool): real
  {
    if !rate then adaptive - random
    else if random == 0.0 then (if adaptive == 0.0 then 0.0 else 1.0)
    else (adaptive - random) / random
  }

  /** The strict zip of the two arms raises when their lengths differ. */
  function Describe(adaptive: seq<real>, random: seq<real>, rate: bool): Option<Report>
  {
    if |adaptive| != |random| then None
    else Uncertainty(seq(|adaptive|, i requires 0 <= i < |adaptive| => PairedDelta(adaptive[i], random[i], rate)))
  }

  /** Exchanging the two arms of a difference outcome negates the mean and keeps the interval. */
  lemma ArmsExchanged(adaptive: seq<real>, random: seq<real>)
    requires |adaptive| == |random| > 0
    ensures var x, y := Describe(adaptive, random, false).value, Describe(random, adaptive, false).value;
      x.mean == -y.mean && x.lower == y.lower && x.upper == y.upper
  {
    hide AllMeans, SignMeans;
    var d := seq(|adaptive|, i requires 0 <= i < |adaptive| => PairedDelta(adaptive[i], random[i], false));
    var e := seq(|random|, i requires 0 <= i < |random| => PairedDelta(random[i], adaptive[i], false));
    SignsReversed(d, e);
    SumNegates(d, e);
    MeanNegates(d, e);
  }

  lemma {:induction false} SumNegates(d: seq<real>, e: seq<real>)
    requires |e| == |d| && forall i :: 0 <= i < |d| ==> e[i] == -d[i]
    ensures Sum(Id(), e) == -Sum(Id(), d)
  {
    if d != [] { SumNegates(d[1..], e[1..]); }
  }

  lemma MeanNegates(d: seq<real>, e: seq<real>)
    requires |d| == |e| > 0 && Sum(Id(), e) == -Sum(Id(), d)
    ensures ObservedMean(e) == -ObservedMean(d)
  {
    QuotientNegates(Sum(Id(), d), |d| as real);
    hide Sum;
  }

  lemma QuotientNegates(a: real, n: real)
    requires n > 0.0
    ensures (-a) / n == -(a / n)
  {
  }

  /** The rate branch: against a positive baseline the delta is the relative gain, -1 exactly when nothing is
      left; against none it is 0 or 1. */
  lemma RateDelta(adaptive: real, random: real)
    ensures var d := PairedDelta(adaptive, random, true);
      && (random != 0.0 ==> d * random == adaptive - random)
      && (random > 0.0 ==> (d > 0.0 <==> adaptive > random) && (d == 0.0 <==> adaptive == random)
                           && (d == -1.0 <==> adaptive == 0.0))
      && (random == 0.0 ==> d == if adaptive == 0.0 then 0.0 else 1.0)
    ensures PairedDelta(adaptive, random, false) == adaptive - random
  {
    if random > 0.0 { QuotientSign(adaptive, random); }
  }

  lemma QuotientSign(a: real, b: real)
    requires b > 0.0
    ensures var d := (a - b) / b; (d > 0.0 <==> a > b) && (d == 0.0 <==> a == b) && (d == -1.0 <==> a == 0.0)
  {
    var d := (a - b) / b;
    assert d * b == a - b;
    if d == -1.0 { assert d * b == -b; }
    if a == 0.0 { assert (d + 1.0) * b == 0.0; }
  }

  /** The reported mean is that of the paired deltas; unpaired lists are refused. */
  lemma DescribedMean(adaptive: seq<real>, random: seq<real>, rate: bool, deltas: seq<real>)
    requires |deltas| == |adaptive| > 0
    requires forall i :: 0 <= i < |adaptive| && i < |random| ==> deltas[i] == PairedDelta(adaptive[i], random[i], rate)
    ensures Describe(adaptive, random, rate).Some? <==> |random| == |adaptive|
    ensures |random| == |adaptive|
      ==> Describe(adaptive, random, rate).value.mean * |adaptive| as real == Sum(Id(), deltas)
  {
    hide SignMeans, Sum, PairedDelta;
    if |random| == |adaptive| {
      assert deltas == seq(|adaptive|, i requires 0 <= i < |adaptive| => PairedDelta(adaptive[i], random[i], rate));
      Mean(Sum(Id(), deltas), |deltas|);
    }
  }

  lemma Mean(x: real, n: nat)
    requires n > 0
    ensures x / n as real * n as real == x
  {
  }
}
