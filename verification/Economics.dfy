/** Economic accounting: which fraud is captured, which escapes, and the totals per stratum. */
module Economics {
  import opened Aggregates
  import Ledger
  import Routing

  datatype Stamp = Stamp(eventId: string, kind: Ledger.Kind, at: real)

  datatype Payment = Payment(id: string, rail: Ledger.Rail, currency: string, amount: real, isFraud: bool,
                             events: seq<Stamp>)

  /** The action decided for each event. */
  type Policy = string -> Routing.Action

  predicate Moves(rail: Ledger.Rail, k: Ledger.Kind)
  {
    match rail
    case Card => k == Ledger.Settlement
    case A2A => k == Ledger.TransferPosted
    case Agentic => k == Ledger.Authorization
  }

  predicate Reverses(k: Ledger.Kind)
  {
    k == Ledger.TransferReturned || k == Ledger.Refund || k == Ledger.Recovery
  }

  predicate Intervenes(policy: Policy, e: Stamp)
  {
    policy(e.eventId) != Routing.Approve
  }

  /** `min(times)`, None when there are none. */
  function Earliest(times: seq<real>): (m: Option<real>)
    ensures m.None? <==> times == []
    ensures m.Some? ==> m.value in times && forall t :: t in times ==> m.value <= t
  {
    if times == [] then None
    else
      var rest := Earliest(times[1..]);
      assert forall t :: t in times <==> t == times[0] || t in times[1..];
      if rest.None? || times[0] < rest.value then Some(times[0]) else rest
  }

  function At(): Stamp -> real { (e: Stamp) => e.at }
  function IsMove(rail: Ledger.Rail): Stamp -> bool { (e: Stamp) => Moves(rail, e.kind) }
  function IsIntervention(policy: Policy): Stamp -> bool { (e: Stamp) => Intervenes(policy, e) }

  function MovementTime(p: Payment): Option<real>
  {
    Earliest(Map(At(), Filter(IsMove(p.rail), p.events)))
  }

  function FirstIntervention(p: Payment, policy: Policy): Option<real>
  {
    Earliest(Map(At(), Filter(IsIntervention(policy), p.events)))
  }

  predicate Moved(p: Payment) { MovementTime(p).Some? }

  predicate Reversed(p: Payment) { exists e :: e in p.events && Reverses(e.kind) }

  predicate Intervened(p: Payment, policy: Policy)
  {
    var first, move := FirstIntervention(p, policy), MovementTime(p);
    first.Some? && (move.None? || first.value <= move.value)
  }

  predicate Captured(p: Payment, policy: Policy)
  {
    p.isFraud && (!Moved(p) || Reversed(p) || Intervened(p, policy))
  }

  predicate Escaped(p: Payment, policy: Policy)
  {
    p.isFraud && Moved(p) && !Captured(p, policy)
  }

  predicate Prevented(p: Payment, policy: Policy)
  {
    p.isFraud && (!Moved(p) || Intervened(p, policy))
  }

  // ---------------------------------------------------------------- what escape means

  lemma TimesOf(s: seq<Stamp>, t: real)
    ensures t in Map(At(), s) <==> exists e :: e in s && e.at == t
  {
    hide Map;
    var m := Map(At(), s);
    if t in m {
      var i :| 0 <= i < |m| && m[i] == t;
      assert s[i] in s;
    }
    if exists e :: e in s && e.at == t {
      var e :| e in s && e.at == t;
      var i :| 0 <= i < |s| && s[i] == e;
      assert m[i] == t;
    }
  }

  lemma EarliestOf(p: Payment, q: Stamp -> bool)
    ensures var m := Earliest(Map(At(), Filter(q, p.events)));
      && (m.Some? <==> exists e :: e in p.events && q(e))
      && (m.Some? ==> (exists e :: e in p.events && q(e) && e.at == m.value)
                      && forall e :: e in p.events && q(e) ==> m.value <= e.at)
  {
    hide Map, Earliest;
    var s := Filter(q, p.events);
    var m := Earliest(Map(At(), s));
    forall t { TimesOf(s, t); }
    if e :| e in p.events && q(e) {
      assert e in s;
      assert e.at in Map(At(), s);
    }
    forall e | m.Some? && e in p.events && q(e) ensures m.value <= e.at {
      assert e in s;
      assert e.at in Map(At(), s);
    }
  }

  /** A fraud payment escapes exactly when it is never returned, refunded or recovered and some settlement, post
      or authorization, as its rail has it, comes strictly before every event that is not approved. */
  lemma EscapedIff(p: Payment, policy: Policy)
    ensures Escaped(p, policy) <==>
      && p.isFraud
      && (forall e :: e in p.events ==>
            e.kind != Ledger.TransferReturned && e.kind != Ledger.Refund && e.kind != Ledger.Recovery)
      && exists m :: m in p.events
           && (match p.rail
               case Card => m.kind == Ledger.Settlement
               case A2A => m.kind == Ledger.TransferPosted
               case Agentic => m.kind == Ledger.Authorization)
           && forall e :: e in p.events && policy(e.eventId) != Routing.Approve ==> m.at < e.at
  {
    EarliestOf(p, IsMove(p.rail));
    EarliestOf(p, IsIntervention(policy));
    hide Map, Filter, Earliest;
    var first, move := FirstIntervention(p, policy), MovementTime(p);
    if Moved(p) {
      var m :| m in p.events && IsMove(p.rail)(m) && m.at == move.value;
      if !Intervened(p, policy) {
        forall e | e in p.events && Intervenes(policy, e) ensures m.at < e.at {
          assert IsIntervention(policy)(e);
        }
      } else {
        var e :| e in p.events && IsIntervention(policy)(e) && e.at == first.value;
        forall n | n in p.events && Moves(p.rail, n.kind) ensures !(n.at < e.at) {
          assert IsMove(p.rail)(n);
        }
      }
    } else {
      forall n | n in p.events ensures !Moves(p.rail, n.kind) {
        assert !IsMove(p.rail)(n);
      }
    }
  }

  /** Every fraud payment is exactly one of captured or escaped, and no other payment is either. */
  lemma CapturedXorEscaped(p: Payment, policy: Policy)
    ensures p.isFraud <==> (Captured(p, policy) || Escaped(p, policy))
    ensures !(Captured(p, policy) && Escaped(p, policy))
    ensures Prevented(p, policy) ==> Captured(p, policy)
  {
    hide MovementTime, Intervened, Reversed;
  }

  /** Prevented is fraud whose value never moved, or was intervened on no later than any of its movements. */
  lemma PreventedIff(p: Payment, policy: Policy)
    ensures Prevented(p, policy) <==>
      && p.isFraud
      && forall m :: m in p.events && Moves(p.rail, m.kind)
           ==> exists e :: e in p.events && policy(e.eventId) != Routing.Approve && e.at <= m.at
  {
    EarliestOf(p, IsMove(p.rail));
    EarliestOf(p, IsIntervention(policy));
    hide Map, Filter, Earliest;
    var first, move := FirstIntervention(p, policy), MovementTime(p);
    if Moved(p) {
      var m :| m in p.events && IsMove(p.rail)(m) && m.at == move.value;
      assert Moves(p.rail, m.kind);
      if Intervened(p, policy) {
        var e :| e in p.events && IsIntervention(policy)(e) && e.at == first.value;
        forall n | n in p.events && Moves(p.rail, n.kind)
          ensures exists d :: d in p.events && policy(d.eventId) != Routing.Approve && d.at <= n.at
        {
          assert IsMove(p.rail)(n) && policy(e.eventId) != Routing.Approve && e.at <= n.at;
        }
      } else {
        forall e | e in p.events && policy(e.eventId) != Routing.Approve ensures e.at > m.at {
          assert IsIntervention(policy)(e);
        }
      }
    } else {
      forall n | n in p.events ensures !Moves(p.rail, n.kind) {
        assert !IsMove(p.rail)(n);
      }
    }
  }

  // ---------------------------------------------------------------- stratum totals

  function Amount(): Payment -> real { (p: Payment) => p.amount }
  function AmountIf(q: Payment -> bool): Payment -> real { Where(q, Amount()) }
  function IsFraud(): Payment -> bool { (p: Payment) => p.isFraud }
  function IsCaptured(policy: Policy): Payment -> bool { (p: Payment) => Captured(p, policy) }
  function IsEscaped(policy: Policy): Payment -> bool { (p: Payment) => Escaped(p, policy) }
  function IsPrevented(policy: Policy): Payment -> bool { (p: Payment) => Prevented(p, policy) }

  /** Captured although the value had moved before any intervention: only the reversal saved it. */
  function IsRecoveredOnly(policy: Policy): Payment -> bool
  {
    (p: Payment) => Captured(p, policy) && !Prevented(p, policy)
  }

  function Malicious(s: seq<Payment>): real { Sum(AmountIf(IsFraud()), s) }
  function CapturedAmount(s: seq<Payment>, policy: Policy): real { Sum(AmountIf(IsCaptured(policy)), s) }
  function EscapedAmount(s: seq<Payment>, policy: Policy): real { Sum(AmountIf(IsEscaped(policy)), s) }
  function PreventedAmount(s: seq<Payment>, policy: Policy): real { Sum(AmountIf(IsPrevented(policy)), s) }
  function RecoveredOnlyAmount(s: seq<Payment>, policy: Policy): real { Sum(AmountIf(IsRecoveredOnly(policy)), s) }

  /** In every stratum malicious = captured + escaped and captured = prevented + recovered only,
      for amounts of any sign. */
  lemma StratumIdentities(s: seq<Payment>, policy: Policy)
    ensures Malicious(s) == CapturedAmount(s, policy) + EscapedAmount(s, policy)
    ensures CapturedAmount(s, policy) == PreventedAmount(s, policy) + RecoveredOnlyAmount(s, policy)
  {
    hide Captured, Escaped, Prevented, Sum;
    forall p: Payment { CapturedXorEscaped(p, policy); }
    SumLinear(1.0, AmountIf(IsCaptured(policy)), 1.0, AmountIf(IsEscaped(policy)), AmountIf(IsFraud()), s);
    SumLinear(1.0, AmountIf(IsPrevented(policy)), 1.0, AmountIf(IsRecoveredOnly(policy)),
      AmountIf(IsCaptured(policy)), s);
  }

  // ---------------------------------------------------------------- amounts of any sign

  /** A stratum of the payments: some of them, each once. */
  ghost predicate Stratum(some: seq<Payment>, all: seq<Payment>)
  {
    && (forall p :: p in some ==> p in all)
    && forall i, j :: 0 <= i < j < |some| ==> some[i] != some[j]
  }

  lemma SingleStratum(p: Payment, all: seq<Payment>)
    requires p in all
    ensures Stratum([p], all)
  {
  }

  lemma AmountOfOne(q: Payment -> bool, p: Payment)
    ensures Sum(AmountIf(q), [p]) == if q(p) then p.amount else 0.0
  {
  }

  /** The payments of a kind amount to something negative in no stratum exactly when none of them has a
      negative amount. */
  lemma NoStratumNegativeIff(q: Payment -> bool, all: seq<Payment>)
    ensures (forall some :: Stratum(some, all) ==> Sum(AmountIf(q), some) >= 0.0)
       <==> forall p :: p in all && q(p) ==> p.amount >= 0.0
  {
    if p :| p in all && q(p) && p.amount < 0.0 {
      hide Sum;
      SingleStratum(p, all);
      AmountOfOne(q, p);
      assert Sum(AmountIf(q), [p]) < 0.0;
    } else {
      hide Sum;
      forall some | Stratum(some, all) ensures Sum(AmountIf(q), some) >= 0.0 {
        var zero := (p: Payment) => 0.0;
        SumConstant(zero, 0.0, some);
        SumMonotone(zero, AmountIf(q), some);
      }
    }
  }

  /** Prevented is at most captured in every stratum exactly when no payment that only its reversal
      saved has a negative amount. */
  lemma PreventedAtMostCapturedIff(all: seq<Payment>, policy: Policy)
    ensures (forall some :: Stratum(some, all) ==> PreventedAmount(some, policy) <= CapturedAmount(some, policy))
       <==> forall p :: p in all && IsRecoveredOnly(policy)(p) ==> p.amount >= 0.0
  {
    hide Sum, Stratum, IsRecoveredOnly;
    NoStratumNegativeIff(IsRecoveredOnly(policy), all);
    forall some ensures PreventedAmount(some, policy) <= CapturedAmount(some, policy)
                   <==> Sum(AmountIf(IsRecoveredOnly(policy)), some) >= 0.0
    {
      StratumIdentities(some, policy);
    }
  }

  /** And captured at most malicious exactly when no payment that escaped has. */
  lemma CapturedAtMostMaliciousIff(all: seq<Payment>, policy: Policy)
    ensures (forall some :: Stratum(some, all) ==> CapturedAmount(some, policy) <= Malicious(some))
       <==> forall p :: p in all && Escaped(p, policy) ==> p.amount >= 0.0
  {
    hide Sum, Stratum, Escaped;
    NoStratumNegativeIff(IsEscaped(policy), all);
    forall some
      ensures CapturedAmount(some, policy) <= Malicious(some) <==> Sum(AmountIf(IsEscaped(policy)), some) >= 0.0
    {
      StratumIdentities(some, policy);
    }
  }

  /** A payment that only its reversal saved: fraud that moved, was reversed, and was not intervened on
      in time. */
  lemma RecoveredOnlyIff(p: Payment, policy: Policy)
    ensures IsRecoveredOnly(policy)(p) <==> p.isFraud && Moved(p) && Reversed(p) && !Intervened(p, policy)
  {
    hide Moved, Reversed, Intervened;
  }

  // ---------------------------------------------------------------- stricter policies

  /** `strict` intervenes wherever `lax` does. */
  ghost predicate Stricter(lax: Policy, strict: Policy)
  {
    forall id :: lax(id) != Routing.Approve ==> strict(id) != Routing.Approve
  }

  lemma StricterCaptures(p: Payment, lax: Policy, strict: Policy)
    requires Stricter(lax, strict) && Captured(p, lax)
    ensures Captured(p, strict)
  {
    EarliestOf(p, IsIntervention(lax));
    EarliestOf(p, IsIntervention(strict));
    hide Map, Filter, Earliest, MovementTime;
    if Intervened(p, lax) {
      var e :| e in p.events && IsIntervention(lax)(e) && e.at == FirstIntervention(p, lax).value;
      assert IsIntervention(strict)(e);
    }
  }

  /** Captured under the stricter policy only. */
  function IsGained(lax: Policy, strict: Policy): Payment -> bool
  {
    (p: Payment) => Captured(p, strict) && !Captured(p, lax)
  }

  function GainedAmount(s: seq<Payment>, lax: Policy, strict: Policy): real { Sum(AmountIf(IsGained(lax, strict)), s) }

  /** A stricter policy moves exactly the gained amount from escaped to captured. */
  lemma GainIsMoved(s: seq<Payment>, lax: Policy, strict: Policy)
    requires Stricter(lax, strict)
    ensures CapturedAmount(s, strict) == CapturedAmount(s, lax) + GainedAmount(s, lax, strict)
    ensures EscapedAmount(s, strict) == EscapedAmount(s, lax) - GainedAmount(s, lax, strict)
  {
    hide Captured, Escaped, Prevented, Sum;
    forall p: Payment | Captured(p, lax) ensures Captured(p, strict) { StricterCaptures(p, lax, strict); }
    SumLinear(1.0, AmountIf(IsCaptured(lax)), 1.0, AmountIf(IsGained(lax, strict)), AmountIf(IsCaptured(strict)), s);
    StratumIdentities(s, lax);
    StratumIdentities(s, strict);
  }

  /** Intervening on more events lowers no stratum's captured amount, and raises no escaped one, exactly
      when no payment gained has a negative amount. */
  lemma StricterCapturesMoreIff(all: seq<Payment>, lax: Policy, strict: Policy)
    requires Stricter(lax, strict)
    ensures (forall some :: Stratum(some, all) ==> CapturedAmount(some, lax) <= CapturedAmount(some, strict))
       <==> forall p :: p in all && IsGained(lax, strict)(p) ==> p.amount >= 0.0
    ensures (forall some :: Stratum(some, all) ==> EscapedAmount(some, strict) <= EscapedAmount(some, lax))
       <==> forall p :: p in all && IsGained(lax, strict)(p) ==> p.amount >= 0.0
  {
    hide Sum, Stratum, IsGained, CapturedAmount, EscapedAmount, Stricter;
    NoStratumNegativeIff(IsGained(lax, strict), all);
    forall some ensures CapturedAmount(some, lax) <= CapturedAmount(some, strict)
                   <==> Sum(AmountIf(IsGained(lax, strict)), some) >= 0.0
      ensures EscapedAmount(some, strict) <= EscapedAmount(some, lax)
          <==> Sum(AmountIf(IsGained(lax, strict)), some) >= 0.0
    {
      GainIsMoved(some, lax, strict);
    }
  }

  // ---------------------------------------------------------------- aggregate fractions

  type Strata = seq<seq<Payment>>

  function Fraction(part: real, whole: real): real { if whole == 0.0 then 0.0 else part / whole }

  function HasMalice(): seq<Payment> -> bool { (s: seq<Payment>) => Malicious(s) > 0.0 }
  function CapturedFraction(policy: Policy): seq<Payment> -> real
  {
    (s: seq<Payment>) => Fraction(CapturedAmount(s, policy), Malicious(s))
  }
  function EscapedFraction(policy: Policy): seq<Payment> -> real
  {
    (s: seq<Payment>) => Fraction(EscapedAmount(s, policy), Malicious(s))
  }

  /** The unweighted mean over the currency strata with malicious value; undefined without any. */
  function MeanOver(f: seq<Payment> -> real, strata: Strata): Option<real>
  {
    var relevant := Filter(HasMalice(), strata);
    if relevant == [] then None else Some(Sum(f, relevant) / |relevant| as real)
  }

  lemma FractionFacts(a: real, b: real, w: real)
    requires w > 0.0
    ensures Fraction(a, w) + Fraction(b, w) == (a + b) / w && w / w == 1.0
    ensures a <= b ==> Fraction(a, w) <= Fraction(b, w)
  {
  }

  lemma MeanFacts(a: real, b: real, n: nat)
    requires n > 0
    ensures a + b == n as real ==> a / n as real + b / n as real == 1.0
    ensures a <= b ==> a / n as real <= b / n as real
  {
    assert a / n as real + b / n as real == (a + b) / n as real;
  }

  /** The captured and the escaped fraction are defined together, and then add up to 1. */
  lemma FractionsAddToOne(strata: Strata, policy: Policy)
    ensures var c, e := MeanOver(CapturedFraction(policy), strata), MeanOver(EscapedFraction(policy), strata);
      c.Some? == e.Some? && (c.Some? ==> c.value + e.value == 1.0)
  {
    hide Sum, Malicious, CapturedAmount, EscapedAmount;
    var relevant := Filter(HasMalice(), strata);
    var one := (s: seq<Payment>) => 1.0;
    forall s | s in relevant ensures one(s) == CapturedFraction(policy)(s) + EscapedFraction(policy)(s) {
      StratumIdentities(s, policy);
      FractionFacts(CapturedAmount(s, policy), EscapedAmount(s, policy), Malicious(s));
    }
    hide Fraction, Filter;
    SumLinear(1.0, CapturedFraction(policy), 1.0, EscapedFraction(policy), one, relevant);
    SumConstant(one, 1.0, relevant);
    if relevant != [] {
      MeanFacts(Sum(CapturedFraction(policy), relevant), Sum(EscapedFraction(policy), relevant), |relevant|);
    }
  }

  function GainedFraction(lax: Policy, strict: Policy): seq<Payment> -> real
  {
    (s: seq<Payment>) => Fraction(GainedAmount(s, lax, strict), Malicious(s))
  }

  /** A stricter policy changes the captured fraction by the mean of the gained ones. */
  lemma FractionGain(strata: Strata, lax: Policy, strict: Policy)
    requires Stricter(lax, strict)
    ensures var a, b := MeanOver(CapturedFraction(lax), strata), MeanOver(CapturedFraction(strict), strata);
      var g := MeanOver(GainedFraction(lax, strict), strata);
      && a.Some? == b.Some? == g.Some?
      && (a.Some? ==>
            b.value == a.value + g.value
            && (g.value >= 0.0 <==> Sum(GainedFraction(lax, strict), Filter(HasMalice(), strata)) >= 0.0))
  {
    hide Sum, Malicious, CapturedAmount, GainedAmount, Stricter;
    var relevant := Filter(HasMalice(), strata);
    forall s | s in relevant
      ensures CapturedFraction(strict)(s) == CapturedFraction(lax)(s) + GainedFraction(lax, strict)(s)
    {
      GainIsMoved(s, lax, strict);
      FractionFacts(CapturedAmount(s, lax), GainedAmount(s, lax, strict), Malicious(s));
    }
    hide Fraction, Filter;
    SumLinear(1.0, CapturedFraction(lax), 1.0, GainedFraction(lax, strict), CapturedFraction(strict), relevant);
    if relevant != [] {
      MeanParts(Sum(CapturedFraction(lax), relevant), Sum(GainedFraction(lax, strict), relevant), |relevant|);
    }
  }

  lemma MeanParts(a: real, g: real, n: nat)
    requires n > 0
    ensures (a + g) / n as real == a / n as real + g / n as real && (g / n as real >= 0.0 <==> g >= 0.0)
  {
  }

  /** All of them strata of the payments. */
  ghost predicate AllStrata(strata: Strata, all: seq<Payment>)
  {
    forall s :: s in strata ==> Stratum(s, all)
  }

  ghost predicate FractionKept(strata: Strata, lax: Policy, strict: Policy)
  {
    var a, b := MeanOver(CapturedFraction(lax), strata), MeanOver(CapturedFraction(strict), strata);
    a.Some? ==> b.Some? && a.value <= b.value
  }

  lemma KeptByStrata(all: seq<Payment>, lax: Policy, strict: Policy)
    requires Stricter(lax, strict)
    ensures (forall strata :: AllStrata(strata, all) ==> FractionKept(strata, lax, strict))
       <==> forall some :: Stratum(some, all) && Malicious(some) > 0.0 ==> GainedAmount(some, lax, strict) >= 0.0
  {
    hide Stricter, Stratum, Malicious, GainedAmount, CapturedFraction, MeanOver, Sum, FractionKept;
    if forall strata :: AllStrata(strata, all) ==> FractionKept(strata, lax, strict) {
      forall some | Stratum(some, all) && Malicious(some) > 0.0 ensures GainedAmount(some, lax, strict) >= 0.0 {
        assert AllStrata([some], all);
        OneStratum(some, lax, strict);
      }
    }
    if forall some :: Stratum(some, all) && Malicious(some) > 0.0 ==> GainedAmount(some, lax, strict) >= 0.0 {
      forall strata | AllStrata(strata, all) ensures FractionKept(strata, lax, strict) {
        GainsKeep(strata, lax, strict);
      }
    }
  }

  lemma OneStratum(some: seq<Payment>, lax: Policy, strict: Policy)
    requires Stricter(lax, strict) && Malicious(some) > 0.0 && FractionKept([some], lax, strict)
    ensures GainedAmount(some, lax, strict) >= 0.0
  {
    FractionGain([some], lax, strict);
    hide Malicious, GainedAmount, CapturedAmount, Stricter;
    assert Filter(HasMalice(), [some]) == [some];
    assert Sum(GainedFraction(lax, strict), [some]) == GainedFraction(lax, strict)(some);
    hide Sum, Filter;
    Quotient(GainedAmount(some, lax, strict), Malicious(some));
  }

  lemma Quotient(g: real, w: real)
    requires w > 0.0
    ensures Fraction(g, w) >= 0.0 <==> g >= 0.0
  {
  }

  lemma GainsKeep(strata: Strata, lax: Policy, strict: Policy)
    requires Stricter(lax, strict)
    requires forall s :: s in strata && Malicious(s) > 0.0 ==> GainedAmount(s, lax, strict) >= 0.0
    ensures FractionKept(strata, lax, strict)
  {
    hide Malicious, GainedAmount, CapturedAmount, Stricter, Sum;
    var relevant, zero := Filter(HasMalice(), strata), (s: seq<Payment>) => 0.0;
    forall s | s in relevant ensures GainedFraction(lax, strict)(s) >= 0.0 {
      Quotient(GainedAmount(s, lax, strict), Malicious(s));
    }
    SumConstant(zero, 0.0, relevant);
    SumMonotone(zero, GainedFraction(lax, strict), relevant);
    FractionGain(strata, lax, strict);
  }

  /** In particular not when no payment gained has a negative amount. */
  lemma StricterRaisesFraction(strata: Strata, lax: Policy, strict: Policy)
    requires Stricter(lax, strict)
    requires forall s, p :: s in strata && p in s && IsGained(lax, strict)(p) ==> p.amount >= 0.0
    ensures FractionKept(strata, lax, strict)
  {
    hide Stricter, IsGained, Malicious, FractionKept, Sum;
    forall s | s in strata ensures GainedAmount(s, lax, strict) >= 0.0 {
      var zero := (p: Payment) => 0.0;
      SumConstant(zero, 0.0, s);
      SumMonotone(zero, AmountIf(IsGained(lax, strict)), s);
    }
    GainsKeep(strata, lax, strict);
  }

  // What the gained payments can do to a fraction depends on how much other malicious value there is.

  ghost predicate NoRepeats(all: seq<Payment>)
  {
    forall i, j :: 0 <= i < j < |all| ==> all[i] != all[j]
  }

  /** Fraud of a positive amount that is not gained. */
  function IsCushion(lax: Policy, strict: Policy): Payment -> bool
  {
    (p: Payment) => p.isFraud && !IsGained(lax, strict)(p) && p.amount > 0.0
  }

  /** The most malicious value that can stand beside the gained payments. */
  function Cushion(all: seq<Payment>, lax: Policy, strict: Policy): real { Sum(AmountIf(IsCushion(lax, strict)), all) }

  /** Some of the gained payments, each once. */
  ghost predicate GainedGroup(group: seq<Payment>, all: seq<Payment>, lax: Policy, strict: Policy)
  {
    Stratum(group, all) && forall p :: p in group ==> IsGained(lax, strict)(p)
  }

  /** A stricter policy lowers the captured fraction over no list of strata exactly when no group of
      gained payments has a total that is negative, but less so than the cushion is large. */
  lemma StricterRaisesFractionIff(all: seq<Payment>, lax: Policy, strict: Policy)
    requires Stricter(lax, strict) && NoRepeats(all)
    ensures (forall strata :: AllStrata(strata, all) ==> FractionKept(strata, lax, strict))
       <==> forall group :: GainedGroup(group, all, lax, strict)
                            ==> !(-Cushion(all, lax, strict) < Sum(Amount(), group) < 0.0)
  {
    KeptByStrata(all, lax, strict);
    hide Stricter, Stratum, Malicious, GainedAmount, FractionKept, AllStrata, Sum, Cushion, GainedGroup;
    if forall some :: Stratum(some, all) && Malicious(some) > 0.0 ==> GainedAmount(some, lax, strict) >= 0.0 {
      forall group | GainedGroup(group, all, lax, strict)
        ensures !(-Cushion(all, lax, strict) < Sum(Amount(), group) < 0.0)
      {
        var some := Cushioned(group, all, lax, strict);
      }
    } else {
      var some :| Stratum(some, all) && Malicious(some) > 0.0 && GainedAmount(some, lax, strict) < 0.0;
      var group := GainedOf(some, all, lax, strict);
    }
  }

  /** The group beside the whole cushion is a stratum. */
  lemma Cushioned(group: seq<Payment>, all: seq<Payment>, lax: Policy, strict: Policy) returns (some: seq<Payment>)
    requires NoRepeats(all) && GainedGroup(group, all, lax, strict)
    ensures Stratum(some, all) && GainedAmount(some, lax, strict) == Sum(Amount(), group)
    ensures Malicious(some) == Sum(Amount(), group) + Cushion(all, lax, strict)
  {
    hide Sum, Captured, IsGained;
    var q := IsCushion(lax, strict);
    var rest := Filter(q, all);
    some := group + rest;
    FilterDistinct(q, all);
    StrataTogether(group, rest, all);
    GainedIsFraud(lax, strict);
    SumAppend(AmountIf(IsGained(lax, strict)), group, rest);
    SumAppend(AmountIf(IsFraud()), group, rest);
    SumCongruent(AmountIf(IsGained(lax, strict)), Amount(), group);
    SumCongruent(AmountIf(IsFraud()), Amount(), group);
    SumConstant(AmountIf(IsGained(lax, strict)), 0.0, rest);
    SumCongruent(AmountIf(IsFraud()), Amount(), rest);
    SumFilter(q, Amount(), all);
  }

  lemma StrataTogether(a: seq<Payment>, b: seq<Payment>, all: seq<Payment>)
    requires Stratum(a, all) && Stratum(b, all) && forall p :: p in a ==> p !in b
    ensures Stratum(a + b, all)
  {
    var both := a + b;
    forall i, j | 0 <= i < j < |both| ensures both[i] != both[j] {
      if i < |a| <= j { assert both[i] in a && both[j] in b; }
    }
  }

  lemma GainedIsFraud(lax: Policy, strict: Policy)
    ensures forall p :: IsGained(lax, strict)(p) ==> p.isFraud
  {
    hide Moved, Reversed, Intervened;
  }

  lemma {:induction false} FilterDistinct(q: Payment -> bool, s: seq<Payment>)
    requires NoRepeats(s)
    ensures NoRepeats(Filter(q, s))
  {
    if s != [] {
      FilterDistinct(q, s[1..]);
      assert s[0] !in s[1..];
      assert forall p :: p in Filter(q, s[1..]) ==> p in s[1..];
    }
  }

  /** The gained payments of a stratum make a group, and its other malicious value is within the cushion. */
  lemma GainedOf(some: seq<Payment>, all: seq<Payment>, lax: Policy, strict: Policy) returns (group: seq<Payment>)
    requires Stratum(some, all)
    ensures GainedGroup(group, all, lax, strict) && Sum(Amount(), group) == GainedAmount(some, lax, strict)
    ensures Malicious(some) <= Sum(Amount(), group) + Cushion(all, lax, strict)
  {
    hide Sum, Captured, IsGained;
    var g, c := IsGained(lax, strict), AmountIf(IsCushion(lax, strict));
    group := Filter(g, some);
    FilterDistinct(g, some);
    SumFilter(g, Amount(), some);
    GainedIsFraud(lax, strict);
    var both := (p: Payment) => 1.0 * AmountIf(g)(p) + 1.0 * c(p);
    SumMonotone(AmountIf(IsFraud()), both, some);
    SumLinear(1.0, AmountIf(g), 1.0, c, both, some);
    SubSum(c, some, all);
  }

  /** Elements taken once each from a list add up to no more than the list, when no term is negative. */
  lemma {:induction false} SubSum(f: Payment -> real, some: seq<Payment>, all: seq<Payment>)
    requires Stratum(some, all) && forall p: Payment :: f(p) >= 0.0
    ensures Sum(f, some) <= Sum(f, all)
  {
    if some == [] {
      var zero := (p: Payment) => 0.0;
      SumConstant(zero, 0.0, all);
      SumMonotone(zero, f, all);
    } else {
      assert some[0] in all;
      var i :| 0 <= i < |all| && all[i] == some[0];
      var others := all[..i] + all[i + 1..];
      forall p | p in some[1..] ensures p in others {
        assert p in some && p != some[0];
        var j :| 0 <= j < |all| && all[j] == p;
        assert others[if j < i then j else j - 1] == p;
      }
      SubSum(f, some[1..], others);
      SumRemove(f, all, i);
    }
  }

  /** It does fail: a gained negative amount beside a larger fraud that is not gained lowers it. */
  lemma NegativeGainLowers(p: Payment, q: Payment, lax: Policy, strict: Policy)
    requires Stricter(lax, strict) && IsGained(lax, strict)(p) && p.amount < 0.0
    requires q.isFraud && !IsGained(lax, strict)(q) && p.amount + q.amount > 0.0
    ensures !FractionKept([[p, q]], lax, strict)
  {
    AmountOfTwo(IsGained(lax, strict), p, q);
    AmountOfTwo(IsFraud(), p, q);
    hide Sum, Stricter, FractionKept;
    if FractionKept([[p, q]], lax, strict) { OneStratum([p, q], lax, strict); }
  }

  lemma AmountOfTwo(f: Payment -> bool, p: Payment, q: Payment)
    ensures Sum(AmountIf(f), [p, q]) == (if f(p) then p.amount else 0.0) + (if f(q) then q.amount else 0.0)
  {
    assert [p, q][1..] == [q];
    AmountOfOne(f, q);
  }

  /** A stratum without malicious value changes no mean; one with it counts as much as every other, with the
      part of its malicious value that is captured. */
  lemma OneMoreStratum(strata: Strata, s: seq<Payment>, policy: Policy)
    ensures var f := CapturedFraction(policy);
      var n, a, b := |Filter(HasMalice(), strata)|, MeanOver(f, strata), MeanOver(f, strata + [s]);
      && (Malicious(s) <= 0.0 ==> a == b)
      && (Malicious(s) > 0.0 ==>
            && f(s) * Malicious(s) == CapturedAmount(s, policy)
            && b.Some? && b.value * (n + 1) as real == f(s) + if n == 0 then 0.0 else a.value * n as real)
  {
    var f, before := CapturedFraction(policy), Filter(HasMalice(), strata);
    FilterSnoc(HasMalice(), strata, s);
    hide Filter, Malicious, CapturedAmount;
    if Malicious(s) > 0.0 {
      SumAppend(f, before, [s]);
      SingleSum(f, s);
      Whole(CapturedAmount(s, policy), Malicious(s));
      Whole(Sum(f, before + [s]), (|before| + 1) as real);
      if before != [] { Whole(Sum(f, before), |before| as real); }
      if before == [] { assert Sum(f, before) == 0.0; }
      hide CapturedFraction, Sum;
    }
  }

  lemma SingleSum(f: seq<Payment> -> real, s: seq<Payment>)
    ensures Sum(f, [s]) == f(s)
  {
  }

  lemma Whole(a: real, w: real)
    requires w != 0.0
    ensures Fraction(a, w) * w == a / w * w == a
  {
  }

  /** What one more payment adds to a stratum. */
  lemma OneMorePayment(s: seq<Payment>, p: Payment, policy: Policy)
    ensures Malicious(s + [p]) == Malicious(s) + if p.isFraud then p.amount else 0.0
    ensures EscapedAmount(s + [p], policy) == EscapedAmount(s, policy) + if Escaped(p, policy) then p.amount else 0.0
    ensures PreventedAmount(s + [p], policy)
         == PreventedAmount(s, policy) + if Prevented(p, policy) then p.amount else 0.0
  {
    SumAppend(AmountIf(IsFraud()), s, [p]);
    SumAppend(AmountIf(IsEscaped(policy)), s, [p]);
    SumAppend(AmountIf(IsPrevented(policy)), s, [p]);
    hide Sum, Escaped, Prevented;
    AmountOfOne(IsFraud(), p);
    AmountOfOne(IsEscaped(policy), p);
    AmountOfOne(IsPrevented(policy), p);
  }

  // ---------------------------------------------------------------- ledger totals

  function DebitIn(currency: string): Ledger.Posting -> real
  {
    (p: Ledger.Posting) => if p.currency == currency then Sum(Ledger.LineAmount(), p.debit) else 0.0
  }

  function CreditIn(currency: string): Ledger.Posting -> real
  {
    (p: Ledger.Posting) => if p.currency == currency then Sum(Ledger.LineAmount(), p.credit) else 0.0
  }

  /** What a defaultdict(Decimal) holds: a total for each currency seen. */
  ghost predicate Totals(m: map<string, real>, f: string -> (Ledger.Posting -> real), postings: seq<Ledger.Posting>)
  {
    && (forall c :: c in m <==> exists p :: p in postings && p.currency == c)
    && (forall c :: c in m ==> m[c] == Sum(f(c), postings))
  }

  function Debits(): string -> (Ledger.Posting -> real) { (c: string) => DebitIn(c) }
  function Credits(): string -> (Ledger.Posting -> real) { (c: string) => CreditIn(c) }

  method Accumulate(m: map<string, real>, ghost f: string -> (Ledger.Posting -> real), ghost done: seq<Ledger.Posting>,
                    p: Ledger.Posting, amount: real)
    returns (r: map<string, real>)
    requires Totals(m, f, done) && (forall c: string, q: Ledger.Posting :: q.currency != c ==> f(c)(q) == 0.0)
        && amount == f(p.currency)(p)
    ensures Totals(r, f, done + [p])
  {
    r := m[p.currency := (if p.currency in m then m[p.currency] else 0.0) + amount];
    hide Totals, Sum;
    TotalsSnoc(m, f, done, p);
  }

  lemma TotalsSnoc(m: map<string, real>, f: string -> (Ledger.Posting -> real), done: seq<Ledger.Posting>,
                   p: Ledger.Posting)
    requires Totals(m, f, done) && forall c: string, q: Ledger.Posting :: q.currency != c ==> f(c)(q) == 0.0
    ensures Totals(m[p.currency := (if p.currency in m then m[p.currency] else 0.0) + f(p.currency)(p)], f, done + [p])
  {
    hide Sum;
    forall c ensures Sum(f(c), done + [p]) == Sum(f(c), done) + f(c)(p) {
      SumAppend(f(c), done, [p]);
      SumOne(f(c), p);
    }
    if p.currency !in m {
      SumConstant(f(p.currency), 0.0, done);
    }
    forall c ensures (exists q :: q in done + [p] && q.currency == c) <==> c == p.currency || c in m {
      if exists q :: q in done && q.currency == c {
        var q :| q in done && q.currency == c;
        assert q in done + [p];
      }
      assert p in done + [p];
    }
  }

  lemma SumOne(f: Ledger.Posting -> real, p: Ledger.Posting)
    ensures Sum(f, [p]) == f(p)
  {
  }

  /** The two running totals of `_verify_economics`. */
  method LedgerTotals(postings: seq<Ledger.Posting>) returns (debit: map<string, real>, credit: map<string, real>)
    ensures Totals(debit, Debits(), postings) && Totals(credit, Credits(), postings)
  {
    debit, credit := map[], map[];
    assert Totals(debit, Debits(), postings[..0]) && Totals(credit, Credits(), postings[..0]);
    hide Totals, Sum;
    for i := 0 to |postings|
      invariant Totals(debit, Debits(), postings[..i]) && Totals(credit, Credits(), postings[..i])
    {
      var p := postings[i];
      debit := Accumulate(debit, Debits(), postings[..i], p, Sum(Ledger.LineAmount(), p.debit));
      credit := Accumulate(credit, Credits(), postings[..i], p, Sum(Ledger.LineAmount(), p.credit));
      assert postings[..i + 1] == postings[..i] + [p];
    }
    assert postings[..|postings|] == postings;
  }

  /** Over the postings of accepted manifests the conservation check on the totals cannot fail. */
  lemma TotalsConserve(postings: seq<Ledger.Posting>, debit: map<string, real>, credit: map<string, real>)
    requires forall p :: p in postings ==> Ledger.Conserves(p)
    requires Totals(debit, Debits(), postings) && Totals(credit, Credits(), postings)
    ensures debit == credit
  {
    forall c ensures Sum(DebitIn(c), postings) == Sum(CreditIn(c), postings) {
      hide Sum;
      SumCongruent(DebitIn(c), CreditIn(c), postings);
    }
  }
}
