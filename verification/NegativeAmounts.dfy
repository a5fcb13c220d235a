/** Accepted manifests whose payment has any amount one likes, a negative one included. */
module NegativeAmounts {
  import opened Aggregates
  import opened Ledger
  import opened Lifecycles
  import opened Scripts
  import PaymentGroups
  import Economics
  import Routing

  /** Authorised, settled and refunded under one opening. */
  function Refunded(s: Opening): seq<Step>
  {
    [Step(CardAuthorize, Authorization, s), Step(CardSettle, Settlement, s), Step(CardRefund, Refund, s)]
  }

  /** Authorised and settled. */
  function Kept(s: Opening): seq<Step>
  {
    [Step(CardAuthorize, Authorization, s), Step(CardSettle, Settlement, s)]
  }

  lemma SplitConserves(s: Opening)
    requires s.payee != s.feeAccount
    ensures Conserving(Card, Moved(s, Settlement)) && Conserving(Card, Moved(s, Refund))
  {
    OneSum(s.hold, s.amount, LineAmount());
    OneSum(s.payer, s.amount, LineAmount());
    TwoSum(s.payee, s.amount - s.fee, s.feeAccount, s.fee, LineAmount());
    hide Sum, One, Two;
  }

  /** The payment that the accounting makes of a script. */
  function Accounted(r: PaymentGroups.Readings, steps: seq<Step>): Economics.Payment
    requires steps != []
  {
    var s := steps[0].opening;
    Economics.Payment("p", Card, s.currency, s.amount, r.isFraud(Id(0)),
                      seq(|steps|, i requires 0 <= i < |steps| =>
                        Economics.Stamp(Id(i), steps[i].kind, r.decidedAt(Id(i)))))
  }

  lemma {:induction false} AllOfOne(m: Manifest, n: nat)
    requires n <= |m.lineage| == |m.records| && forall i :: 0 <= i < n ==> m.lineage[i].payment == "p"
    ensures PaymentGroups.PaidIn("p", PaymentGroups.FactsOf(m, 0, n)) == PaymentGroups.FactsOf(m, 0, n)
  {
    if n > 0 {
      AllOfOne(m, n - 1);
      PaymentGroups.PaidSnoc("p", PaymentGroups.FactsOf(m, 0, n - 1),
        PaymentGroups.Fact(0, m.lineage[n - 1], m.records[n - 1]));
    }
  }

  /** The only manifest's group is its list of events. Proved without automatic induction, like AllOfOne. */
  lemma {:induction false} GroupOfOne(m: Manifest)
    requires |m.lineage| == |m.records| && forall i :: 0 <= i < |m.lineage| ==> m.lineage[i].payment == "p"
    ensures PaymentGroups.Group([m], "p") == PaymentGroups.FactsOf(m, 0, |m.lineage|)
  {
    AllOfOne(m, |m.lineage|);
    var none, all := PaymentGroups.Facts([m], 0), PaymentGroups.FactsOf(m, 0, |m.lineage|);
    assert PaymentGroups.Facts([m], 1) == none + all && none == [];
    assert none + all == all;
    hide PaymentGroups.FactsOf, PaymentGroups.PaidIn;
  }

  lemma FactIs(r: PaymentGroups.Readings, steps: seq<Step>, i: nat)
    requires i < |steps|
    ensures var m := Play(Card, steps);
      var f := PaymentGroups.FactsOf(m, 0, |steps|)[i];
      && f.source == 0 && f.record.amount == steps[i].opening.amount && f.record.currency == steps[i].opening.currency
      && f.link.eventId == Id(i)
      && PaymentGroups.StampOf(r)(f) == Economics.Stamp(Id(i), steps[i].kind, r.decidedAt(Id(i)))
  {
    hide PostingsOf, PaymentGroups.FactsOf, Map, Id;
  }

  lemma PaymentOfScript(r: PaymentGroups.Readings, steps: seq<Step>)
    requires steps != []
    ensures var m := Play(Card, steps);
      var group := PaymentGroups.FactsOf(m, 0, |steps|);
      group != [] && group[0].source == 0 && PaymentGroups.PaymentOf(r, [m], "p", group) == Accounted(r, steps)
  {
    hide Play, PaymentGroups.FactsOf, Map, Id, PaymentGroups.StampOf;
    var group := PaymentGroups.FactsOf(Play(Card, steps), 0, |steps|);
    FactIs(r, steps, 0);
    forall i | 0 <= i < |steps| ensures PaymentGroups.StampOf(r)(group[i]) == Accounted(r, steps).events[i] {
      FactIs(r, steps, i);
    }
    assert Map(PaymentGroups.StampOf(r), group) == Accounted(r, steps).events;
  }

  /** A playable script makes an accepted manifest that the accounting turns into that payment. */
  lemma ScriptIsAccounted(r: PaymentGroups.Readings, steps: seq<Step>)
    requires Playable(Card, steps)
    ensures PaymentGroups.AllAccepted([Play(Card, steps)])
    ensures PaymentGroups.IsPayment(r, [Play(Card, steps)], Accounted(r, steps))
  {
    PlayIsAccepted(Card, steps);
    PaymentOfScript(r, steps);
    GroupOfOne(Play(Card, steps));
    hide Playable, Accepted, Play, PaymentGroups.Group, PaymentGroups.FactsOf, PaymentGroups.PaymentOf;
  }

  lemma ThreeEvents(r: PaymentGroups.Readings, s: Opening)
    requires s.payee != s.feeAccount
    ensures Playable(Card, Refunded(s)) && Playable(Card, Kept(s))
  {
    HoldConserves(s);
    SplitConserves(s);
    hide Conserving;
  }

  /** Whatever the amount, an accepted manifest has a fraud payment of that amount that only its reversal
      saved, when no event of it is intervened on. */
  lemma RecoveredOnlyOccurs(r: PaymentGroups.Readings, s: Opening, policy: Economics.Policy)
    requires s.payee != s.feeAccount && r.isFraud(Id(0)) && forall e :: policy(e) == Routing.Approve
    ensures var m, p := Play(Card, Refunded(s)), Accounted(r, Refunded(s));
      && PaymentGroups.AllAccepted([m]) && PaymentGroups.IsPayment(r, [m], p)
      && p.amount == s.amount && Economics.IsRecoveredOnly(policy)(p)
  {
    ThreeEvents(r, s);
    ScriptIsAccounted(r, Refunded(s));
    var p := Accounted(r, Refunded(s));
    assert p.events[1] in p.events && p.events[2] in p.events;
    hide Playable, Play, PaymentGroups.AllAccepted, PaymentGroups.IsPayment, Id, Economics.IsRecoveredOnly;
    SavedByReversal(p, policy, p.events[1], p.events[2]);
  }

  lemma SavedByReversal(p: Economics.Payment, policy: Economics.Policy, move: Economics.Stamp, back: Economics.Stamp)
    requires p.isFraud && forall e :: policy(e) == Routing.Approve
    requires move in p.events && Economics.Moves(p.rail, move.kind) && back in p.events && Economics.Reverses(back.kind)
    ensures Economics.IsRecoveredOnly(policy)(p)
  {
    Economics.EarliestOf(p, Economics.IsMove(p.rail));
    Economics.EarliestOf(p, Economics.IsIntervention(policy));
    assert Economics.IsMove(p.rail)(move);
    hide Map, Filter, Economics.Earliest;
  }

  lemma SavedByIntervention(p: Economics.Payment, lax: Economics.Policy, strict: Economics.Policy,
                            first: Economics.Stamp, move: Economics.Stamp)
    requires p.isFraud && (forall e :: lax(e) == Routing.Approve) && forall e :: strict(e) == Routing.Challenge
    requires first in p.events && move in p.events && first.at <= move.at && Economics.Moves(p.rail, move.kind)
    requires forall e :: e in p.events ==>
        !Economics.Reverses(e.kind) && (Economics.Moves(p.rail, e.kind) ==> e == move)
    ensures Economics.IsGained(lax, strict)(p)
  {
    hide Economics.Escaped, Economics.Captured;
    Economics.EscapedIff(p, lax);
    Economics.EscapedIff(p, strict);
    assert Economics.Intervenes(strict, first);
    Economics.CapturedXorEscaped(p, lax);
    Economics.CapturedXorEscaped(p, strict);
  }

  /** And one that is gained by intervening on its events. */
  lemma GainedOccurs(r: PaymentGroups.Readings, s: Opening, lax: Economics.Policy, strict: Economics.Policy)
    requires s.payee != s.feeAccount && r.isFraud(Id(0)) && r.decidedAt(Id(0)) <= r.decidedAt(Id(1))
    requires (forall e :: lax(e) == Routing.Approve) && forall e :: strict(e) == Routing.Challenge
    ensures var m, p := Play(Card, Kept(s)), Accounted(r, Kept(s));
      && PaymentGroups.AllAccepted([m]) && PaymentGroups.IsPayment(r, [m], p)
      && p.amount == s.amount && Economics.Stricter(lax, strict) && Economics.IsGained(lax, strict)(p)
  {
    ThreeEvents(r, s);
    ScriptIsAccounted(r, Kept(s));
    var p := Accounted(r, Kept(s));
    assert p.events[0] in p.events && p.events[1] in p.events;
    hide Playable, Play, PaymentGroups.AllAccepted, PaymentGroups.IsPayment, Id, Economics.IsGained;
    SavedByIntervention(p, lax, strict, p.events[0], p.events[1]);
  }
}
