/** What the lifecycle of one payment leaves on the accounts, wherever its events are interleaved
    and however often it is opened again. */
module Lifecycles {
  import opened Aggregates
  import opened Ledger

  /** An event that moves value, with the opening in force at it. */
  datatype Moved = Moved(opening: Opening, kind: Kind)

  /** The moves of payment p among the first n events, in order. */
  function Moves(m: Manifest, n: nat, p: string): seq<Moved>
    requires n <= |m.lineage| == |m.records|
  {
    if n == 0 then [] else Moves(m, n - 1, p) + MoveAt(m, n - 1, p)
  }

  function MoveAt(m: Manifest, i: nat, p: string): seq<Moved>
    requires i < |m.lineage| == |m.records|
  {
    var opening, kind := LastOpening(m.lineage, i + 1, p), m.records[i].kind;
    if m.lineage[i].payment == p && opening.Some? && Movement(m.rail, kind, opening.value).Some?
    then [Moved(opening.value, kind)] else []
  }

  /** What a move does to an account in a currency: credits less debits. */
  function Effect(rail: Rail, account: string, currency: string): Moved -> real
  {
    (v: Moved) =>
      var m := Movement(rail, v.kind, v.opening);
      if m.Some? && v.opening.currency == currency
      then Sum(On(account), m.value.credit) - Sum(On(account), m.value.debit) else 0.0
  }

  lemma ExpectedEffect(id: string, rail: Rail, v: Moved, account: string, currency: string)
    ensures Balance(Expected(id, rail, v.kind, v.opening), account, currency) == Effect(rail, account, currency)(v)
  {
    var f, e := Change(account, currency), Expected(id, rail, v.kind, v.opening);
    if Movement(rail, v.kind, v.opening).Some? {
      assert Sum(f, e) == f(e[0]) + Sum(f, e[1..]);
      assert e[1..] == [];
    }
    hide Movement, On;
  }

  lemma ImpliedEffect(m: Manifest, i: nat, p: string, account: string, currency: string)
    requires i < |m.lineage| == |m.records| && m.lineage[i].payment == p
    ensures Balance(Implied(m, i), account, currency) == Sum(Effect(m.rail, account, currency), MoveAt(m, i, p))
  {
    var opening, f := LastOpening(m.lineage, i + 1, p), Effect(m.rail, account, currency);
    if opening.Some? {
      var v := Moved(opening.value, m.records[i].kind);
      ExpectedEffect(m.records[i].eventId, m.rail, v, account, currency);
      assert Sum(f, [v]) == f(v);
    }
    hide LastOpening, Expected, Movement, On;
  }

  /** The balances a payment leaves are the effects of its moves, whatever its openings. */
  lemma {:induction false} PaymentEffect(m: Manifest, n: nat, p: string, account: string, currency: string)
    requires n <= |m.lineage| == |m.records|
    ensures Balance(PostingsOf(m, n, Only(p)), account, currency)
        == Sum(Effect(m.rail, account, currency), Moves(m, n, p))
  {
    hide Balance, Implied, Effect, Sum, MoveAt;
    SumConstant(Effect(m.rail, account, currency), 0.0, []);
    if n == 0 {
      NoBalance(m, Only(p), account, currency);
      return;
    }
    PaymentEffect(m, n - 1, p, account, currency);
    BalanceSnoc(m, n, Only(p), account, currency);
    hide PostingsOf;
    if m.lineage[n - 1].payment == p {
      ImpliedEffect(m, n - 1, p, account, currency);
    } else {
      NoMoveAt(m, n - 1, p);
    }
    SumAppend(Effect(m.rail, account, currency), Moves(m, n - 1, p), MoveAt(m, n - 1, p));
  }

  lemma NoMoveAt(m: Manifest, i: nat, p: string)
    requires i < |m.lineage| == |m.records| && m.lineage[i].payment != p
    ensures MoveAt(m, i, p) == []
  {
  }

  // ---------------------------------------------------------------- conservation of every move

  predicate Conserving(rail: Rail, v: Moved)
  {
    var m := Movement(rail, v.kind, v.opening);
    m.Some? && Sum(LineAmount(), m.value.debit) == Sum(LineAmount(), m.value.credit)
  }

  lemma {:induction false} ImpliedListed(m: Manifest, n: nat, i: nat, posting: Posting)
    requires i < n <= |m.lineage| == |m.records| && posting in Implied(m, i)
    ensures posting in PostingsOf(m, n, Everyone())
  {
    hide Implied;
    if i < n - 1 { ImpliedListed(m, n - 1, i, posting); }
  }

  lemma MoveAtConserves(m: Manifest, i: nat, p: string, v: Moved)
    requires Accepted(m) && i < |m.lineage| && v in MoveAt(m, i, p)
    ensures Conserving(m.rail, v)
  {
    hide Movement, CardMovement, TransferMovement, AgenticMovement, Sum, PostingsOf, Positions, LastOpening, EventOk;
    var posting := Expected(m.records[i].eventId, m.rail, v.kind, v.opening)[0];
    assert posting in Implied(m, i);
    ImpliedListed(m, |m.lineage|, i, posting);
    assert Conserves(posting);
  }

  /** The conservation check reaches every move of every payment of an accepted manifest. */
  lemma {:induction false} MovesConserve(m: Manifest, n: nat, p: string)
    requires Accepted(m) && n <= |m.lineage|
    ensures forall v :: v in Moves(m, n, p) ==> Conserving(m.rail, v)
  {
    if n > 0 {
      MovesConserve(m, n - 1, p);
      hide Accepted, MoveAt, Conserving, Movement;
      forall v | v in MoveAt(m, n - 1, p) ensures Conserving(m.rail, v) { MoveAtConserves(m, n - 1, p, v); }
    }
  }

  // ---------------------------------------------------------------- tallies

  /** A signed amount on an account. */
  datatype Leg = Leg(account: string, currency: string, amount: real)

  type Tallied = map<(string, string), real>

  function LegAt(account: string, currency: string): Leg -> real
  {
    (l: Leg) => if l.account == account && l.currency == currency then l.amount else 0.0
  }

  function AddLeg(t: Tallied, l: Leg): Tallied
  {
    var k := (l.account, l.currency);
    var v := (if k in t then t[k] else 0.0) + l.amount;
    if v == 0.0 then t - {k} else t[k := v]
  }

  /** The legs netted account by account and currency by currency, with what nets to zero left out. */
  function Tally(legs: seq<Leg>): Tallied
  {
    if legs == [] then map[] else AddLeg(Tally(legs[1..]), legs[0])
  }

  lemma {:induction false} TallyAt(legs: seq<Leg>, account: string, currency: string)
    ensures var t, k := Tally(legs), (account, currency);
      Sum(LegAt(account, currency), legs) == if k in t then t[k] else 0.0
    ensures (account, currency) in Tally(legs) ==> Tally(legs)[(account, currency)] != 0.0
  {
    if legs != [] { TallyAt(legs[1..], account, currency); }
  }

  /** Legs tally alike exactly when they amount to the same on every account in every currency. */
  lemma TallyIff(a: seq<Leg>, b: seq<Leg>)
    ensures Tally(a) == Tally(b)
       <==> forall account, currency :: Sum(LegAt(account, currency), a) == Sum(LegAt(account, currency), b)
  {
    hide Tally, Sum;
    if Tally(a) == Tally(b) {
      forall account, currency ensures Sum(LegAt(account, currency), a) == Sum(LegAt(account, currency), b) {
        TallyAt(a, account, currency);
        TallyAt(b, account, currency);
      }
    }
    if forall account, currency :: Sum(LegAt(account, currency), a) == Sum(LegAt(account, currency), b) {
      forall k: (string, string) ensures k in Tally(a) <==> k in Tally(b)
        ensures k in Tally(a) && k in Tally(b) ==> Tally(a)[k] == Tally(b)[k]
      {
        TallyAt(a, k.0, k.1);
        TallyAt(b, k.0, k.1);
        assert Sum(LegAt(k.0, k.1), a) == Sum(LegAt(k.0, k.1), b);
        assert k == (k.0, k.1);
      }
      assert Tally(a).Keys == Tally(b).Keys;
    }
  }

  function Negate(): Leg -> Leg { (l: Leg) => l.(amount := -l.amount) }

  lemma {:induction false} NegatedSum(legs: seq<Leg>, account: string, currency: string)
    ensures Sum(LegAt(account, currency), Map(Negate(), legs)) == -Sum(LegAt(account, currency), legs)
  {
    if legs != [] {
      NegatedSum(legs[1..], account, currency);
      assert Map(Negate(), legs) == [Negate()(legs[0])] + Map(Negate(), legs[1..]);
    }
  }

  // ---------------------------------------------------------------- outstanding value

  /** Where the value of a payment stands between two moves. */
  datatype Standing = Clear | Held | Settled | ChargedBack | Posted | Frozen | Paid

  function Before(rail: Rail, k: Kind): Standing
  {
    match rail
    case Card => (match k case Reversal => Held case Settlement => Held case Refund => Settled
                          case Chargeback => Settled case Recovery => ChargedBack case _ => Clear)
    case A2A => (match k case TransferReturned => Posted case FundsFrozen => Posted case Recovery => Frozen
                         case _ => Clear)
    case Agentic => Clear
  }

  function After(rail: Rail, k: Kind): Standing
  {
    match rail
    case Card => (match k case Authorization => Held case Settlement => Settled case Chargeback => ChargedBack
                          case _ => Clear)
    case A2A => (match k case TransferPosted => Posted case FundsFrozen => Frozen case _ => Clear)
    case Agentic => (match k case Authorization => Paid case _ => Clear)
  }

  function Transfer(from: string, to: string, amount: real, currency: string): seq<Leg>
  {
    [Leg(to, currency, amount), Leg(from, currency, -amount)]
  }

  /** What an opening says has moved, fees of a post apart, while its value stands there. */
  function Outstanding(x: Standing, s: Opening): seq<Leg>
  {
    match x
    case Clear => []
    case Held => Transfer(s.payer, s.hold, s.amount, s.currency)
    case Settled =>
      [Leg(s.payee, s.currency, s.amount - s.fee), Leg(s.feeAccount, s.currency, s.fee),
       Leg(s.payer, s.currency, -s.amount)]
    case ChargedBack => Transfer(s.payer, s.chargeback, s.amount, s.currency)
    case Posted => Transfer(s.payer, s.payee, s.amount, s.currency)
    case Frozen => Transfer(s.payer, s.frozen, s.amount, s.currency)
    case Paid => Transfer(s.payer, s.payee, s.amount, s.currency)
  }

  function At(account: string, k: string, v: real): real { if k == account then v else 0.0 }

  /** The fee that a post moves from the payer to the fee account. */
  function Fee(rail: Rail, account: string, currency: string): Moved -> real
  {
    (v: Moved) =>
      if rail == A2A && v.kind == TransferPosted && v.opening.currency == currency
      then At(account, v.opening.feeAccount, v.opening.fee) - At(account, v.opening.payer, v.opening.fee) else 0.0
  }

  lemma OneSum(k: string, v: real, f: ((string, real)) -> real)
    ensures Sum(f, One(k, v)) == f((k, v))
  {
    assert One(k, v)[1..] == [];
  }

  lemma TwoSum(k1: string, v1: real, k2: string, v2: real, f: ((string, real)) -> real)
    ensures Sum(f, Two(k1, v1, k2, v2)) == (if k1 == k2 then 0.0 else f((k1, v1))) + f((k2, v2))
  {
    var t := Two(k1, v1, k2, v2);
    assert Sum(f, t) == f(t[0]) + Sum(f, t[1..]);
    if k1 != k2 { assert Sum(f, t[1..]) == f(t[1]) + Sum(f, t[2..]); }
  }

  lemma FewLegs(legs: seq<Leg>, f: Leg -> real)
    requires 2 <= |legs| <= 3
    ensures Sum(f, legs) == f(legs[0]) + f(legs[1]) + if |legs| == 3 then f(legs[2]) else 0.0
  {
    assert legs[1..][0] == legs[1] && legs[1..][1..] == legs[2..];
    assert Sum(f, legs[1..]) == f(legs[1]) + Sum(f, legs[2..]);
    if |legs| == 3 {
      assert legs[2..][0] == legs[2] && legs[2..][1..] == [];
      assert Sum(f, legs[2..]) == f(legs[2]) + Sum(f, []);
    }
  }

  lemma TransferSum(from: string, to: string, amount: real, currency: string, account: string)
    ensures Sum(LegAt(account, currency), Transfer(from, to, amount, currency))
        == At(account, to, amount) - At(account, from, amount)
  {
    FewLegs(Transfer(from, to, amount, currency), LegAt(account, currency));
  }

  /** A split credited or debited against one account conserves only if it nets to what its two parts
      say: with one account for both, the second part is everything. */
  lemma SplitSum(payee: string, net: real, feeAccount: string, fee: real, against: string, account: string)
    requires Sum(LineAmount(), Two(payee, net, feeAccount, fee)) == Sum(LineAmount(), One(against, net + fee))
    ensures Sum(On(account), Two(payee, net, feeAccount, fee)) == At(account, payee, net) + At(account, feeAccount, fee)
  {
    TwoSum(payee, net, feeAccount, fee, On(account));
    TwoSum(payee, net, feeAccount, fee, LineAmount());
    OneSum(against, net + fee, LineAmount());
    hide Sum, Two, One;
  }

  lemma CardStep(v: Moved, account: string)
    requires Conserving(Card, v)
    ensures var f, s := LegAt(account, v.opening.currency), v.opening;
      Effect(Card, account, s.currency)(v)
      == Sum(f, Outstanding(After(Card, v.kind), s)) - Sum(f, Outstanding(Before(Card, v.kind), s))
  {
    var s, f := v.opening, LegAt(account, v.opening.currency);
    var net := s.amount - s.fee;
    hide Sum, Two, One;
    TransferSum(s.payer, s.hold, s.amount, s.currency, account);
    TransferSum(s.payer, s.chargeback, s.amount, s.currency, account);
    FewLegs(Outstanding(Settled, s), f);
    SumConstant(f, 0.0, []);
    OneSum(s.payer, s.amount, On(account));
    OneSum(s.hold, s.amount, On(account));
    OneSum(s.chargeback, s.amount, On(account));
    assert net + s.fee == s.amount;
    match v.kind
    case Settlement => SplitSum(s.payee, net, s.feeAccount, s.fee, s.hold, account);
    case Refund => SplitSum(s.payee, net, s.feeAccount, s.fee, s.payer, account);
    case Chargeback => SplitSum(s.payee, net, s.feeAccount, s.fee, s.chargeback, account);
    case _ =>
  }

  lemma TransferStep(v: Moved, account: string)
    requires Conserving(A2A, v)
    ensures var f, s := LegAt(account, v.opening.currency), v.opening;
      Effect(A2A, account, s.currency)(v)
      == Sum(f, Outstanding(After(A2A, v.kind), s)) - Sum(f, Outstanding(Before(A2A, v.kind), s))
        + Fee(A2A, account, s.currency)(v)
  {
    var s, f := v.opening, LegAt(account, v.opening.currency);
    hide Sum, Two, One;
    TransferSum(s.payer, s.payee, s.amount, s.currency, account);
    TransferSum(s.payer, s.frozen, s.amount, s.currency, account);
    SumConstant(f, 0.0, []);
    OneSum(s.payer, s.amount, On(account));
    OneSum(s.payer, s.amount + s.fee, On(account));
    OneSum(s.payee, s.amount, On(account));
    OneSum(s.frozen, s.amount, On(account));
    if v.kind == TransferPosted { SplitSum(s.payee, s.amount, s.feeAccount, s.fee, s.payer, account); }
  }

  lemma AgenticStep(v: Moved, account: string)
    requires Conserving(Agentic, v)
    ensures var f, s := LegAt(account, v.opening.currency), v.opening;
      Effect(Agentic, account, s.currency)(v) == Sum(f, Outstanding(After(Agentic, v.kind), s))
  {
    var s := v.opening;
    hide Sum, One;
    TransferSum(s.payer, s.payee, s.amount, s.currency, account);
    OneSum(s.payer, s.amount, On(account));
    OneSum(s.payee, s.amount, On(account));
  }

  lemma OtherCurrency(x: Standing, s: Opening, account: string, currency: string)
    requires currency != s.currency
    ensures Sum(LegAt(account, currency), Outstanding(x, s)) == 0.0
  {
    SumConstant(LegAt(account, currency), 0.0, Outstanding(x, s));
    hide Sum;
  }

  /** Every move takes the value of its payment from one standing to another, under the opening in
      force at it; a post moves its fee as well. */
  lemma MoveStep(rail: Rail, v: Moved, account: string, currency: string)
    requires Conserving(rail, v)
    ensures var f, s := LegAt(account, currency), v.opening;
      Effect(rail, account, currency)(v)
      == Sum(f, Outstanding(After(rail, v.kind), s)) - Sum(f, Outstanding(Before(rail, v.kind), s))
        + Fee(rail, account, currency)(v)
  {
    hide Sum, Conserving, Outstanding;
    if currency != v.opening.currency {
      OtherCurrency(After(rail, v.kind), v.opening, account, currency);
      OtherCurrency(Before(rail, v.kind), v.opening, account, currency);
      hide After, Before;
    } else {
      ClearSum(v.opening, account, currency);
      hide Effect, Movement;
      match rail
      case Card => CardStep(v, account);
      case A2A => TransferStep(v, account);
      case Agentic => AgenticStep(v, account);
    }
  }

  lemma ClearSum(s: Opening, account: string, currency: string)
    ensures Sum(LegAt(account, currency), Outstanding(Clear, s)) == 0.0
  {
  }

  // ---------------------------------------------------------------- round trips

  /** Each move starts where the one before it left the value, and the first starts with nothing moved. */
  predicate Path(rail: Rail, moves: seq<Moved>)
  {
    && (moves != [] ==> Before(rail, moves[0].kind) == Clear)
    && forall i :: 0 < i < |moves| ==> Before(rail, moves[i].kind) == After(rail, moves[i - 1].kind)
  }

  /** A path that ends with nothing outstanding, such as authorise-reverse, authorise-settle-refund,
      authorise-settle-chargeback-recover, post-return and post-freeze-recover. */
  predicate RoundTrip(rail: Rail, moves: seq<Moved>)
  {
    Path(rail, moves) && (moves != [] ==> After(rail, moves[|moves| - 1].kind) == Clear)
  }

  /** What is outstanding under the old opening less what the new one says is. */
  function Handover(x: Standing, s: Opening, t: Opening): seq<Leg>
  {
    Outstanding(x, s) + Map(Negate(), Outstanding(x, t))
  }

  /** The handovers between consecutive moves, at the standing between them. */
  function Handovers(rail: Rail, moves: seq<Moved>): seq<Leg>
  {
    if |moves| < 2 then []
    else
      var n := |moves| - 1;
      Handovers(rail, moves[..n]) + Handover(After(rail, moves[n - 1].kind), moves[n - 1].opening, moves[n].opening)
  }

  lemma HandoverSum(x: Standing, s: Opening, t: Opening, account: string, currency: string)
    ensures var f := LegAt(account, currency);
      Sum(f, Handover(x, s, t)) == Sum(f, Outstanding(x, s)) - Sum(f, Outstanding(x, t))
  {
    hide Sum, Outstanding;
    SumAppend(LegAt(account, currency), Outstanding(x, s), Map(Negate(), Outstanding(x, t)));
    NegatedSum(Outstanding(x, t), account, currency);
  }

  lemma PathPrefix(rail: Rail, moves: seq<Moved>)
    requires Path(rail, moves) && moves != []
    ensures Path(rail, moves[..|moves| - 1])
  {
    hide Before, After;
    var head := moves[..|moves| - 1];
    forall i | 0 < i < |head| ensures Before(rail, head[i].kind) == After(rail, head[i - 1].kind) {
      assert head[i] == moves[i] && head[i - 1] == moves[i - 1];
    }
  }

  /** Along a path the effects add up to the handovers, the fees, and what is still outstanding. */
  lemma {:induction false} PathEffect(rail: Rail, moves: seq<Moved>, account: string, currency: string)
    requires Path(rail, moves) && forall v :: v in moves ==> Conserving(rail, v)
    ensures var f := LegAt(account, currency);
      Sum(Effect(rail, account, currency), moves)
      == Sum(f, Handovers(rail, moves)) + Sum(Fee(rail, account, currency), moves)
         + if moves == [] then 0.0
           else var last := moves[|moves| - 1]; Sum(f, Outstanding(After(rail, last.kind), last.opening))
  {
    hide Outstanding, Conserving, Effect, Fee, Before, After, Handover;
    var f, n := LegAt(account, currency), |moves| - 1;
    if moves == [] {
    } else {
      assert forall v :: v in moves[..n] ==> v in moves;
      PathPrefix(rail, moves);
      PathEffect(rail, moves[..n], account, currency);
      assert moves[n] in moves;
      MoveStep(rail, moves[n], account, currency);
      SumSnoc(Effect(rail, account, currency), moves, n);
      SumSnoc(Fee(rail, account, currency), moves, n);
      assert moves[..n + 1] == moves;
      if n == 0 {
        ClearSum(moves[0].opening, account, currency);
      } else {
        LastHandover(rail, moves, account, currency);
      }
      hide Sum, Handovers;
    }
  }

  lemma LastHandover(rail: Rail, moves: seq<Moved>, account: string, currency: string)
    requires |moves| >= 2
    ensures var f, n := LegAt(account, currency), |moves| - 1;
      var x := After(rail, moves[n - 1].kind);
      Sum(f, Handovers(rail, moves)) == Sum(f, Handovers(rail, moves[..n]))
        + Sum(f, Outstanding(x, moves[n - 1].opening)) - Sum(f, Outstanding(x, moves[n].opening))
  {
    hide Sum, Outstanding, Handover;
    var n := |moves| - 1;
    var x := After(rail, moves[n - 1].kind);
    SumAppend(LegAt(account, currency), Handovers(rail, moves[..n]),
      Handover(x, moves[n - 1].opening, moves[n].opening));
    HandoverSum(x, moves[n - 1].opening, moves[n].opening, account, currency);
  }

  // ---------------------------------------------------------------- what a round trip leaves

  function FeesOf(m: Manifest, p: string, account: string, currency: string): real
    requires |m.lineage| == |m.records|
  {
    Sum(Fee(m.rail, account, currency), Moves(m, |m.lineage|, p))
  }

  /** The payment has moved its fees and nothing else, on any account and in any currency. */
  ghost predicate CostsItsFees(m: Manifest, p: string)
    requires |m.lineage| == |m.records|
  {
    forall account, currency ::
      Balance(PostingsOf(m, |m.lineage|, Only(p)), account, currency) == FeesOf(m, p, account, currency)
  }

  ghost predicate Restored(m: Manifest, p: string)
    requires |m.lineage| == |m.records|
  {
    forall account, currency :: Balance(PostingsOf(m, |m.lineage|, Only(p)), account, currency) == 0.0
  }

  lemma TripBalance(m: Manifest, p: string, account: string, currency: string)
    requires Accepted(m) && RoundTrip(m.rail, Moves(m, |m.lineage|, p))
    ensures Balance(PostingsOf(m, |m.lineage|, Only(p)), account, currency)
         == FeesOf(m, p, account, currency) + Sum(LegAt(account, currency), Handovers(m.rail, Moves(m, |m.lineage|, p)))
  {
    hide Balance, PostingsOf, Moves, Sum, Effect, Conserving, Fee, Handovers, LastOpening, EventOk, Positions, Before;
    var moves := Moves(m, |m.lineage|, p);
    PaymentEffect(m, |m.lineage|, p, account, currency);
    MovesConserve(m, |m.lineage|, p);
    PathEffect(m.rail, moves, account, currency);
    if moves != [] { ClearSum(moves[|moves| - 1].opening, account, currency); }
    hide After, Outstanding;
  }

  /** For every accepted manifest and every round trip, however often the payment is opened again:
      it costs exactly its fees when and only when the handovers between openings tally to nothing. */
  lemma RoundTripIff(m: Manifest, p: string)
    requires Accepted(m) && RoundTrip(m.rail, Moves(m, |m.lineage|, p))
    ensures CostsItsFees(m, p) <==> Tally(Handovers(m.rail, Moves(m, |m.lineage|, p))) == map[]
  {
    assert |m.lineage| == |m.records|;
    hide Accepted, RoundTrip, Balance, PostingsOf, Moves, Sum, Handovers, Tally, FeesOf;
    var legs := Handovers(m.rail, Moves(m, |m.lineage|, p));
    TallyNone();
    TallyIff(legs, []);
    forall account, currency ensures Sum(LegAt(account, currency), []) == 0.0 { NoLegs(account, currency); }
    if CostsItsFees(m, p) {
      forall account, currency ensures Sum(LegAt(account, currency), legs) == Sum(LegAt(account, currency), []) {
        TripBalance(m, p, account, currency);
      }
    }
    if Tally(legs) == map[] {
      forall account, currency
        ensures Balance(PostingsOf(m, |m.lineage|, Only(p)), account, currency) == FeesOf(m, p, account, currency)
      {
        TripBalance(m, p, account, currency);
        assert Sum(LegAt(account, currency), legs) == Sum(LegAt(account, currency), []);
      }
    }
  }

  lemma TallyNone()
    ensures Tally([]) == map[]
  {
  }

  lemma NoLegs(account: string, currency: string)
    ensures Sum(LegAt(account, currency), []) == 0.0
  {
  }

  /** On the card and agentic rails nothing is charged beyond the amount, so that is to restore
      every account. */
  lemma RestoredIff(m: Manifest, p: string)
    requires |m.lineage| == |m.records| && m.rail != A2A
    ensures CostsItsFees(m, p) <==> Restored(m, p)
  {
    forall account, currency ensures FeesOf(m, p, account, currency) == 0.0 {
      SumConstant(Fee(m.rail, account, currency), 0.0, Moves(m, |m.lineage|, p));
    }
    hide Balance, PostingsOf, Moves, FeesOf;
  }

  /** The rest of the ledger then stands as if the payment had never been made. */
  lemma RestoredUnseen(m: Manifest, p: string, account: string, currency: string)
    requires Accepted(m) && Restored(m, p)
    ensures Balance(m.postings, account, currency) == Balance(PostingsOf(m, |m.lineage|, Except(p)), account, currency)
  {
    hide Balance, PostingsOf;
    PaymentsAddUp(m, |m.lineage|, p, account, currency);
  }

  // ---------------------------------------------------------------- one reopening

  /** The openings agree on what is outstanding at the standing. */
  ghost predicate Agree(x: Standing, s: Opening, t: Opening)
  {
    Tally(Outstanding(x, s)) == Tally(Outstanding(x, t))
  }

  /** Of the moves, those before position i have the opening s in force and the others t. */
  ghost predicate ReopenedAt(moves: seq<Moved>, i: nat, s: Opening, t: Opening)
  {
    0 < i < |moves| && forall j :: 0 <= j < |moves| ==> moves[j].opening == if j < i then s else t
  }

  lemma {:induction false} OneOpeningHandsNothing(rail: Rail, moves: seq<Moved>, s: Opening, account: string,
                                                  currency: string)
    requires forall v :: v in moves ==> v.opening == s
    ensures Sum(LegAt(account, currency), Handovers(rail, moves)) == 0.0
  {
    if |moves| < 2 {
      return;
    }
    assert forall v :: v in moves[..|moves| - 1] ==> v in moves;
    OneOpeningHandsNothing(rail, moves[..|moves| - 1], s, account, currency);
    LastHandover(rail, moves, account, currency);
    assert moves[|moves| - 1] in moves && moves[|moves| - 2] in moves;
    hide Sum, Handovers, Outstanding, After;
  }

  lemma {:induction false} OneReopeningHands(rail: Rail, moves: seq<Moved>, i: nat, s: Opening, t: Opening,
                                             account: string, currency: string)
    requires ReopenedAt(moves, i, s, t)
    ensures var f, x := LegAt(account, currency), After(rail, moves[i - 1].kind);
      Sum(f, Handovers(rail, moves)) == Sum(f, Outstanding(x, s)) - Sum(f, Outstanding(x, t))
  {
    hide Sum, Outstanding, After, Handovers;
    var n := |moves| - 1;
    LastHandover(rail, moves, account, currency);
    if i == n {
      OneOpeningHandsNothing(rail, moves[..n], s, account, currency);
    } else {
      OneReopeningHands(rail, moves[..n], i, s, t, account, currency);
    }
  }

  /** A round trip reopened once, at whichever point, costs exactly its fees when and only when the
      two openings agree on what was outstanding there. */
  lemma ReopenedOnceIff(m: Manifest, p: string, i: nat, s: Opening, t: Opening)
    requires Accepted(m) && RoundTrip(m.rail, Moves(m, |m.lineage|, p)) && ReopenedAt(Moves(m, |m.lineage|, p), i, s, t)
    ensures CostsItsFees(m, p) <==> Agree(After(m.rail, Moves(m, |m.lineage|, p)[i - 1].kind), s, t)
  {
    assert |m.lineage| == |m.records|;
    hide Accepted, RoundTrip, Moves, Sum, Handovers, Tally, Outstanding, CostsItsFees;
    var moves := Moves(m, |m.lineage|, p);
    var x := After(m.rail, moves[i - 1].kind);
    RoundTripIff(m, p);
    TallyNone();
    TallyIff(Handovers(m.rail, moves), []);
    TallyIff(Outstanding(x, s), Outstanding(x, t));
    forall account, currency
      ensures Sum(LegAt(account, currency), Handovers(m.rail, moves)) == Sum(LegAt(account, currency), [])
         <==> Sum(LegAt(account, currency), Outstanding(x, s)) == Sum(LegAt(account, currency), Outstanding(x, t))
    {
      NoLegs(account, currency);
      OneReopeningHands(m.rail, moves, i, s, t, account, currency);
    }
  }

  /** A round trip under one opening always costs exactly its fees. */
  lemma OneOpeningCostsItsFees(m: Manifest, p: string, s: Opening)
    requires Accepted(m) && RoundTrip(m.rail, Moves(m, |m.lineage|, p))
    requires forall v :: v in Moves(m, |m.lineage|, p) ==> v.opening == s
    ensures CostsItsFees(m, p)
  {
    assert |m.lineage| == |m.records|;
    hide Accepted, RoundTrip, Moves, Sum, Handovers, Balance, PostingsOf, FeesOf;
    forall account, currency
      ensures Balance(PostingsOf(m, |m.lineage|, Only(p)), account, currency) == FeesOf(m, p, account, currency)
    {
      TripBalance(m, p, account, currency);
      OneOpeningHandsNothing(m.rail, Moves(m, |m.lineage|, p), s, account, currency);
    }
  }

  // ---------------------------------------------------------------- when openings agree

  predicate Idle(from: string, to: string, amount: real)
  {
    amount == 0.0 || from == to
  }

  /** Two transfers do the same: both nothing, or the same, or each other turned round with the sign. */
  predicate SameTransfer(from: string, to: string, amount: real, currency: string,
                         from': string, to': string, amount': real, currency': string)
  {
    || (Idle(from, to, amount) && Idle(from', to', amount'))
    || (currency == currency' && from == from' && to == to' && amount == amount')
    || (currency == currency' && from == to' && to == from' && amount == -amount')
  }

  lemma SameTransferIff(from: string, to: string, amount: real, currency: string,
                        from': string, to': string, amount': real, currency': string)
    ensures Tally(Transfer(from, to, amount, currency)) == Tally(Transfer(from', to', amount', currency'))
       <==> SameTransfer(from, to, amount, currency, from', to', amount', currency')
  {
    var x, y := Transfer(from, to, amount, currency), Transfer(from', to', amount', currency');
    TallyIff(x, y);
    hide Tally, Sum;
    if forall a, c :: Sum(LegAt(a, c), x) == Sum(LegAt(a, c), y) {
      FlowSame(from, to, amount, currency, from', to', amount', currency', from, currency);
      FlowSame(from, to, amount, currency, from', to', amount', currency', to, currency);
      FlowSame(from, to, amount, currency, from', to', amount', currency', from', currency');
      FlowSame(from, to, amount, currency, from', to', amount', currency', to', currency');
      hide Transfer;
    }
    if SameTransfer(from, to, amount, currency, from', to', amount', currency') {
      forall a, c ensures Sum(LegAt(a, c), x) == Sum(LegAt(a, c), y) {
        Flow(from, to, amount, currency, a, c);
        Flow(from', to', amount', currency', a, c);
      }
    }
  }

  lemma Flow(from: string, to: string, amount: real, currency: string, account: string, c: string)
    ensures Sum(LegAt(account, c), Transfer(from, to, amount, currency))
         == if c != currency then 0.0 else At(account, to, amount) - At(account, from, amount)
  {
    FewLegs(Transfer(from, to, amount, currency), LegAt(account, c));
    hide Sum;
  }

  lemma FlowSame(from: string, to: string, amount: real, currency: string,
                 from': string, to': string, amount': real, currency': string, a: string, c: string)
    requires Sum(LegAt(a, c), Transfer(from, to, amount, currency))
        == Sum(LegAt(a, c), Transfer(from', to', amount', currency'))
    ensures (if c != currency then 0.0 else At(a, to, amount) - At(a, from, amount))
         == (if c != currency' then 0.0 else At(a, to', amount') - At(a, from', amount'))
  {
    Flow(from, to, amount, currency, a, c);
    Flow(from', to', amount', currency', a, c);
    hide Transfer, Sum;
  }

  /** The account that holds the value at a standing other than the settled one. */
  function Holder(x: Standing, s: Opening): string
    requires x != Clear && x != Settled
  {
    match x
    case Held => s.hold
    case ChargedBack => s.chargeback
    case Frozen => s.frozen
    case _ => s.payee
  }

  /** At every standing but the settled one agreement is a matter of payer, holder, amount and currency. */
  lemma AgreeIff(x: Standing, s: Opening, t: Opening)
    requires x != Clear && x != Settled
    ensures Agree(x, s, t)
       <==> SameTransfer(s.payer, Holder(x, s), s.amount, s.currency, t.payer, Holder(x, t), t.amount, t.currency)
  {
    SameTransferIff(s.payer, Holder(x, s), s.amount, s.currency, t.payer, Holder(x, t), t.amount, t.currency);
    hide Tally, SameTransfer, Transfer;
  }

  lemma ClearAgree(s: Opening, t: Opening)
    ensures Agree(Clear, s, t)
  {
  }

  /** Reopening a payment while nothing is outstanding, say between two round trips, never matters. */
  lemma ReopenedWhileClear(m: Manifest, p: string, i: nat, s: Opening, t: Opening)
    requires Accepted(m) && RoundTrip(m.rail, Moves(m, |m.lineage|, p))
    requires ReopenedAt(Moves(m, |m.lineage|, p), i, s, t)
        && After(m.rail, Moves(m, |m.lineage|, p)[i - 1].kind) == Clear
    ensures CostsItsFees(m, p)
  {
    hide Accepted, RoundTrip, Moves, CostsItsFees, Agree;
    ReopenedOnceIff(m, p, i, s, t);
    ClearAgree(s, t);
  }

  // ---------------------------------------------------------------- the named lifecycles

  predicate NamedTrip(rail: Rail, moves: seq<Moved>)
  {
    match rail
    case Card =>
      || (|moves| == 2 && moves[0].kind == Authorization && moves[1].kind == Reversal)
      || (|moves| == 3 && moves[0].kind == Authorization && moves[1].kind == Settlement && moves[2].kind == Refund)
      || (|moves| == 4 && moves[0].kind == Authorization && moves[1].kind == Settlement && moves[2].kind == Chargeback
          && moves[3].kind == Recovery)
    case A2A =>
      || (|moves| == 2 && moves[0].kind == TransferPosted && moves[1].kind == TransferReturned)
      || (|moves| == 3 && moves[0].kind == TransferPosted && moves[1].kind == FundsFrozen && moves[2].kind == Recovery)
    case Agentic => false
  }

  lemma NamedTripIsRoundTrip(rail: Rail, moves: seq<Moved>)
    requires NamedTrip(rail, moves)
    ensures RoundTrip(rail, moves) && moves != []
  {
  }

  lemma NamedFees(moves: seq<Moved>, account: string, currency: string)
    requires NamedTrip(A2A, moves)
    ensures moves != [] && moves[0].kind == TransferPosted
    ensures Sum(Fee(A2A, account, currency), moves) == Fee(A2A, account, currency)(moves[0])
  {
    var f := Fee(A2A, account, currency);
    assert forall v :: v in moves[1..] ==> f(v) == 0.0;
    SumConstant(f, 0.0, moves[1..]);
  }

  /** An account-to-account trip moves the fee of its post from the payer to the fee account, and
      whatever the handovers between its openings leave over. */
  lemma TransferBalance(m: Manifest, p: string, account: string, currency: string)
    requires Accepted(m) && m.rail == A2A && NamedTrip(A2A, Moves(m, |m.lineage|, p))
    ensures var moves := Moves(m, |m.lineage|, p);
      moves != [] && var s := moves[0].opening;
      Balance(PostingsOf(m, |m.lineage|, Only(p)), account, currency)
      == (if currency == s.currency then At(account, s.feeAccount, s.fee) - At(account, s.payer, s.fee) else 0.0)
         + Sum(LegAt(account, currency), Handovers(A2A, moves))
  {
    assert |m.lineage| == |m.records|;
    NamedTripIsRoundTrip(A2A, Moves(m, |m.lineage|, p));
    hide Accepted, Balance, PostingsOf, Moves, NamedTrip, Sum, Handovers, RoundTrip;
    TripBalance(m, p, account, currency);
    NamedFees(Moves(m, |m.lineage|, p), account, currency);
  }

  /** So one that costs its fees moves exactly that fee. */
  lemma TransferCostsFee(m: Manifest, p: string, account: string, currency: string)
    requires Accepted(m) && m.rail == A2A && NamedTrip(A2A, Moves(m, |m.lineage|, p)) && CostsItsFees(m, p)
    ensures var moves := Moves(m, |m.lineage|, p);
      moves != [] && var s := moves[0].opening;
      Balance(PostingsOf(m, |m.lineage|, Only(p)), account, currency)
      == if currency == s.currency then At(account, s.feeAccount, s.fee) - At(account, s.payer, s.fee) else 0.0
  {
    assert |m.lineage| == |m.records|;
    hide Accepted, Balance, PostingsOf, Moves, NamedTrip, Sum;
    NamedFees(Moves(m, |m.lineage|, p), account, currency);
  }

  /** Whatever the openings, the payer of the post is out of pocket by exactly its fee when and only
      when what it gets as the fee account and what the handovers leave it cancel. */
  lemma PayerPaysFeeIff(m: Manifest, p: string)
    requires Accepted(m) && m.rail == A2A && NamedTrip(A2A, Moves(m, |m.lineage|, p))
    ensures var moves := Moves(m, |m.lineage|, p);
      moves != [] && var s := moves[0].opening;
      Balance(PostingsOf(m, |m.lineage|, Only(p)), s.payer, s.currency) == -s.fee
      <==> At(s.payer, s.feeAccount, s.fee) + Sum(LegAt(s.payer, s.currency), Handovers(A2A, moves)) == 0.0
  {
    assert |m.lineage| == |m.records|;
    NamedTripIsRoundTrip(A2A, Moves(m, |m.lineage|, p));
    hide Accepted, Balance, PostingsOf, Moves, NamedTrip, Sum, Handovers;
    var s := Moves(m, |m.lineage|, p)[0].opening;
    TransferBalance(m, p, s.payer, s.currency);
  }

  /** What an opening says its transfer to the holder does to an account. */
  function Net(x: Standing, o: Opening, account: string, currency: string): real
    requires x != Clear && x != Settled
  {
    if o.currency == currency then At(account, Holder(x, o), o.amount) - At(account, o.payer, o.amount) else 0.0
  }

  lemma NetIs(x: Standing, o: Opening, account: string, currency: string)
    requires x != Clear && x != Settled
    ensures Sum(LegAt(account, currency), Outstanding(x, o)) == Net(x, o, account, currency)
  {
    Flow(o.payer, Holder(x, o), o.amount, o.currency, account, currency);
    hide Sum, Transfer;
  }

  /** Reopened once, after the post or after the freeze: a comparison of payload fields. */
  lemma PayerPaysFeeReopenedIff(m: Manifest, p: string, i: nat, s: Opening, t: Opening)
    requires Accepted(m) && m.rail == A2A && NamedTrip(A2A, Moves(m, |m.lineage|, p))
    requires ReopenedAt(Moves(m, |m.lineage|, p), i, s, t)
    ensures var x := if i == 1 then Posted else Frozen;
      Balance(PostingsOf(m, |m.lineage|, Only(p)), s.payer, s.currency) == -s.fee
      <==> At(s.payer, s.feeAccount, s.fee) + Net(x, s, s.payer, s.currency) == Net(x, t, s.payer, s.currency)
  {
    assert |m.lineage| == |m.records|;
    hide Accepted, Balance, PostingsOf, Moves, Sum, Handovers, Net, NamedTrip, Holder;
    PayerPaysFeeIff(m, p);
    HandedNet(Moves(m, |m.lineage|, p), i, s, t, s.payer, s.currency);
  }

  lemma HandedNet(moves: seq<Moved>, i: nat, s: Opening, t: Opening, account: string, currency: string)
    requires NamedTrip(A2A, moves) && ReopenedAt(moves, i, s, t)
    ensures var x := if i == 1 then Posted else Frozen;
      Sum(LegAt(account, currency), Handovers(A2A, moves))
        == Net(x, s, account, currency) - Net(x, t, account, currency)
  {
    var x := if i == 1 then Posted else Frozen;
    assert After(A2A, moves[i - 1].kind) == x;
    hide Sum, Handovers, Outstanding, Net, NamedTrip, After;
    OneReopeningHands(A2A, moves, i, s, t, account, currency);
    NetIs(x, s, account, currency);
    NetIs(x, t, account, currency);
  }

  /** Where the trip costs its fees, that is when the payer does not own the fee account or there is
      no fee. */
  lemma PayerPaysFeeAloneIff(m: Manifest, p: string)
    requires Accepted(m) && m.rail == A2A && NamedTrip(A2A, Moves(m, |m.lineage|, p)) && CostsItsFees(m, p)
    ensures var moves := Moves(m, |m.lineage|, p);
      moves != [] && var s := moves[0].opening;
      Balance(PostingsOf(m, |m.lineage|, Only(p)), s.payer, s.currency) == -s.fee
      <==> s.payer != s.feeAccount || s.fee == 0.0
  {
    assert |m.lineage| == |m.records|;
    hide Accepted, Balance, PostingsOf, Moves, CostsItsFees;
    NamedTripIsRoundTrip(A2A, Moves(m, |m.lineage|, p));
    var s := Moves(m, |m.lineage|, p)[0].opening;
    TransferCostsFee(m, p, s.payer, s.currency);
    hide NamedTrip;
  }
}
