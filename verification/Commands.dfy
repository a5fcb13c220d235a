/** What each command of an accepted manifest is recorded as and does to the accounts: the replay read by
    command instead of by event kind. */
module Commands {
  import opened Aggregates
  import opened Ledger
  import opened Lifecycles
  import opened Scripts

  // ---------------------------------------------------------------- kinds

  /** The commands that an event kind is the record of. */
  predicate RecordedAs(c: Command, k: Kind)
  {
    match k
    case TransferInitiated => c == A2aInitiate
    case TransferAccepted => c == A2aAccept
    case TransferRejected => c == A2aReject
    case TransferPosted => c == A2aPost
    case TransferReturned => c == A2aReturn
    case FundsFrozen => c == A2aFreeze
    case Authorization => c == CardAuthorize || c == AgenticPay(IntegrityPass, ActionApprove)
    case AuthorizationDeclined =>
      c == CardDecline || (c.AgenticPay? && (c.integrity == IntegrityFail || c.action == ActionDecline))
    case AuthenticationChallenge => c == AgenticPay(IntegrityPass, ActionChallenge)
    case Clearing => c == CardClear
    case Settlement => c == CardSettle
    case Reversal => c == CardReverse
    case FraudReported => c == A2aReport || c == CardReport
    case DisputeOpened => c == CardDispute
    case Chargeback => c == CardChargeback
    case Recovery => c == A2aRecover || c == CardRecover
    case Refund => c == CardRefund
  }

  lemma KindOf(c: Command, k: Kind)
    ensures ExpectedKind(c) == Some(k) <==> RecordedAs(c, k)
  {
  }

  /** An event of an accepted manifest has a kind exactly when its command is one of those the kind records. */
  lemma KindIff(m: Manifest, i: nat, k: Kind)
    requires Accepted(m) && i < |m.lineage|
    ensures |m.lineage| == |m.records| && (m.records[i].kind == k <==> RecordedAs(m.lineage[i].command, k))
  {
    assert EventOk(m, i);
    KindOf(m.lineage[i].command, k);
    hide LastOpening, LastEvent, ExpectedKind, RecordedAs;
  }

  // ---------------------------------------------------------------- postings

  /** A booking of a command: the name its entry ends in, and what it adds to which account. */
  datatype Booking = Nothing | Booking(name: string, legs: seq<Leg>)

  function CardBooking(c: Command, s: Opening): Booking
  {
    var back := [Leg(s.payee, s.currency, s.fee - s.amount), Leg(s.feeAccount, s.currency, -s.fee)];
    match c
    case CardAuthorize => Booking("hold", Transfer(s.payer, s.hold, s.amount, s.currency))
    case AgenticPay(IntegrityPass, ActionApprove) => Booking("hold", Transfer(s.payer, s.hold, s.amount, s.currency))
    case CardReverse => Booking("release", Transfer(s.hold, s.payer, s.amount, s.currency))
    case CardSettle =>
      Booking("settle", [Leg(s.hold, s.currency, -s.amount), Leg(s.payee, s.currency, s.amount - s.fee),
                         Leg(s.feeAccount, s.currency, s.fee)])
    case CardRefund => Booking("refund", back + [Leg(s.payer, s.currency, s.amount)])
    case CardChargeback => Booking("chargeback", back + [Leg(s.chargeback, s.currency, s.amount)])
    case CardRecover => Booking("recovery", Transfer(s.chargeback, s.payer, s.amount, s.currency))
    case A2aRecover => Booking("recovery", Transfer(s.chargeback, s.payer, s.amount, s.currency))
    case _ => Nothing
  }

  function TransferBooking(c: Command, s: Opening): Booking
  {
    match c
    case A2aPost =>
      Booking("post", [Leg(s.payer, s.currency, -s.amount - s.fee), Leg(s.payee, s.currency, s.amount),
                       Leg(s.feeAccount, s.currency, s.fee)])
    case A2aReturn => Booking("return", Transfer(s.payee, s.payer, s.amount, s.currency))
    case A2aFreeze => Booking("freeze", Transfer(s.payee, s.frozen, s.amount, s.currency))
    case A2aRecover => Booking("recovery", Transfer(s.frozen, s.payer, s.amount, s.currency))
    case CardRecover => Booking("recovery", Transfer(s.frozen, s.payer, s.amount, s.currency))
    case _ => Nothing
  }

  function AgenticBooking(c: Command, s: Opening): Booking
  {
    match c
    case AgenticPay(IntegrityPass, ActionApprove) =>
      Booking("agentic-payment", Transfer(s.payer, s.payee, s.amount, s.currency))
    case CardAuthorize => Booking("agentic-payment", Transfer(s.payer, s.payee, s.amount, s.currency))
    case _ => Nothing
  }

  /** The replay does not tie commands to rails, so each rail answers for all commands. */
  function BookingOf(rail: Rail, c: Command, s: Opening): Booking
  {
    match rail
    case Card => CardBooking(c, s)
    case A2A => TransferBooking(c, s)
    case Agentic => AgenticBooking(c, s)
  }

  lemma ThreeLegs(a: Leg, b: Leg, c: Leg, f: Leg -> real)
    ensures Sum(f, [a, b] + [c]) == Sum(f, [a, b, c]) == f(a) + f(b) + f(c)
  {
    assert [a, b] + [c] == [a, b, c];
    FewLegs([a, b, c], f);
    hide Sum;
  }

  lemma CardBooks(c: Command, k: Kind, s: Opening, account: string)
    requires RecordedAs(c, k) && CardMovement(k, s).Some? && Conserving(Card, Moved(s, k))
    ensures var b := CardBooking(c, s);
      && b.Booking? && CardMovement(k, s).value.suffix == b.name
      && Effect(Card, account, s.currency)(Moved(s, k)) == Sum(LegAt(account, s.currency), b.legs)
  {
    if k == Settlement || k == Refund || k == Chargeback {
      SplitBooks(c, k, s, account);
    } else {
      hide Sum, One, Two;
      TransferSum(s.payer, s.hold, s.amount, s.currency, account);
      TransferSum(s.hold, s.payer, s.amount, s.currency, account);
      TransferSum(s.chargeback, s.payer, s.amount, s.currency, account);
      OneSum(s.payer, s.amount, On(account));
      OneSum(s.hold, s.amount, On(account));
      OneSum(s.chargeback, s.amount, On(account));
      hide LegAt, Transfer, Conserving;
    }
    hide Sum, One, Two, CardBooking, CardMovement, Effect, RecordedAs, Conserving;
  }

  /** The three card movements that split the amount into net and fee. */
  lemma SplitBooks(c: Command, k: Kind, s: Opening, account: string)
    requires RecordedAs(c, k) && (k == Settlement || k == Refund || k == Chargeback)
    requires Conserving(Card, Moved(s, k))
    ensures var b := CardBooking(c, s);
      && b.Booking? && CardMovement(k, s).value.suffix == b.name
      && Effect(Card, account, s.currency)(Moved(s, k)) == Sum(LegAt(account, s.currency), b.legs)
  {
    var f, net := LegAt(account, s.currency), s.amount - s.fee;
    hide Sum, Two, One;
    OneSum(s.payer, s.amount, On(account));
    OneSum(s.hold, s.amount, On(account));
    OneSum(s.chargeback, s.amount, On(account));
    assert net + s.fee == s.amount;
    var x, y := Leg(s.payee, s.currency, s.fee - s.amount), Leg(s.feeAccount, s.currency, -s.fee);
    match k
    case Settlement =>
      SplitSum(s.payee, net, s.feeAccount, s.fee, s.hold, account);
      ThreeLegs(Leg(s.hold, s.currency, -s.amount), Leg(s.payee, s.currency, net), Leg(s.feeAccount, s.currency, s.fee),
                f);
    case Refund =>
      SplitSum(s.payee, net, s.feeAccount, s.fee, s.payer, account);
      ThreeLegs(x, y, Leg(s.payer, s.currency, s.amount), f);
    case Chargeback =>
      SplitSum(s.payee, net, s.feeAccount, s.fee, s.chargeback, account);
      ThreeLegs(x, y, Leg(s.chargeback, s.currency, s.amount), f);
  }

  lemma TransferBooks(c: Command, k: Kind, s: Opening, account: string)
    requires RecordedAs(c, k) && TransferMovement(k, s).Some? && Conserving(A2A, Moved(s, k))
    ensures var b := TransferBooking(c, s);
      && b.Booking? && TransferMovement(k, s).value.suffix == b.name
      && Effect(A2A, account, s.currency)(Moved(s, k)) == Sum(LegAt(account, s.currency), b.legs)
  {
    hide Sum, Two, One;
    TransferSum(s.payee, s.payer, s.amount, s.currency, account);
    TransferSum(s.payee, s.frozen, s.amount, s.currency, account);
    TransferSum(s.frozen, s.payer, s.amount, s.currency, account);
    OneSum(s.payer, s.amount, On(account));
    OneSum(s.payer, s.amount + s.fee, On(account));
    OneSum(s.payee, s.amount, On(account));
    OneSum(s.frozen, s.amount, On(account));
    if k == TransferPosted {
      SplitSum(s.payee, s.amount, s.feeAccount, s.fee, s.payer, account);
      ThreeLegs(Leg(s.payer, s.currency, -s.amount - s.fee), Leg(s.payee, s.currency, s.amount),
                Leg(s.feeAccount, s.currency, s.fee), LegAt(account, s.currency));
    }
  }

  lemma AgenticBooks(c: Command, k: Kind, s: Opening, account: string)
    requires RecordedAs(c, k) && AgenticMovement(k, s).Some?
    ensures var b := AgenticBooking(c, s);
      && b.Booking? && AgenticMovement(k, s).value.suffix == b.name
      && Effect(Agentic, account, s.currency)(Moved(s, k)) == Sum(LegAt(account, s.currency), b.legs)
  {
    hide Sum, One;
    TransferSum(s.payer, s.payee, s.amount, s.currency, account);
    OneSum(s.payer, s.amount, On(account));
    OneSum(s.payee, s.amount, On(account));
  }

  lemma Books(rail: Rail, c: Command, k: Kind, s: Opening, account: string, currency: string)
    requires RecordedAs(c, k) && Movement(rail, k, s).Some? && Conserving(rail, Moved(s, k))
    ensures var b := BookingOf(rail, c, s);
      && b.Booking? && Movement(rail, k, s).value.suffix == b.name
      && Effect(rail, account, currency)(Moved(s, k)) == Sum(LegAt(account, currency), b.legs)
  {
    hide RecordedAs, Conserving, CardMovement, TransferMovement, AgenticMovement, CardBooking, TransferBooking,
         AgenticBooking, Sum;
    match rail {
      case Card => CardBooks(c, k, s, account);
      case A2A => TransferBooks(c, k, s, account);
      case Agentic => AgenticBooks(c, k, s, account);
    }
    if currency != s.currency {
      OneCurrency(rail, c, s);
      SumConstant(LegAt(account, currency), 0.0, BookingOf(rail, c, s).legs);
    }
  }

  lemma OneCurrency(rail: Rail, c: Command, s: Opening)
    ensures var b := BookingOf(rail, c, s); b.Booking? ==> forall l :: l in b.legs ==> l.currency == s.currency
  {
  }

  lemma QuietIff(rail: Rail, c: Command, k: Kind, s: Opening)
    requires RecordedAs(c, k)
    ensures Movement(rail, k, s).None? <==> BookingOf(rail, c, s) == Nothing
  {
    hide Two, One;
  }

  /** Every event of an accepted manifest posts what the booking of its command says, under the opening in
      force: one entry named after the event and the booking, or none. */
  lemma CommandBooks(m: Manifest, i: nat, account: string, currency: string)
    requires Accepted(m) && i < |m.lineage|
    ensures |m.lineage| == |m.records| && LastOpening(m.lineage, i + 1, m.lineage[i].payment).Some?
    ensures var posted := Implied(m, i);
      var b := BookingOf(m.rail, m.lineage[i].command, LastOpening(m.lineage, i + 1, m.lineage[i].payment).value);
      && (posted == [] <==> b == Nothing)
      && (b.Booking? ==>
            && |posted| == 1 && posted[0].entryId == m.lineage[i].eventId + ":" + b.name
            && Balance(posted, account, currency) == Sum(LegAt(account, currency), b.legs))
  {
    assert EventOk(m, i);
    var p, c, k := m.lineage[i].payment, m.lineage[i].command, m.records[i].kind;
    var s := LastOpening(m.lineage, i + 1, p).value;
    KindIff(m, i, k);
    QuietIff(m.rail, c, k, s);
    if Movement(m.rail, k, s).Some? {
      MoveAtConserves(m, i, p, Moved(s, k));
      Books(m.rail, c, k, s, account, currency);
      ExpectedEffect(m.records[i].eventId, m.rail, Moved(s, k), account, currency);
    }
    hide LastOpening, EventOk, Movement, BookingOf, Sum, Effect, RecordedAs, Conserving, Balance, PostingsOf, Positions;
    assert m.lineage[i].eventId == m.records[i].eventId;
  }

  /** Which commands post at all, rail by rail. */
  lemma PostsIff(m: Manifest, i: nat)
    requires Accepted(m) && i < |m.lineage| == |m.records|
    ensures var c := m.lineage[i].command;
      var approved := c == AgenticPay(IntegrityPass, ActionApprove);
      Implied(m, i) != [] <==>
        match m.rail
        case Card => approved || c in {CardAuthorize, CardReverse, CardSettle, CardRefund, CardChargeback, CardRecover,
                                       A2aRecover}
        case A2A => c in {A2aPost, A2aReturn, A2aFreeze, A2aRecover, CardRecover}
        case Agentic => approved || c == CardAuthorize
  {
    hide Accepted, Implied, LastOpening, Balance, Sum, BookingOf;
    CommandBooks(m, i, "", "");
    BooksSomething(m.rail, m.lineage[i].command, LastOpening(m.lineage, i + 1, m.lineage[i].payment).value);
  }

  lemma BooksSomething(rail: Rail, c: Command, s: Opening)
    ensures var approved := c == AgenticPay(IntegrityPass, ActionApprove);
      BookingOf(rail, c, s) != Nothing <==>
        match rail
        case Card => approved || c in {CardAuthorize, CardReverse, CardSettle, CardRefund, CardChargeback, CardRecover,
                                       A2aRecover}
        case A2A => c in {A2aPost, A2aReturn, A2aFreeze, A2aRecover, CardRecover}
        case Agentic => approved || c == CardAuthorize
  {
    hide Transfer;
  }

  // ---------------------------------------------------------------- openings

  /** The event at j opens payment p. */
  predicate OpensAt(links: seq<Link>, j: nat, p: string)
    requires j < |links|
  {
    var c := links[j].command;
    links[j].payment == p && (c == A2aInitiate || c == CardAuthorize || c == CardDecline || c.AgenticPay?)
  }

  lemma {:induction false} OpenedAt(links: seq<Link>, n: nat, p: string) returns (j: nat)
    requires n <= |links| && LastOpening(links, n, p).Some?
    ensures j < n && OpensAt(links, j, p) && LastOpening(links, n, p) == Some(links[j].payload)
    ensures forall k :: j < k < n ==> !OpensAt(links, k, p)
  {
    j := n - 1;
    if !(links[j].payment == p && Opens(links[j].command)) {
      j := OpenedAt(links, n - 1, p);
    }
  }

  /** Every event of an accepted manifest repeats the economics and parties of the last command up to it that
      opens its payment; there is one. */
  lemma OpeningRepeated(m: Manifest, i: nat) returns (j: nat)
    requires Accepted(m) && i < |m.lineage|
    ensures |m.lineage| == |m.records| && j <= i && OpensAt(m.lineage, j, m.lineage[i].payment)
    ensures forall k :: j < k <= i ==> !OpensAt(m.lineage, k, m.lineage[i].payment)
    ensures var link, record, s := m.lineage[i], m.records[i], m.lineage[j].payload;
      && record.eventId == link.eventId && record.payment == link.commandPayment == link.payment
      && record.amount == s.amount && record.currency == s.currency
      && link.actor == s.actor && link.counterparty == s.counterparty
  {
    assert EventOk(m, i);
    j := OpenedAt(m.lineage, i + 1, m.lineage[i].payment);
    hide EventOk, LastOpening, LastEvent, OpensAt, Positions, PostingsOf;
  }

  /** One event is a whole accepted manifest exactly when its command opens a payment and it is recorded as
      that command, on any rail. */
  lemma LoneEventIff(rail: Rail, c: Command, k: Kind, s: Opening)
    ensures Accepted(Play(rail, [Step(c, k, s)]))
       <==> (c == A2aInitiate || c == CardAuthorize || c == CardDecline || c.AgenticPay?) && RecordedAs(c, k)
  {
    var steps := [Step(c, k, s)];
    var m := Play(rail, steps);
    if Accepted(m) {
      KindIff(m, 0, k);
      var j := OpeningRepeated(m, 0);
      hide Accepted, RecordedAs;
    } else if (c == A2aInitiate || c == CardAuthorize || c == CardDecline || c.AgenticPay?) && RecordedAs(c, k) {
      KindOf(c, k);
      LoneConserves(rail, c, k, s);
      PlayIsAccepted(rail, steps);
    }
  }

  lemma LoneConserves(rail: Rail, c: Command, k: Kind, s: Opening)
    requires (c == A2aInitiate || c == CardAuthorize || c == CardDecline || c.AgenticPay?) && RecordedAs(c, k)
    ensures Quiet(rail, Step(c, k, s)) || Conserving(rail, Moved(s, k))
  {
    OneSum(s.payer, s.amount, LineAmount());
    OneSum(s.hold, s.amount, LineAmount());
    OneSum(s.payee, s.amount, LineAmount());
    hide Sum, One;
  }
}
