/** The execution-manifest replay: interleaved payment lifecycles on the card, account-to-account
    and agentic rails, and the double-entry postings they imply. */
module Ledger {
  import opened Aggregates

  datatype Rail = Card | A2A | Agentic

  datatype Command =
    | A2aInitiate | A2aAccept | A2aReject | A2aPost | A2aReport | A2aFreeze | A2aRecover | A2aReturn
    | CardAuthorize | CardDecline | CardClear | CardSettle | CardReverse | CardReport | CardDispute
    | CardChargeback | CardRecover | CardRefund
    | AgenticPay(integrity: Integrity, action: Action)
    | UnknownCommand

  datatype Integrity = IntegrityPass | IntegrityFail | IntegrityOther
  datatype Action = ActionApprove | ActionChallenge | ActionDecline | ActionOther

  datatype Kind =
    | TransferInitiated | TransferAccepted | TransferRejected | TransferPosted | TransferReturned | FundsFrozen
    | Authorization | AuthorizationDeclined | AuthenticationChallenge | Clearing | Settlement | Reversal
    | FraudReported | DisputeOpened | Chargeback | Recovery | Refund

  /** The payload of a command that opens a payment. */
  datatype Opening = Opening(amount: real, fee: real, currency: string, payer: string, payee: string, hold: string,
                             feeAccount: string, chargeback: string, frozen: string, actor: string,
                             counterparty: string)

  datatype Link = Link(command: Command, eventId: string, payment: string, commandPayment: string,
                       actor: string, counterparty: string, position: int, payload: Opening)

  datatype Record = Record(eventId: string, payment: string, kind: Kind, amount: real, currency: string,
                           previous: string)

  type Lines = seq<(string, real)>

  datatype Posting = Posting(entryId: string, debit: Lines, credit: Lines, currency: string)

  datatype Manifest = Manifest(rail: Rail, lineage: seq<Link>, records: seq<Record>,
                               postings: seq<Posting>, entryIds: seq<string>)

  // ---------------------------------------------------------------- what one event implies

  predicate Opens(c: Command)
  {
    c.A2aInitiate? || c.CardAuthorize? || c.CardDecline? || c.AgenticPay?
  }

  function ExpectedKind(c: Command): Option<Kind>
  {
    match c
    case A2aInitiate => Some(TransferInitiated)
    case A2aAccept => Some(TransferAccepted)
    case A2aReject => Some(TransferRejected)
    case A2aPost => Some(TransferPosted)
    case A2aReport => Some(FraudReported)
    case A2aFreeze => Some(FundsFrozen)
    case A2aRecover => Some(Recovery)
    case A2aReturn => Some(TransferReturned)
    case CardAuthorize => Some(Authorization)
    case CardDecline => Some(AuthorizationDeclined)
    case CardClear => Some(Clearing)
    case CardSettle => Some(Settlement)
    case CardReverse => Some(Reversal)
    case CardReport => Some(FraudReported)
    case CardDispute => Some(DisputeOpened)
    case CardChargeback => Some(Chargeback)
    case CardRecover => Some(Recovery)
    case CardRefund => Some(Refund)
    case AgenticPay(integrity, action) =>
      if integrity == IntegrityFail || action == ActionDecline then Some(AuthorizationDeclined)
      else if integrity == IntegrityPass && action == ActionChallenge then Some(AuthenticationChallenge)
      else if integrity == IntegrityPass && action == ActionApprove then Some(Authorization)
      else None
    case UnknownCommand => None
  }

  /** A dictionary literal of two items, listed by key: a repeated key keeps its later value. */
  function Two(k1: string, v1: real, k2: string, v2: real): (r: Lines)
    ensures |r| == (if k1 == k2 then 1 else 2) && (|r| == 2 ==> StringLe(r[0].0, r[1].0))
  {
    StringTotal(k1, k2);
    if k1 == k2 then [(k2, v2)]
    else if StringLe(k1, k2) then [(k1, v1), (k2, v2)]
    else [(k2, v2), (k1, v1)]
  }

  function One(k: string, v: real): Lines { [(k, v)] }

  datatype Move = Move(suffix: string, debit: Lines, credit: Lines)

  /** `_expected_ledger`, without the entry id and the currency. */
  function Movement(rail: Rail, kind: Kind, s: Opening): Option<Move>
  {
    match rail
    case Card => CardMovement(kind, s)
    case A2A => TransferMovement(kind, s)
    case Agentic => AgenticMovement(kind, s)
  }

  function CardMovement(kind: Kind, s: Opening): Option<Move>
  {
    match kind
    case Authorization => Some(Move("hold", One(s.payer, s.amount), One(s.hold, s.amount)))
    case Reversal => Some(Move("release", One(s.hold, s.amount), One(s.payer, s.amount)))
    case Settlement => Some(Move("settle", One(s.hold, s.amount), Two(s.payee, s.amount - s.fee, s.feeAccount, s.fee)))
    case Refund => Some(Move("refund", Two(s.payee, s.amount - s.fee, s.feeAccount, s.fee), One(s.payer, s.amount)))
    case Chargeback =>
      Some(Move("chargeback", Two(s.payee, s.amount - s.fee, s.feeAccount, s.fee), One(s.chargeback, s.amount)))
    case Recovery => Some(Move("recovery", One(s.chargeback, s.amount), One(s.payer, s.amount)))
    case _ => None
  }

  function TransferMovement(kind: Kind, s: Opening): Option<Move>
  {
    match kind
    case TransferPosted =>
      Some(Move("post", One(s.payer, s.amount + s.fee), Two(s.payee, s.amount, s.feeAccount, s.fee)))
    case TransferReturned => Some(Move("return", One(s.payee, s.amount), One(s.payer, s.amount)))
    case FundsFrozen => Some(Move("freeze", One(s.payee, s.amount), One(s.frozen, s.amount)))
    case Recovery => Some(Move("recovery", One(s.frozen, s.amount), One(s.payer, s.amount)))
    case _ => None
  }

  function AgenticMovement(kind: Kind, s: Opening): Option<Move>
  {
    match kind
    case Authorization => Some(Move("agentic-payment", One(s.payer, s.amount), One(s.payee, s.amount)))
    case _ => None
  }

  function Expected(eventId: string, rail: Rail, kind: Kind, s: Opening): seq<Posting>
  {
    var m := Movement(rail, kind, s);
    if m.None? then [] else [Posting(eventId + ":" + m.value.suffix, m.value.debit, m.value.credit, s.currency)]
  }

  // ---------------------------------------------------------------- specification of acceptance

  /** The payload in force for a payment after the first n links: that of its last opening. */
  function LastOpening(links: seq<Link>, n: nat, p: string): Option<Opening>
    requires n <= |links|
  {
    if n == 0 then None
    else if links[n - 1].payment == p && Opens(links[n - 1].command) then Some(links[n - 1].payload)
    else LastOpening(links, n - 1, p)
  }

  function LastEvent(links: seq<Link>, n: nat, p: string): string
    requires n <= |links|
  {
    if n == 0 then "" else if links[n - 1].payment == p then links[n - 1].eventId else LastEvent(links, n - 1, p)
  }

  function Positions(links: seq<Link>, n: nat, p: string): seq<int>
    requires n <= |links|
  {
    if n == 0 then [] else
      Positions(links, n - 1, p) + if links[n - 1].payment == p then [links[n - 1].position] else []
  }

  ghost predicate EventOk(m: Manifest, i: nat)
    requires i < |m.lineage| == |m.records|
  {
    var link, record := m.lineage[i], m.records[i];
    var opening := LastOpening(m.lineage, i + 1, link.payment);
    && link.commandPayment == link.payment == record.payment
    && opening.Some?
    && record.amount == opening.value.amount && record.currency == opening.value.currency
    && link.actor == opening.value.actor && link.counterparty == opening.value.counterparty
    && record.previous == LastEvent(m.lineage, i, link.payment)
    && ExpectedKind(link.command) == Some(record.kind)
  }

  /** The postings that event i implies under the opening in force. */
  function Implied(m: Manifest, i: nat): seq<Posting>
    requires i < |m.lineage| == |m.records|
  {
    var opening := LastOpening(m.lineage, i + 1, m.lineage[i].payment);
    if opening.None? then [] else Expected(m.records[i].eventId, m.rail, m.records[i].kind, opening.value)
  }

  /** The postings of the first n events, restricted to the payments that `chosen` admits. */
  function PostingsOf(m: Manifest, n: nat, chosen: string -> bool): seq<Posting>
    requires n <= |m.lineage| == |m.records|
  {
    if n == 0 then []
    else PostingsOf(m, n - 1, chosen) + if chosen(m.lineage[n - 1].payment) then Implied(m, n - 1) else []
  }

  function Everyone(): string -> bool { (p: string) => true }
  function Only(p: string): string -> bool { (q: string) => q == p }
  function Except(p: string): string -> bool { (q: string) => q != p }

  function LineAmount(): ((string, real)) -> real { (l: (string, real)) => l.1 }

  predicate Conserves(p: Posting)
  {
    Sum(LineAmount(), p.debit) == Sum(LineAmount(), p.credit)
  }

  ghost predicate Aligned(m: Manifest)
  {
    && 0 < |m.lineage| == |m.records|
    && (forall i :: 0 <= i < |m.lineage| ==> m.lineage[i].eventId == m.records[i].eventId)
    && (forall i, j :: 0 <= i < j < |m.lineage| ==> m.lineage[i].eventId != m.lineage[j].eventId)
  }

  function EntryId(): Posting -> string { (p: Posting) => p.entryId }

  function Ascending(n: nat): seq<int> { seq(n, i => i) }

  ghost predicate Accepted(m: Manifest)
  {
    && Aligned(m)
    && (forall i :: 0 <= i < |m.lineage| ==> EventOk(m, i))
    && (forall p :: Positions(m.lineage, |m.lineage|, p) == Ascending(|Positions(m.lineage, |m.lineage|, p)|))
    && m.postings == PostingsOf(m, |m.lineage|, Everyone())
    && m.entryIds == Map(EntryId(), m.postings)
    && (forall p :: p in m.postings ==> Conserves(p))
  }

  // ---------------------------------------------------------------- the replay

  datatype Verdict = Ok | NotAligned | OrderDiffers | DuplicateEvent | PaymentMismatch | NoOpening | EconomicsDiffer
                   | PreviousDiffers | KindDiffers | PositionsDiffer | PostingsDiffer | IndexDiffers | NotConserving

  ghost predicate Tracks(m: Manifest, n: nat, states: map<string, Opening>, previous: map<string, string>,
                         positions: map<string, seq<int>>)
    requires n <= |m.lineage|
  {
    && (forall p :: LastOpening(m.lineage, n, p) == if p in states then Some(states[p]) else None)
    && (forall p :: LastEvent(m.lineage, n, p) == if p in previous then previous[p] else "")
    && (forall p :: Positions(m.lineage, n, p) == if p in positions then positions[p] else [])
  }

  lemma TracksStep(m: Manifest, i: nat, states: map<string, Opening>, previous: map<string, string>,
                   positions: map<string, seq<int>>)
    requires i < |m.lineage| == |m.records| && Tracks(m, i, states, previous, positions)
    ensures var link := m.lineage[i];
      Tracks(m, i + 1,
             if Opens(link.command) then states[link.payment := link.payload] else states,
             previous[link.payment := link.eventId],
             positions[link.payment :=
               (if link.payment in positions then positions[link.payment] else []) + [link.position]])
  {
    hide LastOpening, LastEvent, Positions, Opens;
    OpeningsStep(m.lineage, i, states);
    EventsStep(m.lineage, i, previous);
    PositionsStep(m.lineage, i, positions);
  }

  lemma OpeningsStep(links: seq<Link>, i: nat, states: map<string, Opening>)
    requires i < |links| && forall p :: LastOpening(links, i, p) == if p in states then Some(states[p]) else None
    ensures var after := if Opens(links[i].command) then states[links[i].payment := links[i].payload] else states;
      forall p :: LastOpening(links, i + 1, p) == if p in after then Some(after[p]) else None
  {
    hide LastOpening, Opens;
    var link := links[i];
    var after := if Opens(link.command) then states[link.payment := link.payload] else states;
    forall p ensures LastOpening(links, i + 1, p) == if p in after then Some(after[p]) else None {
      LookupsSnoc(links, i, p);
      assert LastOpening(links, i, p) == if p in states then Some(states[p]) else None;
    }
  }

  lemma EventsStep(links: seq<Link>, i: nat, previous: map<string, string>)
    requires i < |links| && forall p :: LastEvent(links, i, p) == if p in previous then previous[p] else ""
    ensures var after := previous[links[i].payment := links[i].eventId];
      forall p :: LastEvent(links, i + 1, p) == if p in after then after[p] else ""
  {
    hide LastEvent;
    forall p { LookupsSnoc(links, i, p); }
  }

  lemma PositionsStep(links: seq<Link>, i: nat, positions: map<string, seq<int>>)
    requires i < |links| && forall p :: Positions(links, i, p) == if p in positions then positions[p] else []
    ensures var p' := links[i].payment;
      var after := positions[p' := (if p' in positions then positions[p'] else []) + [links[i].position]];
      forall p :: Positions(links, i + 1, p) == if p in after then after[p] else []
  {
    hide Positions;
    forall p { LookupsSnoc(links, i, p); }
  }

  lemma LookupsSnoc(links: seq<Link>, i: nat, p: string)
    requires i < |links|
    ensures LastEvent(links, i + 1, p) == if p == links[i].payment then links[i].eventId else LastEvent(links, i, p)
    ensures Positions(links, i + 1, p) == Positions(links, i, p)
        + if p == links[i].payment then [links[i].position] else []
    ensures LastOpening(links, i + 1, p)
         == if p == links[i].payment && Opens(links[i].command) then Some(links[i].payload)
            else LastOpening(links, i, p)
  {
  }

  /** The checks on one event, in order, against the dictionaries kept so far. */
  method ReplayEvent(m: Manifest, i: nat, states: map<string, Opening>, previous: map<string, string>,
                     positions: map<string, seq<int>>)
    returns (v: Verdict, states': map<string, Opening>, previous': map<string, string>,
             positions': map<string, seq<int>>, posting: seq<Posting>)
    requires i < |m.lineage| == |m.records| && Tracks(m, i, states, previous, positions)
    ensures v == Ok <==> EventOk(m, i)
    ensures v == Ok ==> Tracks(m, i + 1, states', previous', positions')
    ensures v == Ok ==> PostingsOf(m, i + 1, Everyone()) == PostingsOf(m, i, Everyone()) + posting
  {
    hide LastOpening, LastEvent, Positions, ExpectedKind, Expected;
    var link, record := m.lineage[i], m.records[i];
    states', previous', positions', posting := states, previous, positions, [];
    TracksStep(m, i, states, previous, positions);
    if link.commandPayment != link.payment || record.payment != link.payment {
      return PaymentMismatch, states', previous', positions', posting;
    }
    if Opens(link.command) {
      states' := states'[link.payment := link.payload];
    }
    if link.payment !in states' {
      return NoOpening, states', previous', positions', posting;
    }
    var state := states'[link.payment];
    if record.amount != state.amount || record.currency != state.currency
       || link.actor != state.actor || link.counterparty != state.counterparty {
      return EconomicsDiffer, states', previous', positions', posting;
    }
    if record.previous != (if link.payment in previous then previous[link.payment] else "") {
      return PreviousDiffers, states', previous', positions', posting;
    }
    previous' := previous'[link.payment := link.eventId];
    positions' := positions'[link.payment :=
      (if link.payment in positions then positions[link.payment] else []) + [link.position]];
    if ExpectedKind(link.command) != Some(record.kind) {
      return KindDiffers, states', previous', positions', posting;
    }
    posting := Expected(record.eventId, m.rail, record.kind, state);
    return Ok, states', previous', positions', posting;
  }

  /** `_verify_manifest` from the alignment checks to the conservation check. */
  method Replay(m: Manifest) returns (v: Verdict)
    ensures v == Ok <==> Accepted(m)
  {
    hide PostingsOf, LastOpening, LastEvent, Positions, EventOk, ExpectedKind, Conserves;
    if |m.lineage| == 0 || |m.lineage| != |m.records| {
      return NotAligned;
    }
    var n := |m.lineage|;
    if exists i :: 0 <= i < n && m.lineage[i].eventId != m.records[i].eventId {
      return OrderDiffers;
    }
    if exists i, j :: 0 <= i < j < n && m.lineage[i].eventId == m.lineage[j].eventId {
      return DuplicateEvent;
    }
    var states: map<string, Opening>, previous: map<string, string>, positions: map<string, seq<int>>
      := map[], map[], map[];
    var expected: seq<Posting> := [];
    StartTracks(m);
    for i := 0 to n
      invariant Tracks(m, i, states, previous, positions)
      invariant forall j :: 0 <= j < i ==> EventOk(m, j)
      invariant expected == PostingsOf(m, i, Everyone())
    {
      var posting;
      v, states, previous, positions, posting := ReplayEvent(m, i, states, previous, positions);
      if v != Ok {
        return v;
      }
      expected := expected + posting;
    }
    if exists p :: p in positions && positions[p] != Ascending(|positions[p]|) {
      return PositionsDiffer;
    }
    assert forall p :: Positions(m.lineage, n, p) == Ascending(|Positions(m.lineage, n, p)|);
    if expected != m.postings {
      return PostingsDiffer;
    }
    if Map(EntryId(), expected) != m.entryIds {
      return IndexDiffers;
    }
    if exists p :: p in expected && !Conserves(p) {
      return NotConserving;
    }
    return Ok;
  }

  lemma StartTracks(m: Manifest)
    requires |m.lineage| == |m.records|
    ensures Tracks(m, 0, map[], map[], map[])
    ensures PostingsOf(m, 0, Everyone()) == []
  {
  }

  // ---------------------------------------------------------------- one chain per payment

  lemma {:induction false} PositionsPrefix(links: seq<Link>, i: nat, n: nat, p: string)
    requires i <= n <= |links|
    ensures Positions(links, i, p) <= Positions(links, n, p)
  {
    if i < n { PositionsPrefix(links, i, n - 1, p); }
  }

  /** The last event of p among the first n, when there is one, has the highest position. */
  lemma {:induction false} LastEventAt(links: seq<Link>, n: nat, p: string) returns (j: nat)
    requires n <= |links| && Positions(links, n, p) != []
    ensures j < n && links[j].payment == p && links[j].eventId == LastEvent(links, n, p)
    ensures Positions(links, j, p) + [links[j].position] == Positions(links, n, p)
  {
    if links[n - 1].payment == p {
      j := n - 1;
    } else {
      j := LastEventAt(links, n - 1, p);
    }
  }

  lemma {:induction false} NoEvents(links: seq<Link>, n: nat, p: string)
    requires n <= |links| && Positions(links, n, p) == []
    ensures LastEvent(links, n, p) == ""
  {
    if n > 0 { NoEvents(links, n - 1, p); }
  }

  /** However payments interleave, the event at position k > 0 of a payment names the event at
      position k - 1 of the same payment as its predecessor, and the one at 0 names none. */
  lemma PaymentChain(m: Manifest, i: nat) returns (j: nat)
    requires Accepted(m) && i < |m.lineage|
    ensures m.lineage[i].position == |Positions(m.lineage, i, m.lineage[i].payment)|
    ensures m.lineage[i].position == 0 ==> m.records[i].previous == ""
    ensures m.lineage[i].position > 0 ==>
              && j < i && m.lineage[j].payment == m.lineage[i].payment
              && m.lineage[j].position == m.lineage[i].position - 1
              && m.records[i].previous == m.lineage[j].eventId
  {
    var links, p, n := m.lineage, m.lineage[i].payment, |m.lineage|;
    assert EventOk(m, i);
    PositionsPrefix(links, i + 1, n, p);
    var before, all := Positions(links, i, p), Positions(links, n, p);
    assert (before + [links[i].position])[|before|] == all[|before|] == |before|;
    if before == [] {
      NoEvents(links, i, p);
      j := 0;
    } else {
      j := LastEventAt(links, i, p);
      PositionsPrefix(links, i, n, p);
      assert before[|before| - 1] == all[|before| - 1] == |before| - 1;
      assert links[j].position == before[|before| - 1];
    }
  }

  // ---------------------------------------------------------------- entries

  /** A name built from an event id and a suffix without a colon tells both. */
  lemma NameTells(a: string, s: string, b: string, t: string)
    requires a + ":" + s == b + ":" + t && ':' !in s && ':' !in t
    ensures a == b && s == t
  {
    var name := a + ":" + s;
    assert name[|a|] == ':' && name[|b|] == ':';
    forall k | |a| < k < |name| ensures name[k] != ':' {
      assert name[k] == s[k - |a| - 1];
    }
    forall k | |b| < k < |name| ensures name[k] != ':' {
      assert name[k] == t[k - |b| - 1];
    }
    assert |a| == |b|;
    assert name[..|a|] == a && name[|a| + 1..] == s;
  }

  lemma ImpliedName(m: Manifest, i: nat)
    requires i < |m.lineage| == |m.records| && Implied(m, i) != []
    ensures |Implied(m, i)| == 1
    ensures exists s: string :: ':' !in s && Implied(m, i)[0].entryId == m.records[i].eventId + ":" + s
  {
    hide LastOpening;
    var o := LastOpening(m.lineage, i + 1, m.lineage[i].payment).value;
    SuffixPlain(m.rail, m.records[i].kind, o);
    hide Movement;
    assert Implied(m, i)[0].entryId == m.records[i].eventId + ":" + Movement(m.rail, m.records[i].kind, o).value.suffix;
  }

  lemma SuffixPlain(rail: Rail, k: Kind, s: Opening)
    ensures var v := Movement(rail, k, s); v.Some? ==> ':' !in v.value.suffix
  {
    hide Two;
  }

  /** The event a posting comes from. */
  lemma {:induction false} PostedBy(m: Manifest, n: nat, k: nat) returns (i: nat)
    requires n <= |m.lineage| == |m.records| && k < |PostingsOf(m, n, Everyone())|
    ensures i < n && Implied(m, i) == [PostingsOf(m, n, Everyone())[k]] && |PostingsOf(m, i, Everyone())| == k
  {
    hide Implied;
    if Implied(m, n - 1) != [] { ImpliedName(m, n - 1); }
    if k < |PostingsOf(m, n - 1, Everyone())| {
      i := PostedBy(m, n - 1, k);
    } else {
      i := n - 1;
    }
  }

  /** The index of an accepted manifest lists the entries of its postings in order, and names no entry twice. */
  lemma EntriesNamedOnce(m: Manifest, j: nat, k: nat)
    requires Accepted(m) && j < k < |m.postings|
    ensures |m.entryIds| == |m.postings| && m.entryIds[j] == m.postings[j].entryId
    ensures m.entryIds[j] != m.entryIds[k] && m.postings[j] != m.postings[k]
  {
    var x := PostedBy(m, |m.lineage|, j);
    var y := PostedBy(m, |m.lineage|, k);
    ImpliedName(m, x);
    ImpliedName(m, y);
    var s: string :| ':' !in s && m.postings[j].entryId == m.records[x].eventId + ":" + s;
    var t: string :| ':' !in t && m.postings[k].entryId == m.records[y].eventId + ":" + t;
    assert x != y;
    assert m.lineage[x].eventId != m.lineage[y].eventId;
    if m.postings[j].entryId == m.postings[k].entryId {
      NameTells(m.records[x].eventId, s, m.records[y].eventId, t);
    }
  }

  // ---------------------------------------------------------------- balances

  function On(account: string): ((string, real)) -> real
  {
    (l: (string, real)) => if l.0 == account then l.1 else 0.0
  }

  /** What a posting adds to an account in a currency: credits less debits. */
  function Change(account: string, currency: string): Posting -> real
  {
    (p: Posting) => if p.currency == currency then Sum(On(account), p.credit) - Sum(On(account), p.debit) else 0.0
  }

  function Balance(postings: seq<Posting>, account: string, currency: string): real
  {
    Sum(Change(account, currency), postings)
  }

  /** Credits less debits over all accounts. */
  function Imbalance(currency: string): Posting -> real
  {
    (p: Posting) => if p.currency == currency then Sum(LineAmount(), p.credit) - Sum(LineAmount(), p.debit) else 0.0
  }

  /** Every prefix of an accepted manifest's postings nets to zero in every currency. */
  lemma PrefixNetsToZero(m: Manifest, k: nat, currency: string)
    requires Accepted(m) && k <= |m.postings|
    ensures Sum(Imbalance(currency), m.postings[..k]) == 0.0
  {
    hide PostingsOf, EventOk, Positions, Sum;
    assert forall p :: p in m.postings[..k] ==> p in m.postings;
    SumConstant(Imbalance(currency), 0.0, m.postings[..k]);
  }

  lemma NoBalance(m: Manifest, chosen: string -> bool, account: string, currency: string)
    requires |m.lineage| == |m.records|
    ensures Balance(PostingsOf(m, 0, chosen), account, currency) == 0.0
  {
  }

  lemma BalanceSnoc(m: Manifest, n: nat, chosen: string -> bool, account: string, currency: string)
    requires 0 < n <= |m.lineage| == |m.records|
    ensures Balance(PostingsOf(m, n, chosen), account, currency)
         == Balance(PostingsOf(m, n - 1, chosen), account, currency)
            + if chosen(m.lineage[n - 1].payment) then Balance(Implied(m, n - 1), account, currency) else 0.0
  {
    SumConstant(Change(account, currency), 0.0, []);
    hide Implied, Sum, Change;
    SumAppend(Change(account, currency), PostingsOf(m, n - 1, chosen),
              if chosen(m.lineage[n - 1].payment) then Implied(m, n - 1) else []);
  }

  /** A payment's postings can be taken out from wherever they are interleaved: the balances
      are those of the payment plus those of all the others. */
  lemma {:induction false} PaymentsAddUp(m: Manifest, n: nat, p: string, account: string, currency: string)
    requires n <= |m.lineage| == |m.records|
    ensures Balance(PostingsOf(m, n, Everyone()), account, currency)
         == Balance(PostingsOf(m, n, Only(p)), account, currency)
           + Balance(PostingsOf(m, n, Except(p)), account, currency)
  {
    hide PostingsOf, Balance, Implied;
    if n == 0 {
      NoBalance(m, Everyone(), account, currency);
      NoBalance(m, Only(p), account, currency);
      NoBalance(m, Except(p), account, currency);
    } else {
      PaymentsAddUp(m, n - 1, p, account, currency);
      BalanceSnoc(m, n, Everyone(), account, currency);
      BalanceSnoc(m, n, Only(p), account, currency);
      BalanceSnoc(m, n, Except(p), account, currency);
    }
  }
}
