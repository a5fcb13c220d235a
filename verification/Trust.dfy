/** The trust replay of agentic requests: ordered checks, one-use nonces, one-use step-up
    evidence and a receipt chain. Hashes and signature verification are parameters. */
module Trust {
  import opened Aggregates

  datatype Mandate = Mandate(mandateId: string, agentId: string, userRef: string, userEntity: string,
                             beneficiaryEntity: string, consent: string, merchant: string, payee: string,
                             cart: string, intent: string, categories: seq<string>, products: seq<string>,
                             credential: string, scope: string, stepUp: bool, maxAmount: real, currency: string,
                             issuedAt: real, expiresAt: real, details: string)

  /** evidenceRef is blank when the request carries none. */
  datatype Request = Request(requestId: string, agentId: string, keyId: string, mandate: Mandate, amount: real,
                             currency: string, merchant: string, payee: string, cart: string, intent: string,
                             category: string, product: string, credential: string, scope: string, consent: string,
                             evidenceRef: string, nonce: string, createdAt: real, expiresAt: real,
                             priorReceipt: string, actor: string, counterparty: string, details: string)

  datatype Evidence = Evidence(agentId: string, userRef: string, mandateId: string, nonce: string, intent: string,
                               requestId: string, stepUpVerified: bool, issuedAt: real, expiresAt: real,
                               details: string)

  datatype Registry = Registry(agentId: string, keyId: string, publicKey: string, approved: Mandate,
                               evidence: map<string, Evidence>)

  datatype Reason =
    | AgentIdentityMismatch | SignatureInvalid | MandateScopeViolation | AuthorityIdentityMismatch
    | AmountLimitExceeded | CurrencyMismatch | MerchantBindingMismatch | PayeeBindingMismatch
    | CategoryScopeViolation | ProductScopeViolation | CartHashMismatch | PaymentIntentHashMismatch
    | CredentialBindingMismatch | TokenScopeViolation | ConsentBindingMismatch | MandateTimeScopeViolation
    | MandateExpired | NonceReplay | ReceiptChainBroken | AuthenticationEvidenceReplay
    | AuthenticationEvidenceMissing | AuthenticationEvidenceMismatch | AuthenticationEvidenceExpired

  datatype Record = Record(eventId: string, requestId: string, agentId: string, keyId: string, mandateId: string,
                           publicKey: string, request: Request, mandate: Mandate, evidence: Option<Evidence>,
                           receipt: string, requestHash: string, signatureHash: string, allowed: bool,
                           reason: Option<Reason>, outcome: string)

  datatype ReceiptBody = ReceiptBody(agentId: string, nonce: string, evidenceRef: string, requestHash: string,
                                     signatureHash: string, previous: string, outcome: string)

  datatype FailureBody = FailureBody(requestId: string, requestHash: string, signatureHash: string, reason: Reason,
                                     prior: string)

  /** The library calls: SHA-256 over each domain, and Ed25519 verification under a public key. */
  datatype Oracle = Oracle(requestHash: Request -> string, signatureHash: Request -> string,
                           valid: (string, Request) -> bool,
                           receipt: ReceiptBody -> string, failure: FailureBody -> string)

  datatype State = State(nonces: set<string>, evidence: set<string>, last: string)

  const START := State({}, {}, "")

  // ---------------------------------------------------------------- the ordered checks

  /** `_expected_trust_reason`. */
  function ExpectedReason(r: Request, g: Registry, valid: bool, now: real, s: State): Option<Reason>
  {
    var a := g.approved;
    if r.agentId != g.agentId || r.keyId != g.keyId then Some(AgentIdentityMismatch)
    else if !valid then Some(SignatureInvalid)
    else if r.mandate != a || r.mandate.agentId != r.agentId then Some(MandateScopeViolation)
    else if r.actor != a.userEntity || r.counterparty != a.beneficiaryEntity then Some(AuthorityIdentityMismatch)
    else if r.amount > a.maxAmount then Some(AmountLimitExceeded)
    else if r.currency != a.currency then Some(CurrencyMismatch)
    else if r.merchant != a.merchant then Some(MerchantBindingMismatch)
    else if r.payee != a.payee then Some(PayeeBindingMismatch)
    else if r.category !in a.categories then Some(CategoryScopeViolation)
    else if r.product !in a.products then Some(ProductScopeViolation)
    else if r.cart != a.cart then Some(CartHashMismatch)
    else if r.intent != a.intent then Some(PaymentIntentHashMismatch)
    else if r.credential != a.credential then Some(CredentialBindingMismatch)
    else if r.scope != a.scope then Some(TokenScopeViolation)
    else if r.consent != a.consent then Some(ConsentBindingMismatch)
    else if r.createdAt < a.issuedAt || r.expiresAt > a.expiresAt then Some(MandateTimeScopeViolation)
    else if now < r.createdAt || now < a.issuedAt || now >= r.expiresAt || now >= a.expiresAt then Some(MandateExpired)
    else if r.nonce in s.nonces then Some(NonceReplay)
    else if r.priorReceipt != s.last then Some(ReceiptChainBroken)
    else if a.stepUp then StepUpReason(r, g, now, s)
    else None
  }

  function StepUpReason(r: Request, g: Registry, now: real, s: State): Option<Reason>
  {
    if r.evidenceRef in s.evidence then Some(AuthenticationEvidenceReplay)
    else if r.evidenceRef !in g.evidence then Some(AuthenticationEvidenceMissing)
    else
      var e := g.evidence[r.evidenceRef];
      if EvidenceDiffers(e, r, g) then Some(AuthenticationEvidenceMismatch)
      else if now < e.issuedAt || now >= e.expiresAt then Some(AuthenticationEvidenceExpired)
      else None
  }

  predicate EvidenceDiffers(e: Evidence, r: Request, g: Registry)
  {
    e.agentId != r.agentId || e.userRef != g.approved.userRef || e.mandateId != g.approved.mandateId
    || e.nonce != r.nonce || e.intent != r.intent || e.requestId != r.requestId || !e.stepUpVerified
  }

  /** Whether the check behind a reason fails, each on its own. */
  predicate Fails(x: Reason, r: Request, g: Registry, valid: bool, now: real, s: State)
  {
    var a := g.approved;
    var known := r.evidenceRef in g.evidence;
    match x
    case AgentIdentityMismatch => r.agentId != g.agentId || r.keyId != g.keyId
    case SignatureInvalid => !valid
    case MandateScopeViolation => r.mandate != a || r.mandate.agentId != r.agentId
    case AuthorityIdentityMismatch => r.actor != a.userEntity || r.counterparty != a.beneficiaryEntity
    case AmountLimitExceeded => r.amount > a.maxAmount
    case CurrencyMismatch => r.currency != a.currency
    case MerchantBindingMismatch => r.merchant != a.merchant
    case PayeeBindingMismatch => r.payee != a.payee
    case CategoryScopeViolation => r.category !in a.categories
    case ProductScopeViolation => r.product !in a.products
    case CartHashMismatch => r.cart != a.cart
    case PaymentIntentHashMismatch => r.intent != a.intent
    case CredentialBindingMismatch => r.credential != a.credential
    case TokenScopeViolation => r.scope != a.scope
    case ConsentBindingMismatch => r.consent != a.consent
    case MandateTimeScopeViolation => r.createdAt < a.issuedAt || r.expiresAt > a.expiresAt
    case MandateExpired => now < r.createdAt || now < a.issuedAt || now >= r.expiresAt || now >= a.expiresAt
    case NonceReplay => r.nonce in s.nonces
    case ReceiptChainBroken => r.priorReceipt != s.last
    case AuthenticationEvidenceReplay => a.stepUp && r.evidenceRef in s.evidence
    case AuthenticationEvidenceMissing => a.stepUp && !known
    case AuthenticationEvidenceMismatch =>
      a.stepUp && known && var e := g.evidence[r.evidenceRef];
        || e.agentId != r.agentId || e.userRef != a.userRef || e.mandateId != a.mandateId || e.nonce != r.nonce
        || e.intent != r.intent || e.requestId != r.requestId || !e.stepUpVerified
    case AuthenticationEvidenceExpired =>
      a.stepUp && known && (now < g.evidence[r.evidenceRef].issuedAt || now >= g.evidence[r.evidenceRef].expiresAt)
  }

  /** The position of a reason in the order of the checks. */
  function Row(r: Reason): (k: nat)
    ensures k < 23
  {
    match r
    case AgentIdentityMismatch => 0
    case SignatureInvalid => 1
    case MandateScopeViolation => 2
    case AuthorityIdentityMismatch => 3
    case AmountLimitExceeded => 4
    case CurrencyMismatch => 5
    case MerchantBindingMismatch => 6
    case PayeeBindingMismatch => 7
    case CategoryScopeViolation => 8
    case ProductScopeViolation => 9
    case CartHashMismatch => 10
    case PaymentIntentHashMismatch => 11
    case CredentialBindingMismatch => 12
    case TokenScopeViolation => 13
    case ConsentBindingMismatch => 14
    case MandateTimeScopeViolation => 15
    case MandateExpired => 16
    case NonceReplay => 17
    case ReceiptChainBroken => 18
    case AuthenticationEvidenceReplay => 19
    case AuthenticationEvidenceMissing => 20
    case AuthenticationEvidenceMismatch => 21
    case AuthenticationEvidenceExpired => 22
  }

  lemma ReasonFails(r: Request, g: Registry, valid: bool, now: real, s: State)
    ensures var e := ExpectedReason(r, g, valid, now, s); e.Some? ==> Fails(e.value, r, g, valid, now, s)
  {
  }

  lemma NoEarlierFailure(x: Reason, r: Request, g: Registry, valid: bool, now: real, s: State)
    requires Fails(x, r, g, valid, now, s)
    ensures var e := ExpectedReason(r, g, valid, now, s); e.Some? && Row(e.value) <= Row(x)
  {
  }

  /** The verdict is the first failing check, and None exactly when no check fails. */
  lemma ReasonIsFirstFailure(r: Request, g: Registry, valid: bool, now: real, s: State)
    ensures var e := ExpectedReason(r, g, valid, now, s);
      && (e == None <==> forall x :: !Fails(x, r, g, valid, now, s))
      && (e.Some? ==> Fails(e.value, r, g, valid, now, s)
                      && forall x :: Row(x) < Row(e.value) ==> !Fails(x, r, g, valid, now, s))
  {
    hide ExpectedReason, Fails, Row;
    ReasonFails(r, g, valid, now, s);
    forall x | Fails(x, r, g, valid, now, s)
      ensures var e := ExpectedReason(r, g, valid, now, s); e.Some? && Row(e.value) <= Row(x)
    {
      NoEarlierFailure(x, r, g, valid, now, s);
    }
  }

  // ---------------------------------------------------------------- specification of acceptance

  function Body(r: Record): ReceiptBody
  {
    ReceiptBody(r.request.agentId, r.request.nonce, r.request.evidenceRef, r.requestHash, r.signatureHash,
                r.request.priorReceipt, r.outcome)
  }

  /** `_receipt_hash`: blank for the outcome "rejected", even on an allowed record. */
  function ReceiptOf(o: Oracle, r: Record): string
  {
    if r.outcome == "rejected" then "" else o.receipt(Body(r))
  }

  function FailureOf(r: Record): FailureBody
    requires r.reason.Some?
  {
    FailureBody(r.request.requestId, r.requestHash, r.signatureHash, r.reason.value, r.request.priorReceipt)
  }

  function Advance(s: State, r: Record): State
  {
    if r.allowed
    then State(s.nonces + {r.request.nonce},
               if r.request.evidenceRef == "" then s.evidence else s.evidence + {r.request.evidenceRef},
               r.receipt)
    else s
  }

  function After(records: seq<Record>): State
  {
    if records == [] then START else Advance(After(records[..|records| - 1]), records[|records| - 1])
  }

  ghost predicate RecordOk(o: Oracle, g: Registry, times: map<string, real>, r: Record, s: State)
  {
    && r.request.mandate == r.mandate
    && r.requestId == r.request.requestId && r.agentId == r.request.agentId && r.keyId == r.request.keyId
    && r.mandateId == r.mandate.mandateId && r.publicKey == g.publicKey
    && r.requestHash == o.requestHash(r.request) && r.signatureHash == o.signatureHash(r.request)
    && r.eventId in times
    && r.reason == ExpectedReason(r.request, g, o.valid(g.publicKey, r.request), times[r.eventId], s)
    && r.allowed == r.reason.None?
    && r.evidence == (if r.request.evidenceRef in g.evidence then Some(g.evidence[r.request.evidenceRef]) else None)
    && (if r.allowed then r.receipt == ReceiptOf(o, r)
        else r.outcome == "rejected" && r.receipt == o.failure(FailureOf(r)))
  }

  ghost predicate Accepted(o: Oracle, g: Registry, times: map<string, real>, records: seq<Record>)
  {
    forall i :: 0 <= i < |records| ==> RecordOk(o, g, times, records[i], After(records[..i]))
  }

  datatype Verdict = Ok | RecordsOffRail | RegistryMissing | MandateDiffers | IdentityDiffers | HashMismatch
                   | EventMissing | VerdictDiffers | ReasonDiffers | EvidenceRecordDiffers | ReceiptDiffers
                   | FailureDiffers

  method VerifyRecord(o: Oracle, g: Registry, times: map<string, real>, r: Record, s: State) returns (v: Verdict)
    ensures v == Ok <==> RecordOk(o, g, times, r, s)
  {
    hide ExpectedReason;
    if r.request.mandate != r.mandate {
      return MandateDiffers;
    }
    if r.requestId != r.request.requestId || r.agentId != r.request.agentId || r.keyId != r.request.keyId
       || r.mandateId != r.mandate.mandateId || r.publicKey != g.publicKey {
      return IdentityDiffers;
    }
    if r.requestHash != o.requestHash(r.request) || r.signatureHash != o.signatureHash(r.request) {
      return HashMismatch;
    }
    if r.eventId !in times {
      return EventMissing;
    }
    var expected := ExpectedReason(r.request, g, o.valid(g.publicKey, r.request), times[r.eventId], s);
    if expected.None? != r.allowed {
      return VerdictDiffers;
    }
    if r.reason != expected {
      return ReasonDiffers;
    }
    if r.evidence != (if r.request.evidenceRef in g.evidence then Some(g.evidence[r.request.evidenceRef]) else None) {
      return EvidenceRecordDiffers;
    }
    if r.allowed {
      if ReceiptOf(o, r) != r.receipt {
        return ReceiptDiffers;
      }
    } else if o.failure(FailureOf(r)) != r.receipt || r.outcome != "rejected" {
      return FailureDiffers;
    }
    return Ok;
  }

  lemma AfterNone()
    ensures After([]) == START
  {
  }

  lemma AfterSnoc(records: seq<Record>, i: nat)
    requires i < |records|
    ensures After(records[..i + 1]) == Advance(After(records[..i]), records[i])
  {
    assert records[..i + 1][..i] == records[..i];
  }

  /** The loop of `_verify_trust`: the sets of used nonces and evidence and the last receipt,
      updated record by record. */
  method VerifyRecords(o: Oracle, g: Registry, times: map<string, real>, records: seq<Record>) returns (v: Verdict)
    ensures v == Ok <==> Accepted(o, g, times, records)
  {
    hide RecordOk, After;
    AfterNone();
    var usedNonces: set<string>, usedEvidence: set<string>, lastReceipt := {}, {}, "";
    for i := 0 to |records|
      invariant State(usedNonces, usedEvidence, lastReceipt) == After(records[..i])
      invariant forall j :: 0 <= j < i ==> RecordOk(o, g, times, records[j], After(records[..j]))
    {
      var r := records[i];
      v := VerifyRecord(o, g, times, r, State(usedNonces, usedEvidence, lastReceipt));
      if v != Ok {
        return v;
      }
      AfterSnoc(records, i);
      if r.allowed {
        usedNonces := usedNonces + {r.request.nonce};
        if r.request.evidenceRef != "" {
          usedEvidence := usedEvidence + {r.request.evidenceRef};
        }
        lastReceipt := r.receipt;
      }
    }
    return Ok;
  }

  /** `_verify_trust`: other rails must carry neither records nor a registry. */
  method VerifyTrust(o: Oracle, agentic: bool, registry: Option<Registry>, times: map<string, real>,
                     records: seq<Record>)
    returns (v: Verdict)
    ensures !agentic ==> (v == Ok <==> records == [] && registry == None)
    ensures agentic ==> (v == Ok <==> registry.Some? && Accepted(o, registry.value, times, records))
  {
    if !agentic {
      v := if records != [] || registry.Some? then RecordsOffRail else Ok;
    } else if registry.None? {
      v := RegistryMissing;
    } else {
      v := VerifyRecords(o, registry.value, times, records);
    }
  }

  // ---------------------------------------------------------------- what the state records

  /** The state is exactly the history of the earlier allowed records. */
  lemma {:induction false} AfterIsAllowedHistory(records: seq<Record>)
    ensures forall x :: x in After(records).nonces <==>
              exists j :: 0 <= j < |records| && records[j].allowed && records[j].request.nonce == x
    ensures forall x :: x in After(records).evidence <==>
              exists j :: 0 <= j < |records| && records[j].allowed && records[j].request.evidenceRef == x && x != ""
  {
    if records != [] {
      var n := |records| - 1;
      AfterIsAllowedHistory(records[..n]);
      assert forall j :: 0 <= j < n ==> records[..n][j] == records[j];
    }
  }

  lemma {:induction false} AfterLast(records: seq<Record>) returns (j: int)
    ensures -1 <= j < |records|
    ensures j >= 0 ==> records[j].allowed && After(records).last == records[j].receipt
    ensures j < 0 ==> After(records).last == ""
    ensures forall k :: j < k < |records| ==> !records[k].allowed
  {
    if records == [] {
      j := -1;
    } else {
      var n := |records| - 1;
      if records[n].allowed { j := n; } else { j := AfterLast(records[..n]); }
    }
  }

  lemma AllowedFacts(o: Oracle, g: Registry, times: map<string, real>, r: Record, s: State)
    requires RecordOk(o, g, times, r, s) && r.allowed
    ensures r.request.nonce !in s.nonces && r.request.priorReceipt == s.last && r.receipt == ReceiptOf(o, r)
    ensures g.approved.stepUp ==>
              && r.request.evidenceRef !in s.evidence && r.request.evidenceRef in g.evidence
              && g.evidence[r.request.evidenceRef].nonce == r.request.nonce
  {
  }

  /** Allowed requests have pairwise distinct nonces. */
  lemma NoncesDistinct(o: Oracle, g: Registry, times: map<string, real>, records: seq<Record>, i: nat, j: nat)
    requires Accepted(o, g, times, records) && i < j < |records| && records[i].allowed && records[j].allowed
    ensures records[i].request.nonce != records[j].request.nonce
  {
    hide RecordOk;
    AllowedFacts(o, g, times, records[j], After(records[..j]));
    AfterIsAllowedHistory(records[..j]);
    assert records[..j][i] == records[i];
  }

  /** Under a step-up mandate no evidence reference serves two allowed requests, not even the
      blank one: its evidence would have to name both nonces. */
  lemma StepUpEvidenceOneUse(o: Oracle, g: Registry, times: map<string, real>, records: seq<Record>, i: nat, j: nat)
    requires Accepted(o, g, times, records) && i < j < |records| && records[i].allowed && records[j].allowed
    requires g.approved.stepUp
    ensures records[i].request.evidenceRef != records[j].request.evidenceRef
  {
    hide RecordOk;
    NoncesDistinct(o, g, times, records, i, j);
    AllowedFacts(o, g, times, records[i], After(records[..i]));
    AllowedFacts(o, g, times, records[j], After(records[..j]));
  }

  /** Verified evidence of a request: issued to its agent for its user, mandate, nonce, intent and request. */
  predicate EvidenceOf(e: Evidence, r: Request, a: Mandate)
  {
    && e.stepUpVerified && e.agentId == r.agentId && e.userRef == a.userRef && e.mandateId == a.mandateId
    && e.nonce == r.nonce && e.intent == r.intent && e.requestId == r.requestId
  }

  /** Evidence that serves a request at a time is evidence of it, and neither too early nor expired. */
  predicate Serves(e: Evidence, r: Request, a: Mandate, now: real)
  {
    EvidenceOf(e, r, a) && e.issuedAt <= now < e.expiresAt
  }

  /** Under a step-up mandate every allowed request names registered evidence that serves it. */
  lemma StepUpEvidenceServes(o: Oracle, g: Registry, times: map<string, real>, records: seq<Record>, i: nat)
    requires Accepted(o, g, times, records) && i < |records| && records[i].allowed && g.approved.stepUp
    ensures var x := records[i];
      && x.eventId in times && x.request.evidenceRef in g.evidence
      && Serves(g.evidence[x.request.evidenceRef], x.request, g.approved, times[x.eventId])
  {
    var x, s := records[i], After(records[..i]);
    assert RecordOk(o, g, times, x, s);
    PassesIff(x.request, g, o.valid(g.publicKey, x.request), times[x.eventId], s);
    hide ExpectedReason, Accepted, After, Authorised, Serves;
  }

  /** Under a step-up mandate a request that passes the checks before the evidence is allowed exactly when
      it names registered evidence that serves it and that no earlier allowed request has named. */
  lemma StepUpAllowedIff(o: Oracle, g: Registry, times: map<string, real>, records: seq<Record>, i: nat)
    requires Accepted(o, g, times, records) && i < |records| && g.approved.stepUp && records[i].eventId in times
    requires var x := records[i];
      forall y :: Row(y) < 19
        ==> !Fails(y, x.request, g, o.valid(g.publicKey, x.request), times[x.eventId], After(records[..i]))
    ensures var x := records[i]; var name := x.request.evidenceRef;
      x.allowed
      <==> && name in g.evidence && Serves(g.evidence[name], x.request, g.approved, times[x.eventId])
           && forall j :: 0 <= j < i && records[j].allowed && name != "" ==> records[j].request.evidenceRef != name
  {
    var x, s := records[i], After(records[..i]);
    var valid, now := o.valid(g.publicKey, x.request), times[x.eventId];
    assert x.allowed <==> ExpectedReason(x.request, g, valid, now, s) == None by {
      assert RecordOk(o, g, times, x, s);
    }
    ReasonIsFirstFailure(x.request, g, valid, now, s);
    hide ExpectedReason, After, Fails, Accepted, Serves, Row;
    EvidenceChecksIff(x.request, g, valid, now, s);
    AfterIsAllowedHistory(records[..i]);
    assert forall j :: 0 <= j < i ==> records[..i][j] == records[j];
  }

  /** With the checks before them passed, the three evidence checks pass exactly for fresh evidence that serves. */
  lemma EvidenceChecksIff(r: Request, g: Registry, valid: bool, now: real, s: State)
    requires g.approved.stepUp && forall y :: Row(y) < 19 ==> !Fails(y, r, g, valid, now, s)
    ensures (forall y :: !Fails(y, r, g, valid, now, s))
       <==> && r.evidenceRef !in s.evidence && r.evidenceRef in g.evidence
            && Serves(g.evidence[r.evidenceRef], r, g.approved, now)
  {
    assert (forall y :: !Fails(y, r, g, valid, now, s))
      <==> && !Fails(AuthenticationEvidenceReplay, r, g, valid, now, s)
           && !Fails(AuthenticationEvidenceMissing, r, g, valid, now, s)
           && !Fails(AuthenticationEvidenceMismatch, r, g, valid, now, s)
           && !Fails(AuthenticationEvidenceExpired, r, g, valid, now, s) by {
      hide Fails;
      assert forall y :: Row(y) >= 19 ==> y in {AuthenticationEvidenceReplay, AuthenticationEvidenceMissing,
                                                AuthenticationEvidenceMismatch, AuthenticationEvidenceExpired};
    }
  }

  /** What an accepted record repeats of its request and registry, and what its receipt hashes. */
  lemma RecordShows(o: Oracle, g: Registry, times: map<string, real>, records: seq<Record>, i: nat)
    requires Accepted(o, g, times, records) && i < |records|
    ensures var x := records[i]; var r := x.request; var (h, s) := (o.requestHash(r), o.signatureHash(r));
      && x.requestId == r.requestId && x.agentId == r.agentId && x.keyId == r.keyId && x.publicKey == g.publicKey
      && x.mandate == r.mandate && x.mandateId == r.mandate.mandateId && x.requestHash == h && x.signatureHash == s
      && (x.evidence == None <==> r.evidenceRef !in g.evidence)
      && (r.evidenceRef in g.evidence ==> x.evidence == Some(g.evidence[r.evidenceRef]))
      && (if x.allowed then
            x.receipt == if x.outcome == "rejected" then ""
              else o.receipt(ReceiptBody(r.agentId, r.nonce, r.evidenceRef, h, s, r.priorReceipt, x.outcome))
          else
            && x.reason.Some? && x.outcome == "rejected"
            && x.receipt == o.failure(FailureBody(r.requestId, h, s, x.reason.value, r.priorReceipt)))
  {
    assert RecordOk(o, g, times, records[i], After(records[..i]));
  }

  /** What the mandate demands of a request at a time, whatever was allowed before. */
  predicate Authorised(r: Request, g: Registry, now: real)
  {
    var a := g.approved;
    && r.agentId == g.agentId == a.agentId && r.keyId == g.keyId && r.mandate == a
    && r.actor == a.userEntity && r.counterparty == a.beneficiaryEntity
    && r.amount <= a.maxAmount && r.currency == a.currency && r.merchant == a.merchant && r.payee == a.payee
    && r.category in a.categories && r.product in a.products && r.cart == a.cart && r.intent == a.intent
    && r.credential == a.credential && r.scope == a.scope && r.consent == a.consent
    && a.issuedAt <= r.createdAt <= now < r.expiresAt <= a.expiresAt
  }

  /** No earlier allowed request has used the nonce. */
  ghost predicate NonceFresh(records: seq<Record>, i: nat)
    requires i < |records|
  {
    forall j :: 0 <= j < i && records[j].allowed ==> records[j].request.nonce != records[i].request.nonce
  }

  /** The request continues the chain: from the receipt of the last record allowed before, or from none. */
  ghost predicate Continues(records: seq<Record>, i: nat)
    requires i < |records|
  {
    var prior := records[i].request.priorReceipt;
    && ((forall j :: 0 <= j < i ==> !records[j].allowed) ==> prior == "")
    && forall j :: 0 <= j < i && records[j].allowed && (forall k :: j < k < i ==> !records[k].allowed)
         ==> prior == records[j].receipt
  }

  /** An earlier allowed request has named the evidence, which has a name. */
  ghost predicate EvidenceUsed(records: seq<Record>, i: nat)
    requires i < |records|
  {
    var name := records[i].request.evidenceRef;
    name != "" && exists j :: 0 <= j < i && records[j].allowed && records[j].request.evidenceRef == name
  }

  /** The state before a record, told by the records themselves. */
  lemma HistoryTold(records: seq<Record>, i: nat)
    requires i < |records|
    ensures var s, r := After(records[..i]), records[i].request;
      && (r.nonce !in s.nonces <==> NonceFresh(records, i)) && (r.priorReceipt == s.last <==> Continues(records, i))
      && (r.evidenceRef in s.evidence <==> EvidenceUsed(records, i))
  {
    var before := records[..i];
    assert forall j :: 0 <= j < i ==> before[j] == records[j];
    AfterIsAllowedHistory(before);
    var last := AfterLast(before);
    hide After;
    if last >= 0 {
      assert records[last].allowed && forall k :: last < k < i ==> !records[k].allowed;
      forall j | 0 <= j < i && records[j].allowed && (forall k :: j < k < i ==> !records[k].allowed)
        ensures j == last
      {
        assert !(j < last) && !(last < j);
      }
    }
  }

  /** A record of an accepted sequence is allowed exactly when its request is signed and authorised, its nonce is
      fresh, it continues the chain, and under a step-up mandate it names unused evidence that serves it. */
  lemma AllowedIff(o: Oracle, g: Registry, times: map<string, real>, records: seq<Record>, i: nat)
    requires Accepted(o, g, times, records) && i < |records|
    ensures records[i].eventId in times
    ensures var r, now := records[i].request, times[records[i].eventId];
      records[i].allowed
      <==> && o.valid(g.publicKey, r) && Authorised(r, g, now) && NonceFresh(records, i) && Continues(records, i)
           && (g.approved.stepUp ==>
                 && !EvidenceUsed(records, i) && r.evidenceRef in g.evidence
                 && Serves(g.evidence[r.evidenceRef], r, g.approved, now))
  {
    assert RecordOk(o, g, times, records[i], After(records[..i]));
    HistoryTold(records, i);
    hide After, NonceFresh, Continues, EvidenceUsed;
    PassesIff(records[i].request, g, o.valid(g.publicKey, records[i].request), times[records[i].eventId],
              After(records[..i]));
  }

  lemma PassesIff(r: Request, g: Registry, valid: bool, now: real, s: State)
    ensures ExpectedReason(r, g, valid, now, s) == None
       <==> && valid && Authorised(r, g, now) && r.nonce !in s.nonces && r.priorReceipt == s.last
            && (g.approved.stepUp ==>
                  && r.evidenceRef !in s.evidence && r.evidenceRef in g.evidence
                  && Serves(g.evidence[r.evidenceRef], r, g.approved, now))
  {
  }

  /** What a signed and authorised request is refused for: a used nonce before a broken chain, and these before
      evidence that is used, unknown, of another request, or out of its time. */
  lemma HistoryRefusals(o: Oracle, g: Registry, times: map<string, real>, records: seq<Record>, i: nat)
    requires Accepted(o, g, times, records) && i < |records| && o.valid(g.publicKey, records[i].request)
    requires records[i].eventId in times && Authorised(records[i].request, g, times[records[i].eventId])
    ensures var reason, r, now := records[i].reason, records[i].request, times[records[i].eventId];
      var unused, linked := NonceFresh(records, i), Continues(records, i);
      var asked := unused && linked && g.approved.stepUp && !EvidenceUsed(records, i);
      && (reason == Some(NonceReplay) <==> !unused)
      && (reason == Some(ReceiptChainBroken) <==> unused && !linked)
      && (reason == Some(AuthenticationEvidenceReplay) <==>
            unused && linked && g.approved.stepUp && EvidenceUsed(records, i))
      && (reason == Some(AuthenticationEvidenceMissing) <==> asked && r.evidenceRef !in g.evidence)
      && (reason == Some(AuthenticationEvidenceMismatch) <==>
            && asked && r.evidenceRef in g.evidence
            && !EvidenceOf(g.evidence[r.evidenceRef], r, g.approved))
      && (reason == Some(AuthenticationEvidenceExpired) <==>
            && asked && r.evidenceRef in g.evidence && EvidenceOf(g.evidence[r.evidenceRef], r, g.approved)
            && !(g.evidence[r.evidenceRef].issuedAt <= now < g.evidence[r.evidenceRef].expiresAt))
  {
    assert RecordOk(o, g, times, records[i], After(records[..i]));
    HistoryTold(records, i);
    hide After, NonceFresh, Continues, EvidenceUsed;
    HistoryChecks(records[i].request, g, times[records[i].eventId], After(records[..i]));
  }

  lemma HistoryChecks(r: Request, g: Registry, now: real, s: State)
    requires Authorised(r, g, now)
    ensures ExpectedReason(r, g, true, now, s)
         == if r.nonce in s.nonces then Some(NonceReplay) else if r.priorReceipt != s.last then Some(ReceiptChainBroken)
            else if g.approved.stepUp then StepUpReason(r, g, now, s) else None
  {
  }

  /** The order of the checks. */
  lemma CheckedInOrder(k: nat)
    requires k < 23
    ensures Row([AgentIdentityMismatch, SignatureInvalid, MandateScopeViolation, AuthorityIdentityMismatch,
                 AmountLimitExceeded, CurrencyMismatch, MerchantBindingMismatch, PayeeBindingMismatch,
                 CategoryScopeViolation, ProductScopeViolation, CartHashMismatch, PaymentIntentHashMismatch,
                 CredentialBindingMismatch, TokenScopeViolation, ConsentBindingMismatch, MandateTimeScopeViolation,
                 MandateExpired, NonceReplay, ReceiptChainBroken, AuthenticationEvidenceReplay,
                 AuthenticationEvidenceMissing, AuthenticationEvidenceMismatch, AuthenticationEvidenceExpired][k]) == k
  {
  }

  // A registry under which something can be allowed at all, and two records it allows.

  predicate Usable(g: Registry)
  {
    && g.agentId == g.approved.agentId && g.approved.categories != [] && g.approved.products != []
    && g.approved.issuedAt < g.approved.expiresAt
  }

  /** A request that meets the mandate in every respect. */
  function Meeting(g: Registry, nonce: string, prior: string, evidenceRef: string): Request
    requires Usable(g)
  {
    var a := g.approved;
    Request("r", g.agentId, g.keyId, a, a.maxAmount, a.currency, a.merchant, a.payee, a.cart, a.intent,
            a.categories[0], a.products[0], a.credential, a.scope, a.consent, evidenceRef, nonce,
            a.issuedAt, a.expiresAt, prior, a.userEntity, a.beneficiaryEntity, "")
  }

  function Allowed(o: Oracle, g: Registry, r: Request, outcome: string): Record
  {
    var x := Record("e", r.requestId, r.agentId, r.keyId, r.mandate.mandateId, g.publicKey, r, r.mandate,
                    if r.evidenceRef in g.evidence then Some(g.evidence[r.evidenceRef]) else None,
                    "", o.requestHash(r), o.signatureHash(r), true, None, outcome);
    x.(receipt := ReceiptOf(o, x))
  }

  lemma MeetingIsAllowed(o: Oracle, g: Registry, nonce: string, evidenceRef: string, outcome: string, s: State)
    requires Usable(g) && !g.approved.stepUp && nonce !in s.nonces
    requires o.valid(g.publicKey, Meeting(g, nonce, s.last, evidenceRef))
    ensures var x := Allowed(o, g, Meeting(g, nonce, s.last, evidenceRef), outcome);
      RecordOk(o, g, map["e" := g.approved.issuedAt], x, s)
  {
    var r := Meeting(g, nonce, s.last, evidenceRef);
    assert r.category in g.approved.categories && r.product in g.approved.products;
  }

  /** Two allowed records with one evidence reference and one outcome. */
  function Twice(o: Oracle, g: Registry, evidenceRef: string, outcome: string): seq<Record>
    requires Usable(g)
  {
    var first := Allowed(o, g, Meeting(g, "a", "", evidenceRef), outcome);
    [first, Allowed(o, g, Meeting(g, "b", first.receipt, evidenceRef), outcome)]
  }

  /** The signatures of the two requests verify. */
  predicate Signed(o: Oracle, g: Registry, records: seq<Record>)
  {
    forall r :: r in records ==> o.valid(g.publicKey, r.request)
  }

  lemma TwiceIsAccepted(o: Oracle, g: Registry, evidenceRef: string, outcome: string)
    requires Usable(g) && !g.approved.stepUp && Signed(o, g, Twice(o, g, evidenceRef, outcome))
    ensures Accepted(o, g, map["e" := g.approved.issuedAt], Twice(o, g, evidenceRef, outcome))
  {
    var records := Twice(o, g, evidenceRef, outcome);
    assert records[..0] == [] && records[..1] == [records[0]] && records[..1][..0] == [];
    assert records[0] in records && records[1] in records;
    var s := After(records[..1]);
    AfterNone();
    AfterSnoc(records, 0);
    assert s == Advance(START, records[0]);
    MeetingIsAllowed(o, g, "a", evidenceRef, outcome, START);
    MeetingIsAllowed(o, g, "b", evidenceRef, outcome, s);
    hide RecordOk, Allowed;
    forall i | 0 <= i < 2 ensures RecordOk(o, g, map["e" := g.approved.issuedAt], records[i], After(records[..i])) {
      assert i == 0 || i == 1;
    }
  }

  /** Two allowed records of the sequence name the same evidence. */
  ghost predicate Reuses(records: seq<Record>, evidenceRef: string)
  {
    exists i, j :: 0 <= i < j < |records| && records[i].allowed && records[j].allowed
                   && records[i].request.evidenceRef == records[j].request.evidenceRef == evidenceRef
  }

  /** Under a usable registry some accepted sequence reuses an evidence reference exactly when the
      mandate does not require step-up. */
  lemma EvidenceReusedIff(o: Oracle, g: Registry, evidenceRef: string)
    requires Usable(g) && Signed(o, g, Twice(o, g, evidenceRef, "allowed"))
    ensures (exists times, records :: Accepted(o, g, times, records) && Reuses(records, evidenceRef))
        <==> !g.approved.stepUp
  {
    if !g.approved.stepUp {
      var records := Twice(o, g, evidenceRef, "allowed");
      TwiceIsAccepted(o, g, evidenceRef, "allowed");
      assert records[0].allowed && records[1].allowed;
      assert Reuses(records, evidenceRef);
    } else if times, records: seq<Record> :| Accepted(o, g, times, records) && Reuses(records, evidenceRef) {
      var i, j :| 0 <= i < j < |records| && records[i].allowed && records[j].allowed
                  && records[i].request.evidenceRef == records[j].request.evidenceRef == evidenceRef;
      StepUpEvidenceOneUse(o, g, times, records, i, j);
    }
  }

  /** Each allowed request carries the receipt of the allowed record before it; the first
      carries the blank one. */
  lemma ReceiptChain(o: Oracle, g: Registry, times: map<string, real>, records: seq<Record>, i: nat)
    requires Accepted(o, g, times, records) && i < |records| && records[i].allowed
    ensures (forall k :: 0 <= k < i ==> !records[k].allowed) ==> records[i].request.priorReceipt == ""
    ensures forall j :: 0 <= j < i && records[j].allowed && (forall k :: j < k < i ==> !records[k].allowed)
              ==> records[i].request.priorReceipt == records[j].receipt
  {
    hide RecordOk;
    AllowedFacts(o, g, times, records[i], After(records[..i]));
    var last := AfterLast(records[..i]);
    forall j | 0 <= j < i && records[j].allowed && (forall k :: j < k < i ==> !records[k].allowed) ensures j == last {
      assert records[..i][j] == records[j];
    }
  }

  // ---------------------------------------------------------------- rejected records

  lemma {:induction false} AfterWithout(a: seq<Record>, r: Record, b: seq<Record>)
    requires !r.allowed
    ensures After(a + [r] + b) == After(a + b)
  {
    if b == [] {
      assert (a + [r] + b)[..|a|] == a && a + b == a;
      assert (a + [r] + b)[|a|] == r;
    } else {
      var n := |b| - 1;
      AfterWithout(a, r, b[..n]);
      assert (a + [r] + b)[..|a| + 1 + n] == a + [r] + b[..n];
      assert (a + b)[..|a| + n] == a + b[..n];
    }
  }

  /** A rejected record changes no state: with it removed the other records are still accepted. */
  lemma RejectedLeavesNoTrace(o: Oracle, g: Registry, times: map<string, real>, a: seq<Record>, r: Record,
                              b: seq<Record>)
    requires Accepted(o, g, times, a + [r] + b) && !r.allowed
    ensures Accepted(o, g, times, a + b)
    ensures After(a + b) == After(a + [r] + b)
  {
    hide RecordOk, After;
    AfterWithout(a, r, b);
    forall i | 0 <= i < |a + b| ensures RecordOk(o, g, times, (a + b)[i], After((a + b)[..i])) {
      if i < |a| { KeptBefore(a, r, b, i); } else { KeptAfter(a, r, b, i); }
    }
  }

  lemma KeptBefore(a: seq<Record>, r: Record, b: seq<Record>, i: nat)
    requires i < |a|
    ensures var all, kept := a + [r] + b, a + b; kept[i] == all[i] && After(kept[..i]) == After(all[..i])
  {
    hide After;
    assert (a + b)[..i] == (a + [r] + b)[..i];
  }

  lemma KeptAfter(a: seq<Record>, r: Record, b: seq<Record>, i: nat)
    requires |a| <= i < |a + b| && !r.allowed
    ensures var all, kept := a + [r] + b, a + b; kept[i] == all[i + 1] && After(kept[..i]) == After(all[..i + 1])
  {
    hide After;
    AfterWithout(a, r, b[..i - |a|]);
    assert (a + b)[..i] == a + b[..i - |a|] && (a + [r] + b)[..i + 1] == a + [r] + b[..i - |a|];
  }

  // ---------------------------------------------------------------- what the chain binds

  /** SHA-256 taken as collision-free, with no blank digest. */
  ghost predicate CollisionFree(o: Oracle)
  {
    && (forall x :: o.receipt(x) != "")
    && (forall x, y :: o.receipt(x) == o.receipt(y) ==> x == y)
  }

  /** The receipts of allowed records differ, unless both have the outcome "rejected". */
  lemma ReceiptsDistinct(o: Oracle, g: Registry, times: map<string, real>, records: seq<Record>, i: nat, j: nat)
    requires CollisionFree(o) && Accepted(o, g, times, records)
    requires i < j < |records| && records[i].allowed && records[j].allowed
    ensures records[i].receipt == records[j].receipt
        <==> (records[i].outcome == "rejected" && records[j].outcome == "rejected")
  {
    hide RecordOk;
    NoncesDistinct(o, g, times, records, i, j);
    AllowedFacts(o, g, times, records[i], After(records[..i]));
    AllowedFacts(o, g, times, records[j], After(records[..j]));
  }

  /** Receipts do coincide: two allowed records with that outcome make an accepted sequence. */
  lemma BlankReceiptsOccur(o: Oracle, g: Registry, evidenceRef: string)
    requires Usable(g) && !g.approved.stepUp && Signed(o, g, Twice(o, g, evidenceRef, "rejected"))
    ensures var records := Twice(o, g, evidenceRef, "rejected");
      && Accepted(o, g, map["e" := g.approved.issuedAt], records)
      && records[0].allowed && records[1].allowed && records[0].receipt == records[1].receipt == ""
  {
    TwiceIsAccepted(o, g, evidenceRef, "rejected");
    hide Accepted;
  }

  /** The receipt bodies of the allowed records, in order. */
  function Bodies(records: seq<Record>): seq<ReceiptBody>
  {
    if records == [] then []
    else
      var n := |records| - 1;
      Bodies(records[..n]) + if records[n].allowed then [Body(records[n])] else []
  }

  /** The bodies of the allowed records after the last allowed one with outcome "rejected". */
  function Tail(records: seq<Record>): seq<ReceiptBody>
  {
    if records == [] then []
    else
      var n := |records| - 1;
      if !records[n].allowed then Tail(records[..n])
      else if records[n].outcome == "rejected" then []
      else Tail(records[..n]) + [Body(records[n])]
  }

  /** The last receipt is that of the last body of the tail, and each body names the receipt before it. */
  lemma {:induction false} TailShows(o: Oracle, g: Registry, times: map<string, real>, x: seq<Record>)
    returns (before: seq<Record>)
    requires Accepted(o, g, times, x)
    ensures Tail(x) == [] ==> After(x).last == ""
    ensures Tail(x) != [] ==>
              var n := |Tail(x)| - 1;
              && After(x).last == o.receipt(Tail(x)[n])
              && |before| < |x| && Accepted(o, g, times, before)
              && Tail(before) == Tail(x)[..n] && Tail(x)[n].previous == After(before).last
  {
    hide Accepted, After;
    AfterNone();
    before := [];
    if x != [] {
      var n := |x| - 1;
      AcceptedPrefix(o, g, times, x);
      AfterLastRecord(x);
      if x[n].allowed {
        before := x[..n];
        LastAllowed(o, g, times, x);
      } else {
        before := TailShows(o, g, times, x[..n]);
      }
    }
  }

  lemma AfterLastRecord(x: seq<Record>)
    requires x != []
    ensures !x[|x| - 1].allowed ==> After(x) == After(x[..|x| - 1])
  {
  }

  lemma LastAllowed(o: Oracle, g: Registry, times: map<string, real>, x: seq<Record>)
    requires Accepted(o, g, times, x) && x != [] && x[|x| - 1].allowed
    ensures var n := |x| - 1;
      && After(x).last == (if x[n].outcome == "rejected" then "" else o.receipt(Body(x[n])))
      && Body(x[n]).previous == After(x[..n]).last
  {
    var n := |x| - 1;
    hide RecordOk;
    AllowedFacts(o, g, times, x[n], After(x[..n]));
  }

  /** What the last receipt binds: two accepted sequences end in the same receipt exactly when they
      allowed the same since the last allowed record with outcome "rejected". */
  lemma {:induction false} LastReceiptIff(o: Oracle, g: Registry, h: Registry, s: map<string, real>,
                                        t: map<string, real>, x: seq<Record>, y: seq<Record>)
    requires CollisionFree(o) && Accepted(o, g, s, x) && Accepted(o, h, t, y)
    ensures After(x).last == After(y).last <==> Tail(x) == Tail(y)
    decreases |x| + |y|
  {
    hide Accepted, After, Tail, CollisionFree;
    var u := TailShows(o, g, s, x);
    var v := TailShows(o, h, t, y);
    var a, b := Tail(x), Tail(y);
    if a != [] && b != [] {
      LastReceiptIff(o, g, h, s, t, u, v);
      BodiesCollide(o, a[|a| - 1], b[|b| - 1]);
      SameEnd(a, b);
    } else {
      NotBlank(o, a + b);
    }
  }

  lemma BodiesCollide(o: Oracle, a: ReceiptBody, b: ReceiptBody)
    requires CollisionFree(o)
    ensures o.receipt(a) == o.receipt(b) <==> a == b
  {
  }

  lemma NotBlank(o: Oracle, bodies: seq<ReceiptBody>)
    requires CollisionFree(o)
    ensures forall b :: b in bodies ==> o.receipt(b) != ""
  {
  }

  lemma SameEnd<T>(a: seq<T>, b: seq<T>)
    requires a != [] && b != []
    ensures a == b <==> a[|a| - 1] == b[|b| - 1] && a[..|a| - 1] == b[..|b| - 1]
  {
    assert a == a[..|a| - 1] + [a[|a| - 1]] && b == b[..|b| - 1] + [b[|b| - 1]];
  }

  lemma {:induction false} TailIsAll(records: seq<Record>)
    requires forall r :: r in records && r.allowed ==> r.outcome != "rejected"
    ensures Tail(records) == Bodies(records)
  {
    if records != [] {
      var n := |records| - 1;
      assert records[n] in records;
      TailIsAll(records[..n]);
    }
  }

  /** So the last receipt binds the whole history of sequences without such a record. */
  lemma LastReceiptBindsHistory(o: Oracle, g: Registry, h: Registry, s: map<string, real>, t: map<string, real>,
                                x: seq<Record>, y: seq<Record>)
    requires CollisionFree(o) && Accepted(o, g, s, x) && Accepted(o, h, t, y)
    requires forall r :: (r in x || r in y) && r.allowed ==> r.outcome != "rejected"
    requires After(x).last == After(y).last
    ensures Bodies(x) == Bodies(y)
  {
    hide Accepted, CollisionFree;
    LastReceiptIff(o, g, h, s, t, x, y);
    TailIsAll(x);
    TailIsAll(y);
  }

  /** With one it may bind nothing: two allowed records and none at all end in the same receipt. */
  lemma BlankEndForgets(o: Oracle, g: Registry, evidenceRef: string)
    requires Usable(g) && !g.approved.stepUp && Signed(o, g, Twice(o, g, evidenceRef, "rejected"))
    ensures var times, records := map["e" := g.approved.issuedAt], Twice(o, g, evidenceRef, "rejected");
      && Accepted(o, g, times, records) && Accepted(o, g, times, [])
      && After(records).last == After([]).last && Bodies(records) != Bodies([])
  {
    var records := Twice(o, g, evidenceRef, "rejected");
    TwiceIsAccepted(o, g, evidenceRef, "rejected");
    AfterNone();
    AfterSnoc(records, 1);
    assert records[..2] == records;
    assert Bodies(records) == Bodies(records[..1]) + [Body(records[1])];
    hide Accepted, Signed;
  }

  lemma AcceptedPrefix(o: Oracle, g: Registry, times: map<string, real>, records: seq<Record>)
    requires Accepted(o, g, times, records) && records != []
    ensures Accepted(o, g, times, records[..|records| - 1])
  {
    hide RecordOk;
    var prefix := records[..|records| - 1];
    forall i | 0 <= i < |prefix| ensures RecordOk(o, g, times, prefix[i], After(prefix[..i])) {
      assert prefix[..i] == records[..i];
    }
  }
}
