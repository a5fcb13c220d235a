/** Accepted manifests of a single payment, built from a script of commands: the witnesses of what the
    replay lets through. */
module Scripts {
  import opened Aggregates
  import opened Ledger
  import opened Lifecycles

  /** A command, the kind of its event, and the opening in force at it. */
  datatype Step = Step(command: Command, kind: Kind, opening: Opening)

  predicate Playable(rail: Rail, steps: seq<Step>)
  {
    && steps != [] && Opens(steps[0].command)
    && (forall i :: 0 <= i < |steps| ==> ExpectedKind(steps[i].command) == Some(steps[i].kind))
    && (forall i :: 0 < i < |steps| ==> Opens(steps[i].command) || steps[i].opening == steps[i - 1].opening)
    && (forall i :: 0 <= i < |steps| ==>
          Quiet(rail, steps[i]) || Conserving(rail, Moved(steps[i].opening, steps[i].kind)))
  }

  /** The event moves nothing. */
  predicate Quiet(rail: Rail, step: Step)
  {
    Movement(rail, step.kind, step.opening).None?
  }

  function Id(n: nat): (s: string)
    ensures |s| == n + 1
  {
    if n == 0 then "e" else Id(n - 1) + "e"
  }

  function Links(steps: seq<Step>): (links: seq<Link>)
    ensures |links| == |steps|
  {
    seq(|steps|, i requires 0 <= i < |steps| => var s := steps[i].opening;
      Link(steps[i].command, Id(i), "p", "p", s.actor, s.counterparty, i, s))
  }

  function Records(steps: seq<Step>): (records: seq<Record>)
    ensures |records| == |steps|
  {
    seq(|steps|, i requires 0 <= i < |steps| => var s := steps[i].opening;
      Record(Id(i), "p", steps[i].kind, s.amount, s.currency, if i == 0 then "" else Id(i - 1)))
  }

  function Draft(rail: Rail, steps: seq<Step>): Manifest
  {
    Manifest(rail, Links(steps), Records(steps), [], [])
  }

  function Play(rail: Rail, steps: seq<Step>): (m: Manifest)
    ensures |m.lineage| == |m.records| == |steps| && m.rail == rail
  {
    var postings := PostingsOf(Draft(rail, steps), |steps|, Everyone());
    Draft(rail, steps).(postings := postings, entryIds := Map(EntryId(), postings))
  }

  // ---------------------------------------------------------------- lookups in the script

  lemma {:induction false} InForce(rail: Rail, steps: seq<Step>, i: nat)
    requires Playable(rail, steps) && i < |steps|
    ensures LastOpening(Links(steps), i + 1, "p") == Some(steps[i].opening)
  {
    if i > 0 { InForce(rail, steps, i - 1); }
    hide Playable;
    assert Links(steps)[i].payment == "p" && Links(steps)[i].command == steps[i].command;
  }

  lemma EventBefore(steps: seq<Step>, i: nat)
    requires i <= |steps|
    ensures LastEvent(Links(steps), i, "p") == if i == 0 then "" else Id(i - 1)
  {
  }

  lemma {:induction false} PositionsAre(steps: seq<Step>, n: nat, q: string)
    requires n <= |steps|
    ensures Positions(Links(steps), n, q) == if q == "p" then Ascending(n) else []
  {
    if n > 0 {
      PositionsAre(steps, n - 1, q);
      assert Ascending(n) == Ascending(n - 1) + [n - 1];
    }
  }

  lemma ImpliedSame(rail: Rail, steps: seq<Step>, i: nat)
    requires i < |steps|
    ensures Implied(Play(rail, steps), i) == Implied(Draft(rail, steps), i)
  {
    hide PostingsOf, LastOpening, Expected, Map;
  }

  lemma {:induction false} PostingsAre(rail: Rail, steps: seq<Step>, n: nat)
    requires n <= |steps|
    ensures PostingsOf(Play(rail, steps), n, Everyone()) == PostingsOf(Draft(rail, steps), n, Everyone())
  {
    hide Implied, Play, Draft;
    if n > 0 {
      PostingsAre(rail, steps, n - 1);
      ImpliedSame(rail, steps, n - 1);
      SameLinks(rail, steps);
    }
  }

  lemma SameLinks(rail: Rail, steps: seq<Step>)
    ensures Play(rail, steps).lineage == Draft(rail, steps).lineage
        && Play(rail, steps).records == Draft(rail, steps).records
    ensures |Draft(rail, steps).lineage| == |Draft(rail, steps).records| == |steps|
  {
    hide PostingsOf, Map;
  }

  lemma {:induction false} PostingsConserve(rail: Rail, steps: seq<Step>, n: nat)
    requires Playable(rail, steps) && n <= |steps|
    ensures forall x :: x in PostingsOf(Draft(rail, steps), n, Everyone()) ==> Conserves(x)
  {
    if n > 0 {
      PostingsConserve(rail, steps, n - 1);
      InForce(rail, steps, n - 1);
      hide Movement, Sum;
      assert Quiet(rail, steps[n - 1]) || Conserving(rail, Moved(steps[n - 1].opening, steps[n - 1].kind));
      hide Playable, LastOpening;
    }
  }

  // ---------------------------------------------------------------- acceptance

  lemma StepOk(rail: Rail, steps: seq<Step>, i: nat)
    requires Playable(rail, steps) && i < |steps|
    ensures EventOk(Play(rail, steps), i)
  {
    InForce(rail, steps, i);
    EventBefore(steps, i);
    hide LastOpening, LastEvent, ExpectedKind, Id;
  }

  lemma PlayAligned(rail: Rail, steps: seq<Step>)
    requires steps != []
    ensures Aligned(Play(rail, steps))
  {
    var m := Play(rail, steps);
    forall i, j | 0 <= i < j < |steps| ensures m.lineage[i].eventId != m.lineage[j].eventId {
      assert |m.lineage[i].eventId| == i + 1 && |m.lineage[j].eventId| == j + 1;
    }
  }

  /** Every playable script makes an accepted manifest. */
  lemma PlayIsAccepted(rail: Rail, steps: seq<Step>)
    requires Playable(rail, steps)
    ensures Accepted(Play(rail, steps))
  {
    var m := Play(rail, steps);
    PlayAligned(rail, steps);
    PostingsAre(rail, steps, |steps|);
    PostingsConserve(rail, steps, |steps|);
    hide Aligned, EventOk, Positions, PostingsOf, Conserves, Playable, Ascending;
    forall i | 0 <= i < |steps| ensures EventOk(m, i) { StepOk(rail, steps, i); }
    forall q ensures Positions(m.lineage, |steps|, q) == Ascending(|Positions(m.lineage, |steps|, q)|) {
      InOrder(rail, steps, q);
    }
  }

  lemma InOrder(rail: Rail, steps: seq<Step>, q: string)
    ensures var at := Positions(Play(rail, steps).lineage, |steps|, q); at == Ascending(|at|)
  {
    PositionsAre(steps, |steps|, q);
    AscendingSize(|steps|);
  }

  lemma AscendingSize(n: nat)
    ensures |Ascending(n)| == n && Ascending(0) == []
  {
  }

  /** The moves of a script: its steps that are not quiet. */
  function StepMoves(rail: Rail, steps: seq<Step>): seq<Moved>
  {
    if steps == [] then []
    else
      var n := |steps| - 1;
      StepMoves(rail, steps[..n]) + if Quiet(rail, steps[n]) then [] else [Moved(steps[n].opening, steps[n].kind)]
  }

  lemma {:induction false} PlayMoves(rail: Rail, steps: seq<Step>, n: nat)
    requires Playable(rail, steps) && n <= |steps|
    ensures Moves(Play(rail, steps), n, "p") == StepMoves(rail, steps[..n])
  {
    hide Play, Playable, MoveAt, Quiet;
    if n > 0 {
      PlayMoves(rail, steps, n - 1);
      StepMove(rail, steps, n - 1);
      StepMovesSnoc(rail, steps, n - 1);
      hide StepMoves;
    }
  }

  lemma StepMovesSnoc(rail: Rail, steps: seq<Step>, i: nat)
    requires i < |steps|
    ensures StepMoves(rail, steps[..i + 1]) == StepMoves(rail, steps[..i])
        + if Quiet(rail, steps[i]) then [] else [Moved(steps[i].opening, steps[i].kind)]
  {
    hide Quiet;
    assert steps[..i + 1][..i] == steps[..i];
  }

  lemma StepMove(rail: Rail, steps: seq<Step>, i: nat)
    requires Playable(rail, steps) && i < |steps|
    ensures MoveAt(Play(rail, steps), i, "p")
         == if Quiet(rail, steps[i]) then [] else [Moved(steps[i].opening, steps[i].kind)]
  {
    InForce(rail, steps, i);
    hide LastOpening, Movement, Playable, PostingsOf;
  }

  // ---------------------------------------------------------------- witnesses

  /** Authorised under s, reopened by a decline under t, then reversed. */
  function Reopened(s: Opening, t: Opening): seq<Step>
  {
    [Step(CardAuthorize, Authorization, s), Step(CardDecline, AuthorizationDeclined, t), Step(CardReverse, Reversal, t)]
  }

  lemma HoldConserves(s: Opening)
    ensures Conserving(Card, Moved(s, Authorization)) && Conserving(Card, Moved(s, Reversal))
  {
    OneSum(s.payer, s.amount, LineAmount());
    OneSum(s.hold, s.amount, LineAmount());
    hide Sum, One;
  }

  lemma ThreeStepMoves(rail: Rail, a: Step, b: Step, c: Step)
    ensures StepMoves(rail, [a, b, c])
         == (if Quiet(rail, a) then [] else [Moved(a.opening, a.kind)])
            + (if Quiet(rail, b) then [] else [Moved(b.opening, b.kind)])
            + (if Quiet(rail, c) then [] else [Moved(c.opening, c.kind)])
  {
    hide Quiet;
    assert [a, b, c][..2] == [a, b] && [a, b][..1] == [a] && [a][..0] == [];
    assert StepMoves(rail, [a]) == if Quiet(rail, a) then [] else [Moved(a.opening, a.kind)];
    assert StepMoves(rail, [a, b]) == StepMoves(rail, [a]) + if Quiet(rail, b) then [] else [Moved(b.opening, b.kind)];
  }

  lemma ReopenedPlays(s: Opening, t: Opening)
    ensures var m := Play(Card, Reopened(s, t));
      Accepted(m) && Moves(m, |m.lineage|, "p") == [Moved(s, Authorization), Moved(t, Reversal)]
  {
    var steps := Reopened(s, t);
    HoldConserves(s);
    HoldConserves(t);
    hide Accepted, Moves, StepMoves, Play, Conserving;
    assert Playable(Card, steps);
    ThreeStepMoves(Card, steps[0], steps[1], steps[2]);
    PlayIsAccepted(Card, steps);
    PlayMoves(Card, steps, 3);
    assert steps[..3] == steps;
  }

  /** Every pair of openings occurs in an accepted manifest of this shape, which restores its accounts
      exactly when the two agree. */
  lemma ReopenedRestoresIff(s: Opening, t: Opening)
    ensures var m := Play(Card, Reopened(s, t));
      Accepted(m) && (Restored(m, "p")
        <==> SameTransfer(s.payer, s.hold, s.amount, s.currency, t.payer, t.hold, t.amount, t.currency))
  {
    hide Accepted, Moves, Play, Restored, CostsItsFees, Agree, SameTransfer;
    var m, moves := Play(Card, Reopened(s, t)), [Moved(s, Authorization), Moved(t, Reversal)];
    ReopenedPlays(s, t);
    NamedTripIsRoundTrip(Card, moves);
    assert ReopenedAt(moves, 1, s, t);
    ReopenedOnceIff(m, "p", 1, s, t);
    RestoredIff(m, "p");
    AgreeIff(Held, s, t);
  }

  /** Posted and returned under one opening. */
  function PostReturn(s: Opening): seq<Step>
  {
    [Step(A2aInitiate, TransferInitiated, s), Step(A2aPost, TransferPosted, s), Step(A2aReturn, TransferReturned, s)]
  }

  lemma PostConserves(s: Opening)
    requires s.payee != s.feeAccount
    ensures Conserving(A2A, Moved(s, TransferPosted)) && Conserving(A2A, Moved(s, TransferReturned))
  {
    OneSum(s.payer, s.amount + s.fee, LineAmount());
    OneSum(s.payer, s.amount, LineAmount());
    OneSum(s.payee, s.amount, LineAmount());
    TwoSum(s.payee, s.amount, s.feeAccount, s.fee, LineAmount());
    hide Sum, One, Two;
  }

  lemma PostReturnPlays(s: Opening)
    requires s.payee != s.feeAccount
    ensures var m := Play(A2A, PostReturn(s));
      Accepted(m) && Moves(m, |m.lineage|, "p") == [Moved(s, TransferPosted), Moved(s, TransferReturned)]
  {
    var steps := PostReturn(s);
    PostConserves(s);
    hide Accepted, Moves, StepMoves, Play, Conserving;
    assert Playable(A2A, steps);
    ThreeStepMoves(A2A, steps[0], steps[1], steps[2]);
    PlayIsAccepted(A2A, steps);
    PlayMoves(A2A, steps, 3);
    assert steps[..3] == steps;
  }

  /** A payer who owns the fee account is out of pocket by nothing, whatever the fee. */
  lemma OwnFeeAccount(s: Opening)
    requires s.payer == s.feeAccount != s.payee
    ensures var m := Play(A2A, PostReturn(s));
      Accepted(m) && Balance(PostingsOf(m, |m.lineage|, Only("p")), s.payer, s.currency) == 0.0
  {
    hide Accepted, Moves, Play, Balance, PostingsOf, CostsItsFees;
    var m, moves := Play(A2A, PostReturn(s)), [Moved(s, TransferPosted), Moved(s, TransferReturned)];
    PostReturnPlays(s);
    NamedTripIsRoundTrip(A2A, moves);
    OneOpeningCostsItsFees(m, "p", s);
    TransferCostsFee(m, "p", s.payer, s.currency);
  }

  /** Posted under s, reopened, returned under t. */
  function PostReopenReturn(s: Opening, t: Opening): seq<Step>
  {
    [Step(A2aInitiate, TransferInitiated, s), Step(A2aPost, TransferPosted, s),
     Step(A2aInitiate, TransferInitiated, t), Step(A2aReturn, TransferReturned, t)]
  }

  lemma FourStepMoves(rail: Rail, a: Step, b: Step, c: Step, d: Step)
    ensures StepMoves(rail, [a, b, c, d])
         == StepMoves(rail, [a, b, c]) + if Quiet(rail, d) then [] else [Moved(d.opening, d.kind)]
  {
    hide Quiet;
    assert [a, b, c, d][..3] == [a, b, c];
  }

  lemma PostReopenReturnPlays(s: Opening, t: Opening)
    requires s.payee != s.feeAccount && t.payee != t.feeAccount
    ensures var m := Play(A2A, PostReopenReturn(s, t));
      Accepted(m) && Moves(m, |m.lineage|, "p") == [Moved(s, TransferPosted), Moved(t, TransferReturned)]
  {
    var steps := PostReopenReturn(s, t);
    PostReopenReturnIsPlayable(s, t);
    ThreeStepMoves(A2A, steps[0], steps[1], steps[2]);
    FourStepMoves(A2A, steps[0], steps[1], steps[2], steps[3]);
    hide Accepted, Moves, StepMoves, Play, Playable;
    PlayIsAccepted(A2A, steps);
    PlayMoves(A2A, steps, 4);
    assert steps[..4] == steps;
  }

  lemma PostReopenReturnIsPlayable(s: Opening, t: Opening)
    requires s.payee != s.feeAccount && t.payee != t.feeAccount
    ensures Playable(A2A, PostReopenReturn(s, t))
  {
    PostConserves(s);
    PostConserves(t);
    hide Conserving;
  }

  /** The payer can be out of pocket by exactly the fee although the trip moves more than that: the
      return takes the amount from another payee. */
  lemma OtherPayeePays(s: Opening, other: string)
    requires s.amount != 0.0 && s.payer != s.feeAccount && s.payer != s.payee && s.payer != other && s.payee != other
    requires s.payee != s.feeAccount && other != s.feeAccount
    ensures var m := Play(A2A, PostReopenReturn(s, s.(payee := other)));
      && Accepted(m) && NamedTrip(A2A, Moves(m, |m.lineage|, "p")) && !CostsItsFees(m, "p")
      && Balance(PostingsOf(m, |m.lineage|, Only("p")), s.payer, s.currency) == -s.fee
  {
    var t := s.(payee := other);
    var m, moves := Play(A2A, PostReopenReturn(s, t)), [Moved(s, TransferPosted), Moved(t, TransferReturned)];
    hide Accepted, Moves, Play, Balance, PostingsOf, CostsItsFees, Agree;
    PostReopenReturnPlays(s, t);
    NamedTripIsRoundTrip(A2A, moves);
    assert ReopenedAt(moves, 1, s, t);
    ReopenedOnceIff(m, "p", 1, s, t);
    AgreeIff(Posted, s, t);
    PayerPaysFeeReopenedIff(m, "p", 1, s, t);
  }
}
