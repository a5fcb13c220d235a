# Verified model of the APAR payment-assurance range

APAR scores synthetic payment events, publishes evidence about the scoring exactly once, and
re-derives that evidence with a verifier that shares no code with the scorer. This project models
the parts whose correctness is an argument rather than a lookup, and proves it. `dafny verify
dfyconfig.toml` checks everything.

| file | what it models |
|---|---|
| `CausalFeatures.dfy` | the one-pass feature stream over six pruned deques and two first-seen dictionaries, against "strictly earlier, within the window" |
| `Ledger.dfy`, `Commands.dfy` | the replay of interleaved payment lifecycles and of the double-entry postings they imply; what each command books, rail by rail |
| `Lifecycles.dfy`, `Scripts.dfy` | what the lifecycle of one payment leaves on the accounts, however often it is opened again; accepted manifests built from scripts |
| `PaymentGroups.dfy`, `Economics.dfy`, `NegativeAmounts.dfy` | the grouping of all events into payments, capture and escape, strata, fractions; accepted manifests with amounts of any sign |
| `Trust.dfy` | the trust replay: ordered reasons, nonces, one-use evidence, receipt chain |
| `IsolationTree.dfy`, `RawTrees.dfy` | the validator of flattened isolation trees and the traversal that relies on it; the validator over raw JSON numbers |
| `RankingMetrics.dfy`, `RankedPrecision.dfy`, `Calibration.dfy`, `Percentiles.dfy`, `SignResampling.dfy` | average precision in both its forms, ROC-AUC, ten-bin calibration error, interpolated percentile, sign-resampling interval |
| `Routing.dfy` | calibrator interpolation, thresholds, the full route, the noisy-or rule score |
| `LockedRun.dfy` | the exactly-once locked run as a state machine of racing processes and crashes |
| `StageChain.dfy` | the checkpoint chain of the stage runner, likewise |
| `BoundedCapture.dfy` | two readers filling one bounded capture under a lock |
| `CoreProjection.dfy`, `CoreConverse.dfy`, `CoreFields.dfy` | the projection of an evidence payload onto its timing-free core; what the core keeps and what it drops, field by field; what each stable document holds |
| `Aggregates.dfy` | sums, filters and sorts over sequences, used by the others |

Code that updates state in loops is a method proved against a functional specification; the
results are lemmas about that specification. The protocols are step functions over a durable file
state, and their results hold for every finite schedule. What a specification function means is stated a
second time without it, in raw fields, constants and event kinds. Money, time and probability are exact
(`real`); the verifier's `_close` tolerance plays no part.

Some claims one would expect do not hold of the code. Each is stated with the exact condition
under which it does, and with an input at which it does not:

* One paired delta: both ranks are 0 and the interval is one point, minus the size of the delta, so it
  contains 0 only if the delta is 0 (`SignResampling.IntervalAroundZeroIff`, `SinglePointInterval`).
* A payment can be opened again half-way, and later moves then use the later accounts. A round trip costs
  exactly its fees when and only when the handovers between openings tally to nothing
  (`Lifecycles.RoundTripIff`); reopened once, when the two openings agree on what was outstanding at that
  point (`ReopenedOnceIff`), which between two accounts means: both transfers move nothing, or they are
  the same, or each is the other turned round with the sign changed (`AgreeIff`). Every pair of openings
  occurs in an accepted manifest (`Scripts.ReopenedRestoresIff`).
* After post-return or post-freeze-recover the A2A payer is out by exactly the fee when and only when what it
  gets as the fee account and what the handovers leave it cancel (`Lifecycles.PayerPaysFeeIff`); reopened once,
  that is a comparison of the two openings (`PayerPaysFeeReopenedIff`). It fails for a payer who owns the fee
  account (`Scripts.OwnFeeAccount`), and it can hold of a trip that moves more than its fee, because another
  payee pays the amount back (`Scripts.OtherPayeePays`).
* The per-rank average precision is the same for every order of the rows exactly when no positive shares
  its score with a negative (`RankedPrecision.OrderUnseenIff`), and then equals the grouped form exactly
  when positives that share a score have no negative above them (`RankedIsGroupedIff`).
* The full route is not monotone in disagreement, in either direction: raising scores lowers it exactly
  when a rise in disagreement loses a decline, or a fall in it loses a review that nothing else calls for
  (`Routing.RouteLoweredIff`, `MembersRaisedLowerIff`). Raising one of five scores does either
  (`RaisingOneAwayLowers`, `RaisingOneTowardsLowers`).
* The verifier does not ask calibrator values to ascend; interpolation is monotone exactly when
  they do not descend (`Routing.InterpMonotoneIff`, `DescendingKnots`).
* An allowed trust record with outcome "rejected" has a blank receipt, so two such receipts coincide
  (`Trust.ReceiptsDistinct`, `BlankReceiptsOccur`). Evidence is one-use exactly where the mandate requires
  step-up (`Trust.EvidenceReusedIff`). For the same reason the last receipt binds only what was allowed since
  the last such record (`Trust.LastReceiptIff`): two allowed requests and none at all can end in one receipt
  (`BlankEndForgets`).
* The replay does not refuse negative amounts. Prevented is at most captured in every stratum exactly when
  no payment that only its reversal saved has a negative amount (`Economics.PreventedAtMostCapturedIff`),
  and a stricter policy captures at least as much in every stratum exactly when no payment it gains has one
  (`StricterCapturesMoreIff`). Both kinds of payment occur with any amount in accepted manifests
  (`NegativeAmounts.RecoveredOnlyOccurs`, `GainedOccurs`). Let the cushion be the sum of the positive
  amounts of fraud that is not gained: the captured fraction falls over no list of strata exactly when no group
  of gained payments totals strictly between minus the cushion and 0 (`StricterRaisesFractionIff`,
  `NegativeGainLowers`).
* A runner that dies between making a checkpoint directory and publishing its manifest blocks the
  chain for good. Some continuation completes the chain exactly when the two run bindings differ and no
  directory has been abandoned (`StageChain.CanCompleteAfterEveryRun`); both kinds of run occur
  (`CompleteChainOccurs`, `AbandonedOccurs`).
* An attempt can be spent without any workload: its receipt is durable, and nobody is between that receipt and
  the workload. Some continuation starts the workload exactly when this has not happened
  (`LockedRun.CanStartIff`, `SpentOccurs`).
* The tree validator compares raw JSON numbers and lists them truncated. What it accepts is one rooted tree
  for the traversal exactly when truncation makes no node its own child (`RawTrees.TruncatedAcceptedIff`,
  `ForestIsAccepted`). The traversal ends at a leaf on all of it (`TraverseRaw`).
* The features apply `log1p`, which raises at -1 or below; the pass succeeds exactly when no
  24-hour sum or decline count reaches that (`CausalFeatures.MakeFeatures`; for two events `DomainErrorIff`).

## Model

| member | source | states |
|---|---|---|
| CausalFeatures.Prune | validation_spike/src/validate.py:402-404 | Drops from the front only entries below the cutoff, and leaves a deque whose first entry is not below it |
| CausalFeatures.PrunedIsWindow | validation_spike/src/validate.py:422-439 | A pruned deque, read strictly before t, is exactly the scan of all history for [t - span, t), in order, ties in time included |
| CausalFeatures.PruneKey | validation_spike/src/validate.py:422-429 | Pruning one key keeps every deque a summary of its history and pops exactly the entries that leave the structure |
| CausalFeatures.Push | validation_spike/src/validate.py:478-485 | Appending keeps every deque a summary of the extended history, whichever keys are tracked |
| CausalFeatures.Note | validation_spike/src/validate.py:486-488 | The dictionary keeps holding the earliest time of every pair seen |
| CausalFeatures.ReadRow | validation_spike/src/validate.py:420-476 | The row built from the pruned deques is the row defined by scanning the history |
| CausalFeatures.StreamRows | validation_spike/src/validate.py:419-488 | The pass returns for every event the row defined by scanning all events; it fails exactly when some log1p argument is out of domain; pops never exceed pushes |
| CausalFeatures.MakeFeatures | validation_spike/src/validate.py:407-492 | Rows come back in caller order and are the defined ones; without events there is no column to join on; a domain error exactly when some row has one; otherwise rows exactly when ids are unique |
| CausalFeatures.DomainErrorIff | validation_spike/src/validate.py:467-474 | Two events raise the domain error exactly when the later one sums an amount or a decline of -1 or less of the earlier one |
| CausalFeatures.FirstRow | validation_spike/src/validate.py:431-476 | The row of an event with nothing before it, field by field; the hour is that of the day |
| CausalFeatures.OneMoreCounts | validation_spike/src/validate.py:435-474 | What one more strictly earlier event adds to the account, device and merchant counts and sums, in raw fields and literal windows, blank merchants apart |
| CausalFeatures.OneMoreAccounts | validation_spike/src/validate.py:455-470 | It adds one to a number of distinct accounts exactly when its account is another than the event's own and is new in reach within a day |
| CausalFeatures.OneMoreFlags | validation_spike/src/validate.py:442-476 | It clears a first-seen flag exactly when it has the same account and device, or beneficiary; it becomes the latest source exactly when it is the latest in reach |
| CausalFeatures.RowIsCausal | validation_spike/src/validate.py:432-434 | A row depends only on its own event and the multiset of strictly earlier events |
| CausalFeatures.LaterEventsUnseen | validation_spike/src/validate.py:899-915 | Appending events that are not earlier, equal times included, changes no row |
| CausalFeatures.OrderUnseen | validation_spike/src/validate.py:432-434 | Reordering the events, equal-time ones included, changes no row |
| CausalFeatures.RenamingUnseen | validation_spike/src/validate.py:884-897 | Renaming each identifier column injectively, blanks kept apart, leaves every row unchanged |
| CausalFeatures.EventTimeHolds | validation_spike/src/validate.py:505-509 | The event-time assertion holds of every output, although the latest source omits one of the six windows |
| IsolationTree.Check | src/apar/v5_independent_verifier.py:2317-2349 | Accepts exactly the trees whose nodes are well-formed and whose child list is 1..n-1 in some order |
| IsolationTree.ParentUnique | src/apar/v5_independent_verifier.py:2337-2349 | No two (node, side) pairs of an accepted tree name the same child |
| IsolationTree.OneRootedTree | src/apar/v5_independent_verifier.py:2348-2349 | In an accepted tree every node is reached from node 0 by exactly one path |
| IsolationTree.LeavesAndInternals | src/apar/v5_independent_verifier.py:2323-2349 | Leaves exceed internal nodes by one |
| IsolationTree.Traverse | src/apar/v5_independent_verifier.py:2092-2100 | On an accepted tree with whole child numbers the loop stops at the leaf the split values call for, in fewer turns than nodes, all indices in range and the failure branch dead; `RawTrees.TraverseRaw` is the same for every accepted document |
| IsolationTree.LeafReachedIff | src/apar/v5_independent_verifier.py:2094-2098 | A vector ends at a leaf exactly when it satisfies every split on that leaf's one path |
| IsolationTree.LeafUnique | src/apar/v5_independent_verifier.py:2094-2098 | No other leaf has a path the same vector follows |
| IsolationTree.TotalDepth | src/apar/v5_independent_verifier.py:2082-2101 | The loop over trees adds up, for every tree, the two lengths stored at its leaf, less one |
| IsolationTree.DepthOfPath | src/apar/v5_independent_verifier.py:2082-2101 | A tree contributes the lengths at the end of the one path whose splits the values satisfy |
| RawTrees.CheckRaw | src/apar/v5_independent_verifier.py:2317-2349 | The validator's loop over raw JSON numbers accepts exactly the documents described |
| RawTrees.TruncatedAcceptedIff | src/apar/v5_independent_verifier.py:2085-2100 | What it accepts is one rooted tree for the truncating traversal exactly when truncation makes no node its own child |
| RawTrees.WholeNumbers | src/apar/v5_independent_verifier.py:2332-2347 | Which it never does when the child numbers are whole |
| RawTrees.TraverseRaw | src/apar/v5_independent_verifier.py:2085-2100 | On every document the validator accepts, self-children included, the truncating loop stops at a leaf with all indices in range and the failure branch dead |
| RawTrees.LandingIff | src/apar/v5_independent_verifier.py:2092-2100 | The values land at a leaf exactly when a list of nodes from 0 leads there, each next one the truncated left number where value <= threshold and the truncated right one otherwise |
| RawTrees.TotalRawDepth | src/apar/v5_independent_verifier.py:2082-2101 | On all of them the loop over trees adds up the two lengths stored at each tree's leaf, less one |
| RawTrees.DepthOfRoute | src/apar/v5_independent_verifier.py:2082-2101 | A document contributes the lengths stored at the end of that list of nodes, less one |
| RawTrees.ForestIsAccepted | src/apar/v5_independent_verifier.py:2332-2349 | A three-node document with a child number 1.5 is accepted and is not a tree |
| Ledger.ReplayEvent | src/apar/v5_independent_verifier.py:1778-1843 | The checks on one event pass exactly when it fits the opening in force and its predecessor, and the dictionaries keep tracking the lineage |
| Ledger.Replay | src/apar/v5_independent_verifier.py:1768-1854 | Accepts exactly the manifests that the declarative definition describes |
| Ledger.PaymentChain | src/apar/v5_independent_verifier.py:1817-1845 | However payments interleave, the event at position k > 0 names the payment's event at k - 1, the one at 0 names none |
| Ledger.PrefixNetsToZero | src/apar/v5_independent_verifier.py:1850-1854 | Every prefix of an accepted manifest's postings nets to zero in every currency |
| Ledger.EntriesNamedOnce | src/apar/v5_independent_verifier.py:1848-1849 | The index of an accepted manifest lists the entries of its postings in order, and no entry twice |
| Ledger.PaymentsAddUp | src/apar/v5_independent_verifier.py:1836-1849 | Balances split into those of one payment and those of all the others, wherever its events are interleaved |
| Commands.KindIff | src/apar/v5_independent_verifier.py:1823-1834 | An event of an accepted manifest has a kind exactly when its command is one that the kind records, agentic verdicts included |
| Commands.CommandBooks | src/apar/v5_independent_verifier.py:1240-1296 | Every event of an accepted manifest posts what its command books on its rail under the opening in force, account by account, under the name of event and booking, or nothing |
| Commands.PostsIff | src/apar/v5_independent_verifier.py:1240-1296 | Which commands post at all, rail by rail; on the agentic rail an approved payment whose integrity passes and a card authorisation |
| Commands.OpeningRepeated | src/apar/v5_independent_verifier.py:1792-1815 | Every event repeats amount, currency and both parties of the last opening command of its payment; there is one |
| Commands.LoneEventIff | src/apar/v5_independent_verifier.py:1768-1854 | One event is a whole accepted manifest exactly when its command opens a payment and it is recorded as that command |
| Lifecycles.PaymentEffect | src/apar/v5_independent_verifier.py:1835-1843 | The balances a payment leaves are the effects of its moves, each under the opening in force at it |
| Lifecycles.MovesConserve | src/apar/v5_independent_verifier.py:1850-1854 | The conservation check constrains every move of every payment of an accepted manifest |
| Lifecycles.MoveStep | src/apar/v5_independent_verifier.py:1240-1296 | Every move takes a payment's value from one standing to the next under its own opening, plus the fee of a post, coinciding accounts included |
| Lifecycles.TallyIff | src/apar/v5_independent_verifier.py:1240-1296 | Two lists of signed legs tally alike exactly when they amount to the same on every account in every currency |
| Lifecycles.RoundTripIff | src/apar/v5_independent_verifier.py:1800-1809 | For every accepted manifest and round trip, on any rail and with any number of openings: it costs exactly its fees when and only when the handovers tally to nothing |
| Lifecycles.ReopenedOnceIff | src/apar/v5_independent_verifier.py:1800-1809 | Reopened once, at whichever point: exactly when the two openings agree on what was outstanding there |
| Lifecycles.AgreeIff | src/apar/v5_independent_verifier.py:1250-1286 | Agreement between two accounts is both idle, the same, or turned round with the sign changed |
| Lifecycles.OneOpeningCostsItsFees | src/apar/v5_independent_verifier.py:1240-1296 | A round trip under one opening always costs exactly its fees |
| Lifecycles.NamedTripIsRoundTrip | src/apar/v5_independent_verifier.py:1250-1286 | Authorise-reverse, authorise-settle-refund, authorise-settle-chargeback-recover, post-return and post-freeze-recover are round trips |
| Lifecycles.RestoredIff | src/apar/v5_independent_verifier.py:1250-1271 | On the card rail to cost its fees is to restore every account |
| Lifecycles.RestoredUnseen | src/apar/v5_independent_verifier.py:1835-1849 | A restored payment leaves the whole ledger as if it had never been made |
| Lifecycles.ReopenedWhileClear | src/apar/v5_independent_verifier.py:1800-1809 | A round trip reopened once while nothing is outstanding costs exactly its fees, whatever the two openings |
| Lifecycles.TransferBalance | src/apar/v5_independent_verifier.py:1272-1286 | Post-return and post-freeze-recover, with any openings, leave on every account the fee moved from payer to fee account plus what the handovers leave |
| Lifecycles.TransferCostsFee | src/apar/v5_independent_verifier.py:1272-1286 | Post-return and post-freeze-recover that cost their fees move exactly the fee from payer to fee account |
| Lifecycles.PayerPaysFeeIff | src/apar/v5_independent_verifier.py:1272-1286 | With any openings the payer is out by exactly the fee when and only when the fee it gets as fee account and what the handovers leave it add up to nothing |
| Lifecycles.PayerPaysFeeReopenedIff | src/apar/v5_independent_verifier.py:1800-1809 | Reopened once, after the post or after the freeze: exactly when the fee it gets as fee account plus its part in the old opening equals its part in the new one |
| Lifecycles.PayerPaysFeeAloneIff | src/apar/v5_independent_verifier.py:1276-1280 | Where the trip costs its fees: exactly when the payer does not own the fee account or the fee is zero |
| Scripts.PlayIsAccepted | src/apar/v5_independent_verifier.py:1768-1854 | Every script whose commands fit their openings and whose moves conserve makes an accepted manifest |
| Scripts.ReopenedRestoresIff | src/apar/v5_independent_verifier.py:1800-1809 | Any two openings occur in an accepted authorise, reopen, reverse; it restores all accounts exactly when they agree |
| Scripts.OwnFeeAccount | src/apar/v5_independent_verifier.py:1276-1280 | An accepted post and return whose payer owns the fee account costs it nothing |
| Scripts.OtherPayeePays | src/apar/v5_independent_verifier.py:1800-1809 | An accepted post, reopened for another payee, and returned does not cost its fees, and yet the payer is out by exactly the fee |
| PaymentGroups.GroupAll | src/apar/v5_independent_verifier.py:2919-2933 | The grouping loop fails exactly when an event id repeats over all manifests; otherwise every group is the scan for its payment |
| PaymentGroups.CompleteIff | src/apar/v5_independent_verifier.py:2959-2961 | Over accepted manifests the positions check passes exactly when the payment lies in one manifest, and the sort then changes nothing |
| PaymentGroups.OneValueIff | src/apar/v5_independent_verifier.py:2965-2970 | Over accepted manifests the amount check passes exactly when the payment's openings agree on amount and currency |
| PaymentGroups.AccountPayments | src/apar/v5_independent_verifier.py:2919-3008 | Succeeds exactly when no id repeats and every payment passes the two conditions; lists each payment once in id order with its events in lineage order |
| PaymentGroups.EveryEventOnce | src/apar/v5_independent_verifier.py:2926-2933 | Every event of every manifest is in exactly one payment, at exactly one place |
| PaymentGroups.AccountShows | src/apar/v5_independent_verifier.py:2971-3008 | Every event of a payment accounted for is the stored event at its position; rail, amount, currency and fraud flag are those stored |
| Economics.EscapedIff | src/apar/v5_independent_verifier.py:2971-2990 | Fraud escapes exactly when it is never returned, refunded or recovered and a settlement, a post or an authorization, by rail, comes strictly before every event not approved |
| Economics.PreventedIff | src/apar/v5_independent_verifier.py:2977-2990 | It is prevented exactly when every movement comes no sooner than some event not approved |
| Economics.OneMorePayment | src/apar/v5_independent_verifier.py:3060-3101 | What one more payment adds to the malicious, escaped and prevented amount of a stratum |
| Economics.OneMoreStratum | src/apar/v5_independent_verifier.py:3179-3201 | A stratum without malicious value changes no mean fraction; one with it counts once, with the captured part of its value |
| Economics.CapturedXorEscaped | src/apar/v5_independent_verifier.py:2986-2990 | Every fraud payment is exactly one of captured or escaped, and nothing else is either |
| Economics.StratumIdentities | src/apar/v5_independent_verifier.py:3065-3106 | In every stratum malicious = captured + escaped, and captured = prevented + recovered only, for amounts of any sign |
| Economics.NoStratumNegativeIff | src/apar/v5_independent_verifier.py:3060-3064 | Payments of a kind amount to something negative in no stratum exactly when none of them has a negative amount |
| Economics.CapturedAtMostMaliciousIff | src/apar/v5_independent_verifier.py:3069-3101 | Captured is at most malicious in every stratum exactly when no escaped payment has a negative amount |
| Economics.RecoveredOnlyIff | src/apar/v5_independent_verifier.py:2986-2990 | Captured but not prevented means fraud that moved, was reversed, and was not intervened on in time |
| Economics.GainIsMoved | src/apar/v5_independent_verifier.py:2977-2990 | A stricter policy moves exactly the gained amount from escaped to captured |
| Economics.PreventedAtMostCapturedIff | src/apar/v5_independent_verifier.py:3089-3101 | Prevented is at most captured in every stratum exactly when no payment only its reversal saved has a negative amount |
| Economics.StricterCapturesMoreIff | src/apar/v5_independent_verifier.py:2977-2990 | Intervening on more events lowers no stratum's captured amount, and raises no escaped one, exactly when no payment gained has a negative amount |
| Economics.FractionsAddToOne | src/apar/v5_independent_verifier.py:3179-3201 | The captured and escaped fractions are defined together and then add up to 1 |
| Economics.FractionGain | src/apar/v5_independent_verifier.py:3179-3201 | A stricter policy changes the captured fraction by the mean of the gained fractions |
| Economics.StricterRaisesFractionIff | src/apar/v5_independent_verifier.py:3179-3201 | It lowers the captured fraction over no list of strata exactly when no group of gained payments totals strictly between minus the cushion and 0 |
| Economics.StricterRaisesFraction | src/apar/v5_independent_verifier.py:3179-3201 | In particular not when no payment gained has a negative amount |
| Economics.NegativeGainLowers | src/apar/v5_independent_verifier.py:3179-3201 | A gained negative amount beside a larger fraud that is not gained lowers it |
| Economics.LedgerTotals | src/apar/v5_independent_verifier.py:2934-2941 | The two running totals are, per currency seen, the sums over all postings |
| Economics.TotalsConserve | src/apar/v5_independent_verifier.py:2944-2945 | Over conserving postings the check on the totals cannot fail |
| NegativeAmounts.ScriptIsAccounted | src/apar/v5_independent_verifier.py:2958-3008 | A card script makes an accepted manifest that the accounting turns into the payment described |
| NegativeAmounts.RecoveredOnlyOccurs | src/apar/v5_independent_verifier.py:3089-3101 | An accepted manifest has a payment of any amount that only its reversal saved |
| NegativeAmounts.GainedOccurs | src/apar/v5_independent_verifier.py:2977-2990 | An accepted manifest has a payment of any amount that a stricter policy gains |
| Trust.ReasonIsFirstFailure | src/apar/v5_independent_verifier.py:1402-1488 | The reason is the first failing check, each check judged on its own; none exactly when no check fails |
| Trust.VerifyRecord | src/apar/v5_independent_verifier.py:1516-1596 | The checks on one record pass exactly when it is the record the earlier ones call for |
| Trust.VerifyRecords | src/apar/v5_independent_verifier.py:1512-1596 | The loop over used nonces, used evidence and the last receipt accepts exactly the defined sequences |
| Trust.VerifyTrust | src/apar/v5_independent_verifier.py:1491-1596 | Other rails must carry neither records nor registry; an agentic manifest passes exactly when its sequence does |
| Trust.AllowedIff | src/apar/v5_independent_verifier.py:1402-1488 | A record of an accepted sequence is allowed exactly when its request is signed and meets its mandate in every field and time, its nonce is new, it continues the receipt chain and, under step-up, its evidence is unused and serves it |
| Trust.HistoryRefusals | src/apar/v5_independent_verifier.py:1458-1488 | Which of the last six reasons refuses a signed and authorised request, each exactly, told by the earlier records |
| Trust.CheckedInOrder | src/apar/v5_independent_verifier.py:1402-1488 | The order of the twenty-three checks |
| Trust.RecordShows | src/apar/v5_independent_verifier.py:1512-1596 | What an accepted record repeats of its request and registry, and what its receipt or failure digest is taken over |
| Trust.AfterIsAllowedHistory | src/apar/v5_independent_verifier.py:1567-1579 | The state is exactly the nonces and evidence of the earlier allowed records |
| Trust.NoncesDistinct | src/apar/v5_independent_verifier.py:1576 | Allowed requests have pairwise distinct nonces |
| Trust.StepUpEvidenceOneUse | src/apar/v5_independent_verifier.py:1577-1578 | Under a step-up mandate no evidence reference serves two allowed requests |
| Trust.StepUpEvidenceServes | src/apar/v5_independent_verifier.py:1466-1488 | Under a step-up mandate every allowed request names registered evidence that is verified, of the same agent, user, mandate, nonce, intent and request, and in its time |
| Trust.StepUpAllowedIff | src/apar/v5_independent_verifier.py:1466-1488 | A request that passes the checks before is allowed exactly when it names such evidence unused |
| Trust.EvidenceReusedIff | src/apar/v5_independent_verifier.py:1462-1488 | Under a registry that can allow anything, some accepted sequence reuses an evidence reference exactly when the mandate does not require step-up |
| Trust.ReceiptChain | src/apar/v5_independent_verifier.py:1567-1579 | Each allowed request carries the receipt of the allowed record before it, the first the blank one |
| Trust.RejectedLeavesNoTrace | src/apar/v5_independent_verifier.py:1580-1596 | With a rejected record removed, the others are still accepted and the final state is the same |
| Trust.ReceiptsDistinct | src/apar/v5_independent_verifier.py:1374-1395 | Two allowed records share a receipt exactly when both have the outcome "rejected" |
| Trust.BlankReceiptsOccur | src/apar/v5_independent_verifier.py:1374-1378 | Two allowed records with outcome "rejected" and one blank receipt make an accepted sequence |
| Trust.LastReceiptIff | src/apar/v5_independent_verifier.py:1374-1395 | Two accepted sequences end in one receipt exactly when they allowed the same requests in the same order since the last allowed record with outcome "rejected" |
| Trust.LastReceiptBindsHistory | src/apar/v5_independent_verifier.py:1374-1395 | Two accepted sequences without such a record that end in one receipt allowed the same requests in the same order throughout |
| Trust.BlankEndForgets | src/apar/v5_independent_verifier.py:1374-1378 | Two allowed records with that outcome end in the receipt of the empty sequence |
| RankingMetrics.GroupedAveragePrecision | src/apar/v5_independent_verifier.py:2621-2637 | The loop over distinct scores computes the mean precision of the positives at their own score, and fails exactly without positives |
| RankingMetrics.AveragePrecisionRange | src/apar/v5_independent_verifier.py:2621-2637 | It lies in (0, 1], and is 1 exactly when every positive scores above every negative |
| RankingMetrics.AveragePrecisionReordered | src/apar/v5_independent_verifier.py:2629-2637 | Reordering rows, ties included, changes nothing |
| RankedPrecision.OrderUnseenIff | validation_spike/src/validate.py:552-559 | The per-rank form is the same for every order of the rows exactly when no positive shares its score with a negative |
| RankedPrecision.RankedAtMostGrouped | validation_spike/src/validate.py:552-559 | Without such ties it is at most the grouped form, and equal exactly when positive ties have no negative above them |
| RankedPrecision.RankedIsGroupedIff | validation_spike/src/validate.py:552-559 | Every order of the rows gives the grouped value exactly under both conditions |
| RankedPrecision.RankedIsZeroIff | validation_spike/src/validate.py:552-559 | The per-rank form is 0 exactly without positives and otherwise positive |
| RankedPrecision.GroupedEqualsRanked | validation_spike/src/validate.py:552-559 | In particular whenever no positive shares its score, so whenever all scores are distinct |
| RankedPrecision.MixedOrderSeen | validation_spike/src/validate.py:556-559 | Any tie of a positive and a negative gives two orders of the rows with different values |
| RankedPrecision.TiesBreakTheRankedForm | validation_spike/src/validate.py:556-559 | The smallest such tie: 1 or 1/2 by row order, 1/2 grouped |
| RankingMetrics.PairwiseRocAuc | src/apar/v5_independent_verifier.py:2640-2659 | The double loop computes total wins over pairs, ties one half, and fails exactly without both classes |
| RankingMetrics.RocAucRange | src/apar/v5_independent_verifier.py:2640-2659 | It lies in [0, 1], and is 1 exactly when every positive scores above every negative |
| RankingMetrics.PerfectTogether | src/apar/v5_independent_verifier.py:2621-2659 | One metric is 1 exactly when the other is |
| RankingMetrics.FlippedLabels | src/apar/v5_independent_verifier.py:2640-2659 | With the labels flipped it becomes its complement |
| RankingMetrics.MonotoneRescoring | src/apar/v5_independent_verifier.py:2652-2658 | A map strictly increasing on the scores changes nothing |
| RankingMetrics.RocAucReordered | src/apar/v5_independent_verifier.py:2646-2651 | Reordering rows changes nothing |
| Calibration.CalibrationErrors | src/apar/v5_independent_verifier.py:2794-2810 | The ten-bin loop computes the weighted and the largest gap, and fails exactly without rows |
| Calibration.ErrorsAre | src/apar/v5_independent_verifier.py:2794-2810 | The maximum error is that of some bin and no bin is off by more; the expected error over all rows is what the bins miss |
| Calibration.BinsPartition | src/apar/v5_independent_verifier.py:2867-2873 | Every probability in [0, 1] is in exactly one of the ten bins: that of its first decimal, and 1 in the last |
| Calibration.CalibrationSandwich | src/apar/v5_independent_verifier.py:2794-2810 | Overall gap <= expected error <= maximum error <= 1 |
| Calibration.LowerBoundMetIff | src/apar/v5_independent_verifier.py:2803-2807 | The expected error equals the overall gap exactly when no two bins err in opposite directions |
| Percentiles.PercentileReordered | src/apar/v5_independent_verifier.py:2665 | A percentile does not depend on the order of the values |
| Percentiles.PercentileRange | src/apar/v5_independent_verifier.py:2662-2672 | It lies between least and greatest value, and its two ends are values |
| Percentiles.PercentileMonotone | src/apar/v5_independent_verifier.py:2666-2672 | It never decreases as the percentile grows |
| Percentiles.PercentileBetween | src/apar/v5_independent_verifier.py:2666-2672 | A percentile at position k is order statistic k; a part of the way to k + 1, it is that part of the way between the two |
| Percentiles.PercentileNegated | src/apar/v5_independent_verifier.py:2662-2672 | The percentile at 100 - p of the negated values is minus the percentile at p of the values |
| Percentiles.ReportedPointsOrdered | src/apar/v5_independent_verifier.py:3160-3170 | p50 <= p95 <= p99, and the lower bootstrap bound never exceeds the upper |
| Percentiles.OrderStatisticsMonotone | src/apar/v5_independent_verifier.py:2665 | Raising values raises every order statistic |
| Percentiles.PercentilePointwise | src/apar/v5_independent_verifier.py:2662-2672 | Raising values never lowers a percentile |
| SignResampling.SignMeansAntisymmetric | scripts/run_task6_holdout.py:1826-1836 | Element k of the sorted means is minus element 2^n - 1 - k |
| SignResampling.ObservedMeanListed | scripts/run_task6_holdout.py:1825-1836 | The observed mean is one of the sign-mask means |
| SignResampling.EverySignChoice | scripts/run_task6_holdout.py:1826-1836 | The means listed are those of every choice of signs, each at one mask only |
| SignResampling.IntervalRanks | scripts/run_task6_holdout.py:1837-1838 | The bounds are the sorted means one fortieth of the way in from either end, rounded down |
| SignResampling.RateDelta | scripts/run_task6_holdout.py:1796-1807 | The rate delta is the gain relative to a non-zero baseline, with the sign of the gain over a positive one; against zero it is 0 or 1 |
| SignResampling.DescribedMean | scripts/run_task6_holdout.py:1810-1825 | The reported mean is that of the paired deltas; unpaired lists are refused |
| SignResampling.IntervalAroundZero | scripts/run_task6_holdout.py:1837-1838 | With two or more deltas, lower <= 0 <= upper <= -lower |
| SignResampling.SinglePointInterval | scripts/run_task6_holdout.py:1837-1838 | With one delta the interval is a single point, minus the size of the delta |
| SignResampling.IntervalAroundZeroIff | scripts/run_task6_holdout.py:1837-1838 | The containment holds exactly with two or more deltas, or one that is zero |
| SignResampling.SignsReversed | scripts/run_task6_holdout.py:1826-1838 | Reversing the sign of every delta leaves the sorted means, and so the interval, as they were |
| SignResampling.ArmsExchanged | scripts/run_task6_holdout.py:1796-1807 | Exchanging the two arms: the interval stays, the mean changes sign |
| Routing.InterpSearch | src/apar/v5_independent_verifier.py:1859-1876 | The search loop computes the piecewise-linear value; its last failure is never reached |
| Routing.InterpMonotoneIff | src/apar/v5_independent_verifier.py:1859-1876 | Interpolation is monotone exactly when the knot values do not descend |
| Routing.InterpBetween | src/apar/v5_independent_verifier.py:1859-1876 | Between two neighbouring knots the value is as far between theirs as the argument is; outside it is that of the nearest |
| Routing.DescendingKnots | src/apar/v5_independent_verifier.py:1862-1871 | Two valid knots with descending values: the value falls from 1 to 0 |
| Routing.ModelArmMonotone | src/apar/v5_independent_verifier.py:2540-2551 | Raising raw member scores never lowers the severity of a model-only arm |
| Routing.ProbabilityGrows | src/apar/v5_independent_verifier.py:2540-2548 | Each member adds its interpolated score, cut to [0, 1], to the mean |
| Routing.ModelSeverity | src/apar/v5_independent_verifier.py:1879-1886 | With ordered thresholds the severity of the model action is the number of thresholds the probability reaches |
| Routing.RouteIsModelAction | src/apar/v5_independent_verifier.py:1897-1918 | Where members agree and nothing is novel the full route is the model action, without a flag |
| Routing.RouteIff | src/apar/v5_independent_verifier.py:1897-1918 | When the full route declines, reviews and approves, each exactly; otherwise it challenges |
| Routing.FlagsTellIff | src/apar/v5_independent_verifier.py:1897-1918 | The novelty flag is set exactly when no novelty would give a milder action; the disagreement flag exactly when, novelty aside, agreement would |
| Routing.FullActionWorst | src/apar/v5_independent_verifier.py:2591-2599 | The final action is the more severe of route and rules, each threshold counted, and a trust failure declines |
| Routing.FullActionMonotone | src/apar/v5_independent_verifier.py:1897-1918 | At fixed disagreement the full arm is monotone in probability, novelty and rule score at once, and a trust failure never lowers it |
| Routing.RouteLoweredIff | src/apar/v5_independent_verifier.py:1897-1918 | With probability and novelty raised and disagreement changed at will, the route is lowered exactly when a decline or a review is lost, for any thresholds |
| Routing.FullActionLoweredIff | src/apar/v5_independent_verifier.py:2591-2599 | The full arm is lowered exactly when the route is, trust does not fail, and the rules are below the old route |
| Routing.MembersRaisedLowerIff | src/apar/v5_independent_verifier.py:2535-2599 | Raising raw member scores lowers the full arm exactly in these cases |
| Routing.RaisingOneAwayLowers | src/apar/v5_independent_verifier.py:1900-1906 | Five members at 0.6, one raised to 1: the full arm's action at rule score 0 falls from decline to review |
| Routing.RaisingOneTowardsLowers | src/apar/v5_independent_verifier.py:1907-1915 | Four members at 0.4, the fifth raised from 0.1 to 0.4: it falls from review to challenge |
| Routing.NoisyOrRange | src/apar/v5_independent_verifier.py:2485-2491 | The rule score is in [0, 1] and at least every component |
| Routing.NoisyOrMonotone | src/apar/v5_independent_verifier.py:2485-2491 | Raising or adding a component never lowers it |
| Routing.RuleActionMonotone | src/apar/v5_independent_verifier.py:1921-1981 | Raising features, failing integrity or coherence never lowers rule score or rule action |
| Routing.FailureDeclines | src/apar/v5_independent_verifier.py:1921-1981 | Failed integrity or incoherence scores 1 whatever the features, and is declined exactly when the threshold is at most 1 |
| Routing.LoneSignal | src/apar/v5_independent_verifier.py:1921-1981 | Each signal alone scores 0 below its start, 0.6 there, 0.8 at twice and 1 from three times it on |
| Routing.DegradedAlone | src/apar/v5_independent_verifier.py:1921-1981 | A degraded state alone scores 0.6 |
| Routing.TwoSignals | src/apar/v5_independent_verifier.py:2485-2491 | Two scores combine as independent chances; of two counts of one actor only the larger counts |
| LockedRun.StepKeepsInv | scripts/run_defense_v5_locked_development.py:252-352 | Every call of every process, every death and every machine crash keeps the protocol invariant |
| LockedRun.WorkloadAtMostOnce | scripts/run_defense_v5_locked_development.py:296-304 | Over every interleaving and crash the workload starts at most once, and only after a durable receipt |
| LockedRun.EvidenceChain | scripts/run_defense_v5_locked_development.py:310-342 | A summary on disk implies its durable manifest, which implies a durable receipt with the same run binding |
| LockedRun.CapabilityNeverRefused | scripts/v5_complete_evidence_execution.py:60-80 | The capability check never refuses a process that gets to it |
| LockedRun.CompletedRun | scripts/run_defense_v5_locked_development.py:342-352 | A process that returns leaves its chunks, and receipt, manifest and a complete summary durable, all its own, written out field by field |
| LockedRun.DurableIsFinal | src/apar/evaluation/v5_evidence_storage.py:221-246 | What is durable is never removed, replaced or edited by any continuation |
| LockedRun.AbsenceChecked | scripts/run_defense_v5_locked_development.py:265-276 | Each absence check passes exactly when its place is empty |
| LockedRun.WritesChecked | scripts/v5_complete_evidence_execution.py:60-80 | In every state whatever: the workload starts exactly where the receipt on disk is the process's own, and chunks, manifest and summary are written exactly where their places are empty besides |
| LockedRun.LateRunsRefused | scripts/run_defense_v5_locked_development.py:265-276 | Whoever comes after a durable receipt, manifest or summary is refused for good at the check that looks for it |
| LockedRun.PartialSummaryOccurs | scripts/run_defense_v5_locked_development.py:208-223 | A machine crash can leave a durable summary of which any part is missing, with its chunks or without |
| LockedRun.SpentForever | scripts/run_defense_v5_locked_development.py:266-304 | Once the receipt is durable and nobody is between receipt and workload, the workload never starts again |
| LockedRun.CanStartIff | scripts/run_defense_v5_locked_development.py:266-304 | After every run that has not started the workload, some continuation starts it exactly when the attempt is not spent |
| LockedRun.SpentOccurs | scripts/run_defense_v5_locked_development.py:266-304 | An attempt can be spent with no workload ever started |
| LockedRun.Undisturbed | scripts/run_defense_v5_locked_development.py:252-352 | A process that nothing disturbs reaches the end, having started the workload once, with exactly its own documents on disk |
| LockedRun.Descriptor.Write | scripts/run_defense_v5_locked_development.py:212 | os.write appends an accepted prefix of what it is offered, or nothing |
| LockedRun.WriteAll | scripts/run_defense_v5_locked_development.py:208-216 | The loop terminates; it succeeds exactly when the whole summary was written, and otherwise has written a prefix |
| StageChain.ReadManifests | scripts/run_defense_v5_kaggle_stage.py:360-371 | The reading loop returns the chain the store holds, or there is none |
| StageChain.ReadInputChain | scripts/run_defense_v5_kaggle_stage.py:348-371 | Reading succeeds exactly when the store holds a chain, and returns it |
| StageChain.ChainIff | scripts/run_defense_v5_kaggle_stage.py:348-371 | A chain fills the first slots, at most twelve, each manifest of its stage and naming the digest before it, the first none |
| StageChain.PlanIff | scripts/run_defense_v5_kaggle_stage.py:454-505 | A runner may go on exactly when the chain is not complete and, after the first stage, mode, attempt receipt and bindings agree |
| StageChain.StepKeepsInv | scripts/run_defense_v5_kaggle_stage.py:454-528 | Every step of every runner keeps one linked chain; only a publication lengthens it |
| StageChain.ChainOfEveryRun | scripts/run_defense_v5_kaggle_stage.py:454-528 | In every run the checkpoints are a prefix of the stage order, each names the digest before it, binding and receipt are constant, each stage is published at most once |
| StageChain.EveryManifestWasRead | scripts/run_defense_v5_kaggle_stage.py:454-528 | In every run each published manifest carries the binding of the mode its runner read with, its attempt receipt, and the digest of the last manifest it read |
| StageChain.PublishedIsFinal | src/apar/evaluation/v5_checkpoint_storage.py:554-559 | A published checkpoint is never rewritten |
| StageChain.CompleteChainIsClosed | scripts/run_defense_v5_kaggle_stage.py:460-461 | A complete chain never changes again |
| StageChain.AbandonedForever | src/apar/evaluation/v5_checkpoint_storage.py:554-559 | An abandoned directory without a manifest blocks the chain for good |
| StageChain.CanCompleteIff | scripts/run_defense_v5_kaggle_stage.py:454-528 | From every state of the invariant some continuation publishes all twelve stages exactly when the bindings differ and no directory is abandoned |
| StageChain.CanCompleteAfterEveryRun | scripts/run_defense_v5_kaggle_stage.py:454-528 | After every run from an empty chain some continuation publishes all twelve stages exactly when the bindings differ and no directory is abandoned |
| StageChain.CompleteChainOccurs | scripts/run_defense_v5_kaggle_stage.py:454-528 | Some run from an empty chain publishes all twelve stages |
| StageChain.AbandonedOccurs | src/apar/evaluation/v5_checkpoint_storage.py:554-559 | A directory can be abandoned after any number of published stages |
| StageChain.LastManifestPinsChain | scripts/run_defense_v5_kaggle_stage.py:367-368 | The last manifest's digest determines the whole chain |
| BoundedCapture.CaptureFacts | scripts/verify_g3.py:125-139 | For every order of adds: as full as the ceiling allows, prefixes of what was delivered, flag and single kill exactly on overflow, otherwise complete |
| BoundedCapture.BoundedCaptureObject.Add | scripts/verify_g3.py:125-139 | One add, from lock to kill, takes the fields to their specified next value |
| BoundedCapture.BoundedCaptureObject.Drain | scripts/verify_g3.py:142-154 | A reader adds every chunk up to the first empty or failing read, and a failure sets the flag and kills once |
| BoundedCapture.StepKeepsConsistent | scripts/verify_g3.py:127-139 | Every atomic step of either reader, inside an add included, keeps the fields consistent with the adds begun so far |
| BoundedCapture.StepReads | scripts/verify_g3.py:142-154 | A step takes in exactly the bytes its reader was given, and only while reading; an empty read ends the reader and a failing one fails it |
| BoundedCapture.EveryScheduleIsSequential | scripts/verify_g3.py:127-139 | Under every schedule of the two readers the fields are those of the adds done one after the other |
| BoundedCapture.CeilingAlways | scripts/verify_g3.py:128-134 | At every instant, inside an add included, both captures together stay within the ceiling and are prefixes of what was read |
| BoundedCapture.FinalCapture | scripts/verify_g3.py:105-154 | When both readers are done, by end of file or failure: complete captures without the flag, a full capture and one overflow kill with it |
| BoundedCapture.RunLosesNothing | scripts/verify_g3.py:148-149 | Under every schedule what was read is what was added plus what is in flight |
| CoreProjection.ResultSame | src/apar/v5_independent_verifier.py:373-409 | Results and rows that differ only in the fields dropped have the same stable form |
| CoreProjection.CompleteSame | src/apar/v5_independent_verifier.py:412-445 | Complete metrics that differ only in latency metrics and derived digests have the same stable form |
| CoreProjection.SuiteSame | src/apar/v5_independent_verifier.py:448-557 | Control suites that differ only in score bindings, latency measurements, workload latencies and derived digests have the same stable form and digests |
| CoreProjection.ReadinessSame | src/apar/v5_independent_verifier.py:560-592 | Readiness that differs only in status, latency gate and derived digests has the same stable form |
| CoreProjection.CoreIgnoresTiming | src/apar/v5_independent_verifier.py:595-638 | Two payloads that differ only in timing have the same core document, or are both refused |
| CoreConverse.StableRowDetermines | src/apar/v5_independent_verifier.py:373-382 | Two rows have one stable form exactly when they differ only in the two timing fields |
| CoreConverse.StableResultDetermines | src/apar/v5_independent_verifier.py:385-409 | With a collision-free digest two results have one projection exactly when they differ in the dropped fields only, in themselves and in every row |
| CoreConverse.CompleteIff | src/apar/v5_independent_verifier.py:412-445 | Stable complete metrics are equal exactly when the sources agree on arm, support, the digests of calibration, economics, families and bootstrap, and the aggregate without latencies |
| CoreConverse.EvidenceIff | src/apar/v5_independent_verifier.py:448-494 | Two bodies of row evidence have one stable form exactly when they agree in every field but the timing ones, in every row |
| CoreConverse.ControlIff | src/apar/v5_independent_verifier.py:497-557 | Stable controls are equal exactly when the fields, the measurements without latencies and the row evidence but for its timing agree |
| CoreConverse.SuiteIff | src/apar/v5_independent_verifier.py:497-557 | Stable suites are equal exactly when the suite's fields agree but for its digest and, one by one, the controls do |
| CoreConverse.ReadinessIff | src/apar/v5_independent_verifier.py:560-592 | Stable readiness is equal exactly when arm, gates other than latency and the qualifying controls but for their digests agree; the status adds nothing |
| CoreConverse.CoreIff | src/apar/v5_independent_verifier.py:595-638 | With a collision-free digest two payloads have the same core exactly when header, addresses, results, complete metrics, controls and readiness agree but for the fields named in the rows above |
| CoreFields.RowShows | src/apar/v5_independent_verifier.py:373-382 | A row is accepted exactly with its fields; its stable form seals all but the two timing ones |
| CoreFields.ResultIff | src/apar/v5_independent_verifier.py:385-409 | A result is accepted exactly when it and every row have their fields and every row names its event |
| CoreFields.ResultShows | src/apar/v5_independent_verifier.py:385-409 | A stable result seals the kept fields, the addresses of its rows and the digest of their stream |
| CoreFields.AddressShows | src/apar/v5_independent_verifier.py:385-409 | A row address is the event of the row and the digest of its stable form |
| CoreFields.CompleteAcceptedIff | src/apar/v5_independent_verifier.py:412-445 | Complete metrics are accepted exactly with their fields, the three latencies and a digest in each part |
| CoreFields.CompleteShows | src/apar/v5_independent_verifier.py:412-445 | Stable complete metrics seal exactly eight entries, each under its name |
| CoreFields.ControlEvidenceIff | src/apar/v5_independent_verifier.py:448-494 | Which row evidence each of the seven controls accepts, and what is kept of it |
| CoreFields.ControlAcceptedIff | src/apar/v5_independent_verifier.py:497-557 | A control is accepted exactly with its fields, a name, named measurements and the row evidence its name demands |
| CoreFields.WorkloadArmShows | src/apar/v5_independent_verifier.py:448-494 | A workload arm is accepted exactly with its fields and four per row; it keeps all but the score and the latencies |
| CoreFields.ControlShows | src/apar/v5_independent_verifier.py:497-557 | A stable control seals the kept fields, the measurements that are no latency and the digest of its row evidence |
| CoreFields.ListShows | src/apar/v5_independent_verifier.py:497-557 | Stable controls keep their order, and each name is bound to the digest of the last control so named |
| CoreFields.SuiteShows | src/apar/v5_independent_verifier.py:497-557 | A stable suite seals the suite's fields and its stable controls |
| CoreFields.ReadyIff | src/apar/v5_independent_verifier.py:560-592 | The stable status is "ready" exactly when every gate but the latency gate and every qualifying control has passed, whatever the status of the source |
| CoreFields.ReadinessShows | src/apar/v5_independent_verifier.py:560-592 | Stable readiness seals arm, gates but the one latency gate, qualifying controls and status |
| CoreFields.QualifyingShows | src/apar/v5_independent_verifier.py:575-583 | A qualifying control keeps name and verdict and gets the stable digest of the control it names |
| CoreFields.CoreShows | src/apar/v5_independent_verifier.py:595-638 | A core carries the header and each of the five parts under its name, results in the order of the arms |

## Left out

- The values of `log1p`, `sin` and `cos`: feature rows hold their arguments, and only the domain error of `log1p` is modelled.
- Contents of the deques: an entry is the whole event; the source stores the time and the fields it later reads.
- IEEE and Decimal rounding, float bin boundaries and the float32 cast before tree comparisons: arithmetic is exact.
- SHA-256, Ed25519 and JSON: parameters and datatypes; collision freedom is assumed only where a lemma says so. The row evidence of a control is taken as already parsed.
- Ledger.ReplayEvent: does not check command ids and the facts repeated in the raw event, as they compare copies of one field; decimal strings are compared as numbers, and integrity and action of an agentic command are part of the command.
- Ledger.Replay: the exact-field checks and the artifact digests are not part of the model, nor what `Ledger.ReplayEvent` leaves out.
- Trust: a record whose event is missing from the event times raises a lookup error in the source; in the model that is one more refusal.
- Economic documents: the comparison of reported payments and strata with the recomputed ones, and the check that decisions cover all events, are equality checks on what is modelled.
- Isolation score: the final anomaly exponent and the node bound over all trees.
- Rule coherence: the verdicts on rail, event kind and integrity status enter as two flags; catalog lookup is a record of features that read as zero when absent.
- Rule sources: `_expected_rule_sources`, the quadratic filter, would repeat the window result of the feature stream.
- Calibration: the per-bin document checks; bins and gaps are the same as those modelled.
- Model training, CatBoost scoring, bootstrap draws and generators of synthetic events.
- LockedRun: only this protocol touches its four locations; names of temporary files do not collide; the chunks are one directory entry; readers of published evidence are checks that pass or raise.
- StageChain: the output directory of a runner is the entry its successors read; preflight, telemetry and record framing only decide whether a runner gets to publish.
- BoundedCapture: the timeout path of the caller. The kill after a failing read is counted in `Drain` only; under both threads a failing read just ends its reader.
- CoreProjection: the addresses of the execution artifacts and the header are carried over unchanged; their field sets are not checked again.
- Holdout publication: `_atomic_publish_result` is one more hard-link publication, of the kind modelled in `LockedRun`.
- Preregistration schemas, archives, notebooks, the web service and the command lines.
