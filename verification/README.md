# Tidal: auction rounds, crash-safe sending and fixed-point decay

This project models the parts of Tidal that decide what may happen to a token auction and
proves what they keep. Tidal records every kick, sweep, resolve and settlement of an
auction/token pair as rows of one table. From the table it derives the evidence for each
round, and from the evidence whether the pair may be kicked again. Its command line signs and
sends transactions through a durable outbox that must survive a crash at any point, and it
mirrors the auction contract's ray/wad price decay.

The modules follow the program:

- `Rounds`, `PairHistory`, `Guard`: evidence for one round, the rounds of a pair cut at
  reviewed baselines, and the bounded no-fill guard. `Baselines` and `SuspensionClear`: marks
  never change evidence, and clearing a suspension resets a pair. `RoundRepair`: retiring
  rounds that can no longer be proved, and the audit after it.
- `KickTable`: the table and its lookups. `RoundLinks` and `LinkLaws`: the canonical batch
  scan and what holds after it. `Incremental`: linking row by row against the scan. `Receipts`,
  `ReceiptRows` and `ReceiptLaws`: applying a receipt, what it leaves in each column, and its
  replay. `Ledger`: every reachable table.
  `Settlements`: discovering settlements from chain logs.
- `FrozenRounds`, `GuardRuns`, `ChainLinks`, `ChainRuns`, `LateReceipt`: whole runs of a pair
  under the guard, with receipts replayed, decoded late, and links rebuilt; what holds in any
  order, what chain order adds, and two runs that break the bound.
- `Outbox`, `SendProtocol`, `ExecutionResult`: the report queue, the send loop with its
  restart check, and the summary an operator sees.
- `PriceUnits`, `TerminalAsk`: starting-price encodings, the ray power, the terminal ask and
  its distance from the exact decay.
- `TokenEnabler`: gas-bounded batching. `Alerts`: repeated failures and their delivery.
  `Weiroll`: packed commands.

Code that changes things in place is a class or a loop proved equal to a specification
function, and the laws are lemmas about that function.

## Reading the results

Three promises need a condition.

- The retry bound depends on when a round's evidence reaches the table. If a recovery's
  receipt comes before its kick's, the recovery stays unlinked, its round can be settled
  without it and pass for productive, and the rebuild that every scan performs later turns that
  round into a no-fill (`LateReceipt.LateReceiptBreaksBound`). The same happens in chain order
  when a receipt's events cannot be decoded at first and a replay decodes them after the round
  was settled (`LateReceipt.LateEvidenceBreaksBound`).

  In whatever order receipts and evidence come, the bound holds if two things do
  (`GuardRuns.RestrainedRuns`). Every rebuild starts from an agreeable table: by chain order
  each settled round is closed, and each that chain order makes a no-fill is counted as one
  already. And no evidence decoded late turns a settled round into a no-fill. Agreeable is read
  off the table before the rebuild, and is exact for what the rebuild then does to settled
  rounds: `ChainLinks.RebuiltNoFillIff` and `ChainLinks.RebuiltClosedIff` say so of one round,
  `ChainLinks.RestrainedIff` of them all, and `GuardRuns.StreaksKeptIff` adds that these are
  exactly the rebuilds that lengthen no streak of settled rounds. For the bound itself the
  condition is sufficient only: a longer streak may still be within the delays. In runs that
  confirm rows in chain order and with their evidence it always holds, so there the bound
  is unconditional (`ChainRuns.GuardedRuns`).
- A candidate that cannot be enabled alone can still be sent, riding behind others
  (`TokenEnabler.StowawayExample`). "Rejected exactly when it does not fit alone" holds for all
  candidate lists exactly when the estimator admits no such stowaway
  (`TokenEnabler.RejectionExactIff`, exact for an estimator over all lists, not list by list).
- With 128 literals the plan is still faithful when the last is static; with a dynamic one,
  or with more, it is not. `Weiroll.SlotsFaithfulIff` is exact, so 127 is enough but not the
  limit.

Replaying a receipt changes nothing in any reachable table (`Ledger.ReplayChangesNothing`):
what a row records of its resolution is what its own receipt says.

A recovery at its kick's own position is reported as before its kick
(`tidal/auction_rounds.py:245`). The link laws therefore order rows by position, and
`LinkLaws.RebuiltEvidence` allows that one report for rows sharing the kick's position only.

## Model

| member | source | states |
|---|---|---|
| Rounds.Classify | tidal/auction_rounds.py:186-378 | The early exits and running totals compute exactly the evidence of the specification. |
| Rounds.CollectConfirmed | tidal/auction_rounds.py:227-252 | The scan of linked rows stops at the first row in doubt, or returns exactly the confirmed rows. |
| Rounds.AddRecoveries | tidal/auction_rounds.py:284-297 | The recovery total is the sum of all amounts and is absent exactly if one is missing. |
| Rounds.ClassificationPermutes | tidal/auction_rounds.py:186-378 | Permuting the rows never changes the outcome; for a completed round not the amount, the close or the multiset of recovery ids either. |
| Rounds.CompletedIff | tidal/auction_rounds.py:318-378 | A round is completed exactly when one usable close, sound linked rows and no excess say so; recovered is the sum over linked sweeps, path-2 resolves and the close, within the placed amount; NO_FILL iff equal to it. |
| Rounds.CompletedIds | tidal/auction_rounds.py:284-378 | A completed round lists exactly the rows that gave something back, its close last. |
| Rounds.IncompleteIff | tidal/auction_rounds.py:194-311 | A round is INCOMPLETE exactly when its kick or a linked row still awaits a receipt, or kick and linked rows are in order and no settlement or closing resolve is among them; UNKNOWN is exactly the rest. |
| Rounds.ReasonHolds | tidal/auction_rounds.py:186-378 | The reason given with a verdict is true of the kick and the table, for each of the reasons. |
| PairHistory.KicksSorted | tidal/auction_rounds.py:381-404 | Live kicks are ordered newest first by creation time, then id. |
| PairHistory.KickMembers | tidal/auction_rounds.py:381-404 | The ordered kicks are exactly the submitted and confirmed kick rows. |
| PairHistory.WindowsDisjoint | tidal/auction_rounds.py:405-428 | A placed unlinked close casts doubt on at most one round. |
| PairHistory.WindowsCover | tidal/auction_rounds.py:405-428 | Unless it precedes every kick or shares one's position, it casts doubt on the newest kick before it. |
| PairHistory.UnplacedWindow | tidal/auction_rounds.py:418-428 | A close not on chain yet, created between two neighbouring kicks, is in the older one's window and in no other. |
| PairHistory.PlanNoFillSuspensionClear | tidal/auction_rounds.py:469-492 | The planning loop returns the plan or error of the specification. |
| Guard.ClassifyPairOperations | tidal/auction_rounds.py:495-514 | The loop returns the leading no-fills and the first round that ends them. |
| Guard.BarrierIsLast | tidal/auction_rounds.py:576-587 | A barrier, if any, is the last round of the sequence. |
| Guard.DelayInRange | tidal/auction_rounds.py:592-603 | Wherever a delay is looked up, at least one no-fill is counted, so the index is in range. |
| Guard.AllowsIff | tidal/auction_rounds.py:572-618 | Without the override a kick is allowed exactly when everything back to a productive round or baseline is a no-fill, the retries cover them and the last close's delay has passed. |
| Guard.AnswersIff | tidal/auction_rounds.py:572-618 | For any rounds: deferred exactly while the delay of the no-fill count runs from the newest close, until that moment in minutes; blocked as unknown, incomplete or exhausted each on its exact condition, and never otherwise. |
| Guard.DeferUntilRetryAt | tidal/auction_rounds.py:598-618 | For fixed rows a deferral turns into an allowance exactly at its retry time and stays one. |
| Guard.OverrideOnlyExhaustion | tidal/auction_rounds.py:592-596 | The override lifts exactly an exhausted budget and changes no other decision. |
| Guard.StrayCloseBlocks | tidal/auction_rounds.py:429-437 | An unlinked close in the newest unreviewed round's window blocks kicking, override or not. |
| Guard.LooseCloseBlocks | tidal/auction_rounds.py:396-437 | A resolve or settlement without a round after the newest kick, confirmed behind it on chain or in flight and created after it, blocks as unknown. |
| Baselines.AllRoundsAlike | tidal/auction_rounds.py:381-445 | Baseline marks never change how any round is classified. |
| SuspensionClear.PlanShape | tidal/auction_rounds.py:469-492 | A plan names the newest no-fill; all newer rounds are incomplete and listed in order. |
| SuspensionClear.ClearingSuspension | tidal/auction_rounds.py:448-514 | After a plan is applied no round's class changed, the current rounds are the listed open ones, the count is 0, the guard allows iff there are none and blocks as incomplete otherwise, and planning again fails. |
| GuardRuns.AllowedMeans | tidal/auction_rounds.py:524-618 | When the guard allows a kick, the newest round can no longer change by receipts and the streak is within the retries. |
| GuardRuns.AtMostOneOpen | tidal/auction_rounds.py:381-437 | Under the run invariant two open rounds are the same round, and it is the newest. |
| GuardRuns.NoFillsBounded | tidal/auction_rounds.py:495-514 | Under the run invariant the count is at most the number of delays plus one. |
| GuardRuns.StepKeeps | tidal/operation_reconciler.py:209-260 | Each step keeps the invariant: a kick on leave, a recovery, a receipt received or replayed in any order with its events decoded or not, settlements discovered, a rebuild from an agreeable table, a cleared suspension; evidence decoded late must not make a settled round a no-fill. |
| GuardRuns.StreaksKeptIff | tidal/operation_reconciler.py:713-720 | Exactly the restrained rebuilds keep settled rounds settled and lengthen no streak counted from any of them. |
| GuardRuns.RestrainedRuns | tidal/auction_rounds.py:495-618 | In every run from an empty history, receipts in any order and decoded at once, later or never: if every rebuild starts from an agreeable table and no late evidence makes a settled round a no-fill, a pair never has two open rounds and never counts more than delays plus one no-fills. |
| ChainLinks.LandingChained | tidal/operation_reconciler.py:726-740 | Confirming one more row in chain order, linked by submission or by the lookup, keeps every link canonical, late or without evidence. |
| ChainLinks.RebuiltNoFillIff | tidal/operation_reconciler.py:669-724 | Read off the table before a rebuild: the rebuild makes a kick a no-fill exactly if what chain order puts in its round is sound, nothing is in flight for it, a close is among it and it gives back the placed amount. |
| ChainLinks.RebuiltClosedIff | tidal/operation_reconciler.py:669-724 | After a rebuild a kick has a confirmed close exactly if chain order puts one in its round. |
| ChainLinks.RestrainedIff | tidal/operation_reconciler.py:669-724 | A rebuild keeps settled rounds settled and makes none a no-fill that was not one exactly if the table it starts from is agreeable. |
| ChainLinks.RebuiltRound | tidal/operation_reconciler.py:669-724 | In a table grown in chain order a rebuild leaves a settled round complete or in doubt, and makes it a no-fill only if it was one. |
| ChainRuns.ChainRelink | tidal/operation_reconciler.py:669-724 | In a run in chain order every rebuild is restrained and keeps the run's invariant. |
| ChainRuns.GuardedRuns | tidal/auction_rounds.py:495-618 | In every run from an empty history that confirms rows in chain order and with their evidence, with replays and rebuilds at any time, a pair never has two open rounds and never counts more than delays plus one no-fills. |
| ChainRuns.RunLinksCanonical | tidal/operation_reconciler.py:669-740 | In such a run every recovery carries the scan's link, but for one confirmed after its round was closed and one whose receipt gave no evidence. |
| LateReceipt.LateReceiptBreaksBound | tidal/operation_reconciler.py:148-162 | A legal run whose first recovery's receipt comes before its kick's, under a guard without retries, that ends with two no-fills in a row. |
| LateReceipt.LateEvidenceBreaksBound | tidal/operation_reconciler.py:337-354 | A legal run that confirms every row in chain order and whose one rebuild is restrained, but whose first recovery is decoded after its round was settled; it ends with the same two no-fills. |
| KickTable.KickTxTable.Insert | tidal/persistence/repositories.py:793-797 | Appends the row under a fresh id. |
| KickTable.KickTxTable.Update | tidal/persistence/repositories.py:864-869 | Replaces the row of one id and nothing else. |
| KickTable.KickTxTable.LatestConfirmedUnclosedKick | tidal/persistence/repositories.py:941-985 | The two loops return the newest confirmed kick before the position that no confirmed close names. |
| KickTable.LatestUnclosedKick | tidal/persistence/repositories.py:941-985 | The result is a candidate with the greatest sort key, and absent exactly if there is no candidate. |
| KickTable.LookupIsLatest | tidal/persistence/repositories.py:941-985 | Before a position the lookup returns the one confirmed kick of the pair, named by no confirmed settlement or closing resolve, that is latest in chain order, ids breaking ties; nothing exactly if there is none. |
| KickTable.LookupIsLast | tidal/persistence/repositories.py:972-985 | Under any bound no other candidate is later, missing coordinates counting like zero. |
| RoundLinks.RebuildPair | tidal/operation_reconciler.py:669-724 | The scan leaves the pair's recoveries with their canonical links and every other row as it was; no reported change means no change. |
| RoundLinks.ScanIsCanonical | tidal/operation_reconciler.py:693-719 | The scan's target for a recovery is the kick that is the latest mark before it, and none for path 0. |
| RoundLinks.CanonicalUnique | tidal/operation_reconciler.py:693-719 | A recovery has at most one canonical link. |
| LinkLaws.RebuildRoundLinks | tidal/operation_reconciler.py:669-724 | Rebuilding all pairs relinks exactly their confirmed recoveries, against the table before the call. |
| LinkLaws.RebuildIdempotent | tidal/operation_reconciler.py:669-724 | From any links, rebuilding any set of pairs twice is rebuilding it once. |
| LinkLaws.LinkPlacement | tidal/operation_reconciler.py:693-719 | After rebuilding a set of pairs every link in them names a kick strictly before the recovery with no kick and no close between. |
| LinkLaws.OneClosePerKick | tidal/operation_reconciler.py:693-719 | In every rebuilt pair at most one positioned confirmed close is linked to a kick. |
| LinkLaws.CloseBlocks | tidal/operation_reconciler.py:693-719 | In every rebuilt pair no recovery after a close is linked to the kick it closed. |
| LinkLaws.RebuiltEvidence | tidal/auction_rounds.py:227-330 | After rebuilding a set of pairs classification of any of their rounds never reports a duplicate close or a recovery after the close, nor one before its kick unless it shares the kick's position. |
| Incremental.Fate | tidal/operation_reconciler.py:693-719 | Each kick of a chain-ordered history is exactly one of open, closed by the scan, or superseded while open. |
| Incremental.LookupMeans | tidal/persistence/repositories.py:941-985 | In a scan-linked table the lookup finds the open kick if there is one, else some kick exactly if one was superseded. |
| Incremental.IncrementalAgreesIff | tidal/operation_reconciler.py:726-740 | Linking each recovery as it confirms gives the scan's links exactly when no recovery arrives, with no round open, behind a superseded kick. |
| Incremental.IncrementalAgrees | tidal/operation_reconciler.py:726-740 | They agree on every history without a kick over an open round, path-0 resolves unlinked in both. |
| Incremental.ScanIsRebuild | tidal/operation_reconciler.py:669-724 | The history's scan is the canonical relinking of the table that holds it. |
| Receipts.FirstKickFirst | tidal/operation_reconciler.py:365-373 | A kick row takes the first kick event of its auction and token. |
| Receipts.FirstResolveFirst | tidal/operation_reconciler.py:393-401 | A resolve row takes the first resolve event of its auction and token. |
| Receipts.FirstSweepFirst | tidal/operation_reconciler.py:423-431 | A sweep row takes the first sweep event of its auction and token. |
| Receipts.FinalizeOperations | tidal/operation_reconciler.py:303-490 | The loops over rows and settlement events apply the receipt as specified, each lookup seeing the rows finalized before it, and report the specified error code. |
| ReceiptRows.AppliedRows | tidal/operation_reconciler.py:303-452 | Applying a receipt sets status, place and time in every accepted row of its transaction; if decoded, a kick's requested and placed amounts, a resolve's path and amount and a sweep's amount from the first event of its kind and pair, no amount without one; a missing link becomes a kick of the pair before the receipt, none on path 0; all other rows and columns stay. |
| ReceiptLaws.LinkFailureMeans | tidal/operation_reconciler.py:408-422 | The link failure is reported exactly when the pass leaves some resolve of a real round unlinked. |
| ReceiptLaws.PassFinalizes | tidal/operation_reconciler.py:360-452 | A pass leaves each of its rows in the form finalizing it again would give, whatever came in between, and every other row untouched. |
| ReceiptLaws.SettleAdds | tidal/operation_reconciler.py:454-489 | A settlement row is added only for the pair of an event the receipt did not resolve, never a second for one transaction and pair. |
| ReceiptLaws.SettleExhausts | tidal/operation_reconciler.py:454-489 | Once handled, a settlement event would add nothing again. |
| ReceiptLaws.ReplayHarmless | tidal/operation_reconciler.py:303-490 | A replay changes nothing if recorded closing resolves have closing paths in the receipt. |
| Ledger.HistorySound | tidal/operation_reconciler.py:391-418 | In every reachable table a recorded resolution path is the one the row's own receipt gives. |
| Ledger.ReplayChangesNothing | tidal/operation_reconciler.py:303-490 | In every reachable table, receipts having come in any order, applying a receipt a second time changes no column and adds no row. |
| ReceiptLaws.PlainReplay | tidal/operation_reconciler.py:332-354 | Reverted and undecodable receipts replay to the same table. |
| Settlements.WindowsTile | tidal/operation_reconciler.py:537-551 | Windows begin at the first block, follow each other without gap or overlap, hold 50,000 blocks but for the last, and end at the last block. |
| Settlements.CollectLogs | tidal/operation_reconciler.py:537-569 | The loop collects the logs of exactly those windows, or nothing if one lookup fails. |
| Settlements.WindowsCover | tidal/operation_reconciler.py:537-551 | On a node that answers honestly the scan sees every log of the range once, in order. |
| Settlements.EarliestIsLeast | tidal/operation_reconciler.py:510-530 | The scan of an auction starts at the least block of its placed kicks. |
| Settlements.TransactionsOnce | tidal/operation_reconciler.py:567-581 | Each transaction is handled once, at the position its last log reports. |
| Settlements.SortByPosSorts | tidal/operation_reconciler.py:579-581 | The transactions are handled in chain order, none lost or added. |
| Settlements.DiscoverDirectSettlements | tidal/operation_reconciler.py:492-667 | The nested loops add the closes of the discovered events one by one. |
| Settlements.AuctionScanned | tidal/operation_reconciler.py:508-533 | An auction is scanned exactly for a confirmed placed kick of a pair asked for, from no later than its block. |
| Settlements.DiscoveredIff | tidal/operation_reconciler.py:492-667 | The scan looks at exactly the settlement events, of pairs asked for, of the transactions its logs last report. |
| Settlements.ScanInserts | tidal/operation_reconciler.py:600-665 | Every row inserted is the zero-amount close of such an event, unresolved in its transaction, for the event's own pair, and closes a kick that had no close. |
| Settlements.SettlementCloses | tidal/operation_reconciler.py:600-665 | A scanned settlement, unresolved and not stored before, that can only be of one unclosed kick leaves that kick closed. |
| Settlements.HonestScanSettles | tidal/operation_reconciler.py:492-667 | With a node that answers honestly, every such settlement up to the latest block leaves its kick closed. |
| Settlements.SettleKeepsSingle | tidal/operation_reconciler.py:611-665 | Inserting keeps at most one confirmed close per kick, and each inserted close lies strictly after its kick. |
| Settlements.DiscoveryIdempotent | tidal/operation_reconciler.py:492-667 | Discovering again over the same chain inserts nothing. |
| RoundRepair.BaselineUnprovableRounds | tidal/auction_round_repair.py:106-145 | The loops mark exactly the unprovable, unreviewed rounds of the given pairs, the newest only if the chain says it is over. |
| RoundRepair.ReviewedIff | tidal/auction_round_repair.py:121-143 | Reviewed after the repair are exactly the rounds reviewed before, the older ones UNKNOWN or INCOMPLETE, and the newest if it is and its auction is known to be over; an active auction's newest round is left alone. |
| RoundRepair.OnlyMarks | tidal/auction_round_repair.py:136-143 | The repair changes nothing but marks, and adds them to rounds' kicks only. |
| RoundRepair.RetiresPairwise | tidal/auction_round_repair.py:106-145 | Each pair is repaired on its own, other pairs are untouched. |
| RoundRepair.RetireIdempotent | tidal/auction_round_repair.py:106-145 | With the activity answer fixed, repairing a pair twice is repairing it once. |
| RoundRepair.RepairIdempotent | tidal/auction_round_repair.py:106-145 | The same for the whole table. |
| RoundRepair.CompletedNeverRetired | tidal/auction_round_repair.py:121-126 | A NO_FILL or PRODUCTIVE round is never baselined. |
| RoundRepair.AuditFailsIff | tidal/auction_round_repair.py:168-219 | After the repair the audit fails exactly when the newest round is unreviewed and UNKNOWN with activity not known false, or INCOMPLETE with activity unknown; the same can be read off before the repair. |
| RoundRepair.OnlyNewestHolds | tidal/auction_round_repair.py:106-145 | After the repair every current round but the newest is completed. |
| RoundRepair.RepairAndAudit | tidal/auction_round_repair.py:58-95 | The last two steps over a table: a pair passes exactly unless its newest round was left unsettled. |
| Outbox.ActionReportOutbox.Upsert | tidal/control_plane/outbox.py:160-200 | Inserts the keyed row or replaces its payload; a failed write leaves the old table or the written one. |
| Outbox.ActionReportOutbox.MarkDelivered | tidal/control_plane/outbox.py:77-92 | Deletes exactly the row of the key. |
| Outbox.ActionReportOutbox.PendingReports | tidal/control_plane/outbox.py:94-125 | Lists the oldest matching rows, oldest first, each once, as many as the limit allows. |
| Outbox.PendingMeans | tidal/control_plane/outbox.py:94-109 | The list is ordered by creation time, then id; nothing left out is older than anything listed, and nothing is left out while there is room. |
| Outbox.PendingUnique | tidal/control_plane/outbox.py:94-125 | Which rows are listed depends only on the matching rows. |
| Outbox.ActionReportOutbox.FlushPending | tidal/control_plane/outbox.py:135-158 | Attempts the oldest reports up to the first that is worth waiting for; exactly those taken are gone and counted, each one refused has one more attempt and is marked failed, all else stays. |
| Outbox.FlushedIff | tidal/control_plane/outbox.py:135-158 | Delivered are exactly the reports taken before which every listed one was taken or refused with a status below 500. |
| Outbox.NormalizeMeans | tidal/control_plane/outbox.py:225-227 | Base URLs are told apart up to their trailing slashes. |
| SendProtocol.UnresolvedMeans | tidal/operator_cli_support.py:268-309 | A hash is unresolved exactly if it was sent and no final receipt was seen since. |
| SendProtocol.AtMostOneUnresolved | tidal/operator_cli_support.py:343-373 | In a run that never signs or sends beside an unresolved hash, no URL ever has two. |
| SendProtocol.SendActionReport | tidal/operator_cli_support.py:104-149 | At most this transaction's report row is written or dropped, whatever fails; a queued report that was not taken stays queued, and the invariant holds at every crash point. |
| SendProtocol.UpgradeBroadcasts | tidal/operator_cli_support.py:168-174 | Afterwards every listed broadcast report has a submission with the same identity beside it, and no other report changed. |
| SendProtocol.ReconcileSavedSubmissions | tidal/operator_cli_support.py:343-373 | Signs and sends nothing; passes only if no submission and no broadcast of the URL is left and every submission found has had its outcome reported. |
| SendProtocol.SendOne | tidal/operator_cli_support.py:208-326 | One transaction of the local sender is signed, retained, sent, reported, looked up, reported again and let go in that order, its record confirmed exactly if seen with status 1; at every crash point what happened is the start of that and the invariant holds. |
| SendProtocol.SendAll | tidal/operator_cli_support.py:207-338 | On a normal return the records are the first transactions in order on consecutive nonces, all but the last confirmed, and say exactly what was signed, sent, seen with which status and reported; at any other exit what happened is the start of such a run. |
| SendProtocol.StopsAtRevert | tidal/operator_cli_support.py:336-338 | However the loop ends, nothing is signed or sent after a receipt with a status other than 1. |
| SendProtocol.SeenMeans | tidal/operator_cli_support.py:301-326 | A hash was seen with status 1 exactly if its record is confirmed, with status 0 exactly if it ended otherwise. |
| SendProtocol.BroadcastPreparedAction | tidal/operator_cli_support.py:152-340 | A whole invocation keeps the invariant at every exit, sends in order as above, and returns such records; it signs nothing if a gas limit is below its estimate or the base fee is above its cap or unknown under one. |
| SendProtocol.FlushSafe | tidal/operator_cli_support.py:168-174 | The flush drops no broadcast report that was not upgraded just before. |
| SendProtocol.RunFrom | tidal/operator_cli_support.py:152-373 | Over any invocations and crashes, from an outbox that may hold unresolved hashes only as undelivered broadcast reports, every unresolved hash stays retained, nothing is signed or sent beside one, no URL ever has two, and every outcome reported, or queued since, is the one the receipt just seen for that transaction gave. |
| SendProtocol.RunJobs | tidal/operator_cli_support.py:152-373 | From an empty outbox the same holds with a submission row for every unresolved hash, of every outcome ever reported or queued. |
| ExecutionResult.SummaryOfRun | tidal/execution_result.py:28-43 | For such records the four counts add up to the expected number, pending plus failed is at most 1, and each status says exactly how the run ended; "confirmed" iff there was something to send and all of it confirmed. |
| ExecutionResult.VerdictMeans | tidal/execution_result.py:28-43 | For any records, each status exactly when the kinds of record present, and whether some are missing, say so. |
| ExecutionResult.CountsDisjoint | tidal/execution_result.py:29-31 | No record is counted twice, so the pending count is never negative. |
| PriceUnits.CeilDivIsCeil | tidal/auction_price_units.py:22-25 | The quotient is the least integer covering the numerator, for every sign. |
| PriceUnits.WholeWantCovers | tidal/auction_price_units.py:28-54 | A whole-want price is the least number of want tokens covering the buffered quote. |
| PriceUnits.WadWantCovers | tidal/auction_price_units.py:28-54 | A wad-want price is the least wad amount covering it, refused exactly when it exceeds the width. |
| PriceUnits.EncodingMonotone | tidal/auction_price_units.py:28-54 | Encoding is monotone in the quote and in the buffer. |
| PriceUnits.EncodedIff | tidal/auction_price_units.py:28-54 | Exactly the positive quotes with 0 to 18 decimals and no negative buffer are encoded, in wad only those worth more than 10^9. |
| PriceUnits.EncodingsAgree | tidal/auction_price_units.py:28-54 | Whenever both encodings accept a quote, the whole-want price is the wad-want price over 10^18, rounded up. |
| PriceUnits.DecodeEncodeCovers | tidal/auction_price_units.py:57-64 | Decoding an encoded price covers the buffered quote, and one unit less does not. |
| PriceUnits.RaiseRay | tidal/auction_price_units.py:78-89 | The square-and-multiply loop terminates, equals its recursive form and meets the error bound. |
| PriceUnits.RpowNear | tidal/auction_price_units.py:73-89 | For a base in [0, 10^27] the power stays in range and within (n-1)/2 units of the exact value. |
| PriceUnits.RpowFromMonotone | tidal/auction_price_units.py:78-89 | The rounded power is monotone in its base. |
| PriceUnits.LatentTerminalAsk | tidal/auction_price_units.py:92-128 | An ask is computed exactly for valid inputs. |
| PriceUnits.TerminalAskBelowStart | tidal/auction_price_units.py:92-128 | 2·10^18·ask·want_scaler is at most 2·10^18·start_wad plus the lot in 18-decimal units, start_wad being the starting price in wad for either encoding. |
| TerminalAsk.AskFollowsDecay | tidal/auction_price_units.py:92-128 | Scaled to 36 decimals of want, the ask is at most, and one unit more is above, the starting price times ((10000 - bps)/10000)^steps, up to the stated rounding of the initial price, the power and the last product. |
| PriceUnits.TerminalPriceNearDecay | tidal/auction_price_units.py:112-122 | The terminal price follows the exact geometric decay within the stated bound. |
| PriceUnits.TerminalAskMonotone | tidal/auction_price_units.py:92-128 | The ask never falls with a dearer start and never rises with a steeper decay. |
| TokenEnabler.EnableAuctionBatches | tidal/scanner/auction_token_enabler.py:313-415 | Emissions concatenate to the candidates; each sent batch is non-empty with the estimator's own answer within the limit; a deterministic estimator gives the greedy plan. |
| TokenEnabler.GreedyPlanUnique | tidal/scanner/auction_token_enabler.py:313-415 | The declarative greedy plan has one solution. |
| TokenEnabler.RejectionExactIff | tidal/scanner/auction_token_enabler.py:313-415 | "Rejected iff its singleton does not fit" holds for all candidate lists iff the estimator admits no stowaway. |
| TokenEnabler.StowawayExample | tidal/scanner/auction_token_enabler.py:325-350 | An estimator for which the one plan of a two-candidate list sends both, although the second does not fit alone. |
| TokenEnabler.RejectedCandidate | tidal/scanner/auction_token_enabler.py:340-395 | Every rejected candidate fails or exceeds the limit on its own. |
| TokenEnabler.StaysAhead | tidal/scanner/auction_token_enabler.py:313-415 | A feasible contiguous partition reaching past the start of a sent batch already has more parts. |
| TokenEnabler.FewestBatches | tidal/scanner/auction_token_enabler.py:313-415 | If all singletons fit and feasibility is closed under contiguous sub-batches, no contiguous partition has fewer batches. |
| Alerts.FailuresMean | tidal/alerts/service.py:511-529 | A run's map holds exactly the identities that failed in it outside price reads, each with its last row. |
| Alerts.CollectHistory | tidal/alerts/service.py:499-529 | The loops read the failures of the eligible runs, newest first. |
| Alerts.ScanAdds | tidal/alerts/service.py:499-529 | A successful or partly successful scan puts the identities of its run's error rows, price reads aside, in front of the history; any other scan changes nothing. |
| Alerts.RepeatedFailures | tidal/alerts/service.py:530-576 | From that history, an alert exists exactly for identities failing in the newest three eligible runs, under the row that opened the streak. |
| Alerts.StreakKeepsOccurrence | tidal/alerts/service.py:538-545 | Further failing runs never change an alert's occurrence. |
| Alerts.BrokenStreakIsNew | tidal/alerts/service.py:538-545 | After a run without the failure a new streak has a new occurrence. |
| Alerts.DeliveryStore.Deliver | tidal/alerts/dispatcher.py:24-97 | Sends exactly if no success is stored and fewer than three attempts were made, counted first; a send taken is stored as sent, one refused as failed, unless the process died on it; the invariant holds at every crash point. |
| Alerts.DeliveryStore.Dispatch | tidal/alerts/dispatcher.py:21-97 | Finished pairs are never sent again and each unfinished one is attempted once. |
| Alerts.Operate | tidal/alerts/dispatcher.py:21-97 | Over any scans, restarts and crashes each pass sends only due occurrences, finished ones never again, and unless it crashes finishes or attempts every due one. |
| Alerts.StreakSends | tidal/alerts/service.py:538-545 | While an identity keeps failing, everything sent about it names the one row that opened the streak, and each destination gets at most three sends, across restarts and crashes. |
| Alerts.NoneAfterSuccess | tidal/alerts/dispatcher.py:51-97 | Once a success is stored, that occurrence is never sent to that destination again. |
| Alerts.NoneAfterTaken | tidal/alerts/dispatcher.py:51-97 | Once the sink took an occurrence for a destination it is never sent there again, in that pass or any later one, unless the process died before it could store the success. |
| Weiroll.PackCommand | tidal/ops/weiroll.py:57-82 | Packing fails exactly for a bad selector, more than six slots, or a field reaching past the top of the word, and unpacking a packed command whose fields fit gives every field back. |
| Weiroll.UnpackLeading | tidal/ops/weiroll.py:57-82 | The ten fields of a fitting command, read as digits, unpack to it and stay below 2^256. |
| Weiroll.SlotsFaithfulIff | tidal/ops/weiroll.py:85-108 | All slots index their own cell, mark dynamic types and avoid the unused marker exactly for at most 127 literals, or 128 with a static last one. |
| Weiroll.PlaceLiterals | tidal/ops/weiroll.py:94-101 | Each literal gets its own new cell and a slot pointing at it. |
| Weiroll.PlanReadsBack | tidal/ops/weiroll.py:85-108 | In a built plan each used slot's low seven bits index the cell holding that argument, bit seven is set iff its type is dynamic, and no used slot is the unused marker. |
| Weiroll.BuildLiteralCalls | tidal/ops/weiroll.py:85-108 | The state is the encoded literals in order, each command unpacks to its call with slots for exactly its own arguments, and every argument reads back. |

## Left out

- Timestamps are whole seconds or absent; ISO text order is taken to be time order, and `created_at` ties are broken by id as in the source.
- `list_pair_operations` orders by creation time; the model keeps id order. `Rounds.ClassificationPermutes` shows outcomes do not depend on it.
- Columns no modelled code reads back: source address, gas, normalized balance, error messages, baseline reason and time.
- Addresses and hashes are opaque; RPC answers, decoded events, gas estimates, signatures, selectors and literal encodings are parameters.
- PriceUnits.DecodeEncodeCovers: the decoded amount is an exact real; the library's decimal context precision is not modelled.
- Settlements.DiscoverDirectSettlements: auctions are visited in order of first appearance rather than sorted by address, receipt and block caches and the error records are not modelled, and a missing block time does not stop the scan.
- Receipts.FinalizeOperations: intent verification before finalization is a parameter saying which rows are accepted.
- GuardRuns.RestrainedRuns: the kick planner is not part of this model, the guard's leave is the step's precondition; the clock that stamps kicks does not go back; the override is not a step of these runs.
- GuardRuns.StepKeeps: marking unprovable rounds is not a step. It may mark a kick still awaiting its receipt; if that kick reverts, its mark no longer cuts the history and the rounds before and after it are counted together. With one retry delay: a no-fill, a kick marked while submitted, two more no-fills, then the revert, and the count is three.
- Ledger.ReplayChangesNothing: one receipt per transaction, so a reorganisation that moves a transaction is not modelled.
- SendProtocol.RunJobs: one invocation at a time; two processes sharing an outbox are not modelled. Fee arithmetic other than the cap check, gas estimation and address checksums are answers of the environment, and transactions are identified by their place and nonce.
- Outbox.ActionReportOutbox.FlushPending: the error text of refused reports is not modelled.
- Alerts.Operate: message text is not modelled; the delivery key is the occurrence, whose row id makes its text unique.
- Weiroll.BuildLiteralCalls: for more than 128 literals only the state is specified.
- The exit codes, renderers, dashboards, migrations, HTTP clients, Telegram transport, configuration, the settlement decision, price refresh and auction mapping are not part of this model.
