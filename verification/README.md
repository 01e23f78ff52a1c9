# Capital OS: a verified model

Capital OS is a double-entry ledger with approval-gated writes, surrounded by exact-decimal projection engines.
This project models its core in Dafny and proves what that core promises: exactly-once commits, quorum, balance,
conservation of money through the engines, and the shape of the account tree, of page walks and of histories.
`dafny verify dfyconfig.toml` checks everything.

## How the model is built

* **Amounts** are integers counting units of 0.0001, or exact `real`s where the code still holds an unrounded decimal.
  `Money` gives `normalize_amount` its meaning; `Ordering` gives strings and sorting theirs; `Calendar` is Python's
  proleptic Gregorian `date`.
* **The ledger** is written twice. `LedgerTables` and `LedgerTools` give every tool call as a function from one
  database state to the next; `LedgerStore` is the class whose fields are the tables, with the source's loops, in-place
  updates and rollbacks, each method proved equal to that function. `LedgerInvariants`, `ProposalLifecycle`,
  `ApprovalGate` and `LedgerRuns` prove the function's properties, over single calls and over whole runs; `Recorded` says
  figure by figure what a call leaves and answers, and `Balances` what an as-of balance is.
* **Races** are in `Interleaving`. SQLite takes the write lock at a call's first INSERT or UPDATE, so each call is a
  few unlocked reads followed by one atomic write. The pieces of any number of calls interleave arbitrarily, and a call
  may carry what it read, a proposal or an answer of the gate, into its write. The gate is three reads, of the period, of
  the rules and of the duplicates; only the row counts behind velocity limits, taken rule by rule, may come out any way.
  Run back to back the pieces are exactly the calls of the first model. `Races` says what this does to decisions over
  whole schedules, `Verdicts` what it does to direct rows, and `ClosedPeriods` what late approvals do to closed and locked
  periods; `Samples` is the data of their examples.
* **Projections**: `Simulation`; `Posture` (the validator and the consolidation, with their loops) and `PostureLaws`
  (what the result promises); `Debt`.
* **Accounts**: `Hierarchy` (parent links and the triggers' ancestor query), `Accounts` (the table and its writes),
  `AccountTree` (the recursive subtree query), `AccountForest` (the forest built from heap nodes), `CycleCheck` (the
  importer's depth-first walk), `CoaFiles` (the file and its validator), `CoaImport` (the upsert loop), `CoaOutcomes`
  (when it succeeds), `IdentifierHistory` (profile updates).
* **Paging** holds for any listing whose seek condition fits its order; accounts and transactions are the two instances.

## What came out differently from what one might expect

Where the good property fails on some inputs, the exact condition under which it holds is proved.

* Simulation periods leave a day uncovered when a start on the 29th to the 31st is clamped in a short month and the
  next month is longer; a spend on that day is never charged (`Simulation.TilesExactly`,
  `Simulation.ChargesExactlyWhenNeverClamped`).
* The consolidated reserve ratio can exceed every entity's ratio when some but not all reserve targets are zero, because
  an entity without a target reports ratio zero whatever it holds (`PostureLaws.BracketedExactly`).
* A rejection that read its proposal before a concurrent approval committed still writes its status, so the ledger keeps
  the row while the proposal says rejected, and a late approval takes a proposal out of rejected likewise. No other event
  undoes a decision (`Races.DecisionsUndoneThroughout`; `Races.StaleRejectionSchedule` and `Races.StaleApprovalSchedule`
  are such schedules).
* Nothing the gate read is read again before the write. A direct row therefore lands in a shut period exactly when the
  period was shut after the call read it, and beside a row that covers it exactly when that row was committed after the
  call looked for duplicates (`Verdicts.DirectRowsAdmitted`). A call that arrives after the close, or after the covering
  row, never lands one (`Verdicts.LateArrivalsNeverLand`), and which calls still can when a period is shut is
  `Verdicts.ShutPeriodTakesDirectExactly`.
* `docs/data-model.md:237-238` says that writes to a closed period require adjusting-entry tags and writes to a locked one
  an override. Recording enforces this and approving does not look at periods at all, so the model follows the code: such
  a row lands after the close or lock exactly when its proposal was already pending
  (`ClosedPeriods.ClosedPeriodTakesNonAdjustingExactly`, `ClosedPeriods.LockedPeriodTakesNoOverrideExactly`).
* A chart-of-accounts dry run does not foretell whether an apply will succeed; that depends on the order of the file and
  on the table, exactly as `CoaOutcomes.ImportSucceedsExactly` says.

## Model

| member | source | states |
|---|---|---|
| Money.RoundHalfEven | src/capital_os/domain/ledger/invariants.py:12-13 | The result is a nearest integer, and the even one on a tie. |
| Money.NearestEvenUnique | src/capital_os/domain/ledger/invariants.py:12-13 | That promise determines the result. |
| Money.RoundMonotone | src/capital_os/domain/ledger/invariants.py:12-13 | Rounding never reverses an order. |
| Money.RoundOdd | src/capital_os/domain/ledger/invariants.py:12-13 | Rounding commutes with negation. |
| Money.NormalizeIdempotent | src/capital_os/domain/ledger/invariants.py:12-13 | Quantizing a quantized amount changes nothing, so re-normalising a stored payload is harmless. |
| Money.NormalizeLaws | src/capital_os/domain/ledger/invariants.py:12-13 | Normalisation is odd, monotone and moves a value by at most half a unit. |
| Money.SumByKey | src/capital_os/domain/posture/consolidation.py:14-34 | Totalling by key and then over the keys is totalling, when each key is listed once. |
| ApprovalGate.ImpactExact | src/capital_os/domain/approval/policy.py:25-28 | For every balanced bundle the impact is exactly the sum of the normalised positive legs: the halving never rounds. |
| ApprovalGate.EvaluationFindsGoverningRule | src/capital_os/domain/policy/service.py:138-168 | The loop over rules in (priority, rule_id) order stops at the applicable rule that is least in that order, and at none exactly when no active rule applies. |
| ApprovalGate.GoverningRuleUnique | src/capital_os/domain/policy/service.py:46-82 | With unique rule ids at most one rule governs a bundle. |
| ApprovalGate.AppliesExactly | src/capital_os/domain/policy/service.py:84-136 | A rule applies if and only if it is active, each criterion is absent, empty or the bundle's own, and any velocity limit counts enough rows of the bundle's source and entity in its window of seconds, or at any time when the window holds none. |
| ApprovalGate.GovernsExactly | src/capital_os/domain/policy/service.py:46-82 | The governing rule is the matching one of least priority number and then of least id in string order. |
| ApprovalGate.PolicyExactly | src/capital_os/domain/policy/service.py:138-168 | Approval is required if and only if it is forced, or the governing rule has a velocity limit, or the impact exceeds its threshold (the fallback threshold when no rule applies). |
| DecimalText.AmountTextInjective | src/capital_os/domain/ledger/repository.py:28-77 | The four-place text of an amount determines the amount. |
| DecimalText.AmountReadBack | src/capital_os/observability/hashing.py:17-18 | The text of an amount reads back as the amount: a minus sign exactly when it is negative, digits without a superfluous zero, a point and four digits. |
| Ordering.StrLeMeaning | src/capital_os/domain/debt/engine.py:177-184 | Strings sort by prefix, or by the smaller code point where they first differ. |
| DecimalText.KeyTextInjective | src/capital_os/domain/ledger/repository.py:28-77 | The key text, account id and amount joined by a bar, determines both parts, even when the account id contains the separator. |
| ApprovalGate.CountingQueryIsContainment | src/capital_os/domain/ledger/repository.py:28-77 | The counting query matches a transaction if and only if it posted every required (account, amount) pair. |
| ApprovalGate.DuplicatesMeaning | src/capital_os/domain/ledger/repository.py:28-77 | A row covers a bundle when it is of the same day and has, for every leg, a posting on that account of that quantized amount; a bundle without legs is covered by none. |
| ApprovalGate.DuplicatesExactly | src/capital_os/domain/ledger/repository.py:28-120 | The duplicate query returns nothing if and only if no row of the same UTC day posted all of the bundle's pairs. |
| ApprovalGate.QuorumFromGoverningRule | src/capital_os/domain/policy/service.py:138-168 | A proposal takes its threshold, quorum and matched rule from the governing rule, and the fallback and a quorum of one when none applies. |
| ApprovalGate.GateSound | src/capital_os/domain/ledger/service.py:165-180 | Whatever is let through had an open or absent period, an impact the policy admits, and no duplicate, even if two rules shared an id. |
| ApprovalGate.GateExactly | src/capital_os/domain/ledger/service.py:165-180 | With unique rule ids the gate opens if and only if those three conditions hold, and refuses if and only if the period is closed without an adjusting entry or locked without an override; every other bundle it proposes. |
| LedgerTables.FindRow | src/capital_os/domain/ledger/repository.py:11-25 | A row is found exactly when one has this (source_system, external_id). |
| LedgerInvariants.InsertExactly | src/capital_os/domain/ledger/repository.py:123-165 | Insertion succeeds if and only if the key is free, the entity known and every leg acceptable; it then adds one header and all legs under consecutive ids. |
| LedgerInvariants.ViolatedStage | src/capital_os/domain/ledger/repository.py:123-165 | A failed insertion left the tables alone or left a header with no response, which no replay can find. |
| LedgerInvariants.AppendedRows | src/capital_os/domain/ledger/repository.py:123-165 | The new transaction holds exactly the bundle's legs and every other transaction keeps its own. |
| LedgerInvariants.AppendKeepsLedger | src/capital_os/domain/ledger/repository.py:123-176 | Committing a balanced bundle keeps keys and ids unique, postings owned, saved responses complete and every day's total zero. |
| LedgerInvariants.TrialBalance | src/capital_os/domain/ledger/repository.py:591-602 | Under that invariant the balances of all accounts sum to zero for every as-of day. |
| Balances.CommitMovesBalance | src/capital_os/domain/ledger/repository.py:556-602 | Committing a bundle adds its quantized legs on an account to that account's balance on every day from the bundle's day on, and to no earlier one. |
| Balances.StepCommits | src/capital_os/domain/ledger/repository.py:123-176 | One call leaves ledger and postings alone or commits exactly one bundle, which the call records or a proposal stores. |
| Balances.BalancesOverRuns | src/capital_os/domain/ledger/repository.py:556-602 | After any run of a fresh database every balance on every day is the total of the account's legs on the committed bundles dated on or before that day, one bundle to each ledger row. |
| Recorded.RecordFailsExactly | src/capital_os/domain/ledger/service.py:137-319 | Recording reports a currency other than USD, an unbalanced total or an integrity failure, each exactly when it should; besides a period error nothing else fails, and a failure changes nothing. |
| Recorded.RecordAnswersAgain | src/capital_os/domain/ledger/service.py:146-163 | A call that succeeds without writing answers with what is saved under its key: the row's response marked as a replay, or the proposal's. |
| Recorded.RecordedProposal | src/capital_os/domain/ledger/service.py:182-237 | A proposal that recording adds has the bundle's fields and quantized legs, its positive legs as impact, and the quorum, threshold and id of the rule that governs the bundle (one approval, the fallback and none when no rule applies); the answer repeats them, counts no approval and shows the covering rows. |
| Recorded.RecordedRow | src/capital_os/domain/ledger/service.py:238-260 | A row that recording adds has every field of the bundle, and the ledger gains exactly its legs, quantized, in (account, amount text, memo) order under fresh ids; the saved response names them and is the answer. |
| Recorded.ApproveAnswersExactly | src/capital_os/domain/approval/service.py:58-100 | An unknown or rejected proposal cannot be approved, several approvals need a named approver, and a committed proposal answers with its commit; nothing changes. |
| Recorded.ApprovePendingExactly | src/capital_os/domain/approval/service.py:82-217 | A repeated approver reads the count; any other approval is recorded once with its reason, and either the count stays short of the quorum and is answered, or the quorum is met and the stored request is committed, the row under its key adopted, or the call fails without a trace, each exactly when it should. |
| Recorded.RejectExactly | src/capital_os/domain/approval/service.py:220-280 | A committed proposal cannot be rejected, a rejected one answers as before, and a pending one is refused in place with its decision and reason recorded and nothing else touched. |
| Recorded.QuorumOverRuns | src/capital_os/domain/ledger/service.py:182-205 | A bundle proposed under a governing rule, whatever runs afterwards: a row its proposal commits has exactly as many approvals as that rule asks for, by different people when it asks for more than one. |
| ProposalLifecycle.WriteCommitShape | src/capital_os/domain/approval/service.py:157-206 | The commit half of an approval inserts the stored bundle, adopts the row that beat it, or fails without a trace. |
| ProposalLifecycle.CanonicalUnits | src/capital_os/domain/ledger/service.py:43-68 | The legs stored with a proposal keep the normalised total, the absolute total (hence the impact) and the currency check of the legs it was recorded with. |
| ProposalLifecycle.ApprovalCounted | src/capital_os/domain/approval/service.py:40-43 | A fresh approval of a pending proposal is recorded, its approvers stay distinct when more than one is required, and the count equals the approvals on record and never exceeds the quorum. |
| ProposalLifecycle.RecordKeepsInv | src/capital_os/domain/ledger/service.py:137-319 | Recording keeps the invariant of proposals, decisions and ledger. |
| ProposalLifecycle.ApproveKeepsInv | src/capital_os/domain/approval/service.py:58-217 | Approving keeps it. |
| ProposalLifecycle.RejectKeepsInv | src/capital_os/domain/approval/service.py:220-280 | Rejecting keeps it. |
| LedgerRuns.RunKeepsInv | src/capital_os/db/session.py:64-73 | Every run of the write tools, one call at a time, whatever fails, keeps the invariant. |
| LedgerRuns.TrialBalanceOverRuns | src/capital_os/domain/ledger/repository.py:591-602 | After any run of a fresh database, for every day, the balances of all accounts sum to zero. |
| LedgerRuns.ProposalsSettledOverRuns | src/capital_os/domain/approval/service.py:58-280 | After any run a pending proposal has fewer approvals than required and no rejection; a committed one exactly its quorum, from distinct approvers when more than one is required, and a ledger row under its own key; a rejected one exactly one rejection. |
| LedgerRuns.RunExtends | src/capital_os/domain/approval/service.py:58-280 | Over any run tables only grow, transactions keep their legs, status moves only from proposed, a settled proposal is never touched again and periods only advance. |
| LedgerRuns.StableReplay | src/capital_os/domain/ledger/service.py:146-163 | Once a key is in the ledger, recording under it after any further run returns the saved transaction, postings and hash, and changes nothing. |
| LedgerRuns.RejectionFinal | src/capital_os/domain/approval/service.py:58-80 | No run revives a rejected proposal, by re-recording or otherwise, and approving it always fails. |
| LedgerRuns.CommitFinal | src/capital_os/domain/approval/service.py:58-280 | No run changes a committed proposal; approving it again answers with the same commit and rejecting it always fails. |
| LedgerRuns.EveryRowEarned | src/capital_os/domain/ledger/service.py:165-319 | In every run of a fresh database each ledger row was recorded by some call through an open gate, or is vouched for by an approved proposal with its full quorum; either way it holds the legs asked for. |
| LedgerRuns.ClosedPeriodsOnlyApproved | src/capital_os/domain/periods/service.py:34-113 | From the moment a period is closed or locked no run ever commits a row in it without approval. |
| LedgerRuns.ShutMonthOnlyApproved | src/capital_os/domain/periods/service.py:34-113 | Once a year and month are closed or locked for an entity, no run ever commits a row of that entity dated in them without approval. |
| LedgerRuns.PeriodCallsLand | src/capital_os/domain/periods/service.py:34-89 | After close_period the period is never open again and after lock_period it is locked for good, over any run. |
| ClosedPeriods.RecordRefusedExactly | src/capital_os/domain/ledger/service.py:146-180 | Recording raises a period error if and only if the bundle is well-formed, its key is not in the ledger, and its period is closed without an adjusting entry or locked without an override; a committed key still replays, a pending one is refused too, and nothing changes. |
| ClosedPeriods.NothingUnfitLands | src/capital_os/domain/approval/service.py:58-217 | With no unfit proposal pending for a closed or locked period, no run adds an unfit row to it (for a closed one: no run that does not lock it). |
| ClosedPeriods.ClosedPeriodTakesNonAdjustingExactly | src/capital_os/domain/approval/service.py:58-217 | From a state where a period is closed, some run that never locks it adds a non-adjusting row there if and only if a non-adjusting proposal is already pending for it under a key the ledger does not have. |
| ClosedPeriods.LockedPeriodTakesNoOverrideExactly | src/capital_os/domain/approval/service.py:58-217 | From a state where a period is locked, some run adds a row there whose request has no override if and only if such a proposal is already pending for it under a key the ledger does not have. |
| ClosedPeriods.LateApprovalExample | src/capital_os/domain/approval/service.py:58-217 | Record a transfer over the threshold, close its month, approve it: an ordinary row lands in the closed month. |
| ClosedPeriods.LateApprovalAfterLockExample | src/capital_os/domain/approval/service.py:58-217 | Lock the month instead: a row whose request has no override lands in it. |
| LedgerRuns.DuplicatesApprovedOverRuns | src/capital_os/domain/ledger/repository.py:28-77 | Over any run, of two rows of one UTC day, if the later posts only pairs the earlier posted too, the later was committed by approval. |
| LedgerStore.Store.LoadActiveRules | src/capital_os/domain/policy/service.py:46-82 | The loop collects exactly the active rules, in order. |
| LedgerStore.Store.EvaluateTransactionPolicy | src/capital_os/domain/policy/service.py:138-168 | The loop with its break computes the policy decision. |
| LedgerStore.Store.FindDuplicateRiskMatches | src/capital_os/domain/ledger/repository.py:28-120 | The query loop finds exactly the matching transactions. |
| LedgerStore.Store.InsertPostings | src/capital_os/domain/ledger/repository.py:141-163 | The legs are inserted in order until one is refused. |
| LedgerStore.Store.InsertTransactionBundle | src/capital_os/domain/ledger/repository.py:123-165 | Header and legs go in, or the failure leaves the staged rows in place for the caller to roll back. |
| LedgerStore.Store.RecoverFromConflict | src/capital_os/domain/ledger/service.py:257-319 | After an integrity error: the saved response, else the proposal, else the error. |
| LedgerStore.Store.RecordTransactionBundle | src/capital_os/domain/ledger/service.py:137-319 | The tables and the result are those of one record step; every failure rolls back whole. |
| LedgerStore.Store.ApproveProposedTransaction | src/capital_os/domain/approval/service.py:58-217 | The tables and the result are those of one approve step; every failure rolls back whole. |
| LedgerStore.Store.RejectProposedTransaction | src/capital_os/domain/approval/service.py:220-280 | The tables and the result are those of one reject step. |
| LedgerStore.Store.ClosePeriod | src/capital_os/domain/periods/service.py:116-148 | A period becomes closed unless it is locked. |
| LedgerStore.Store.LockPeriod | src/capital_os/domain/periods/service.py:151-183 | A period becomes locked, whatever it was. |
| Interleaving.ScheduleKeeps | src/capital_os/domain/ledger/service.py:146-319 | With every call split into unlocked reads and one atomic write, and all pieces interleaved in any order, every state of every schedule keeps the shared invariant. |
| Interleaving.ExactlyOnce | src/capital_os/domain/ledger/service.py:146-319 | In every state of every schedule all finished calls that answer for a key with a commit agree on its transaction_id, posting_ids and output_hash, and the row they report is in the ledger under that key. |
| Interleaving.LosersLeaveNoTrace | src/capital_os/domain/ledger/service.py:257-319 | A call that fails or turns to recovery leaves the database exactly as it was, staged row and postings included. |
| Interleaving.OnlyStaleRejectionDemotes | src/capital_os/domain/approval/repository.py:101-128 | A step takes a proposal out of committed if and only if it is the write of a rejection that read the proposal earlier; no approval or recording ever does. |
| Races.LedgerSoundThroughout | src/capital_os/domain/ledger/service.py:146-319 | In every state of every schedule from a migrated database there is one complete ledger row per (source_system, external_id), every posting belongs to one, and every day balances. |
| Races.LosersLeaveNoTraceThroughout | src/capital_os/domain/ledger/service.py:257-319 | In every such schedule the event by which a call fails or turns to recovery changes nothing in the database. |
| Races.OnlyStaleApprovalRevives | src/capital_os/domain/approval/repository.py:101-128 | A step takes a proposal out of rejected if and only if it is the write of an approval that read the proposal earlier and goes through. |
| Races.DecisionsUndoneThroughout | src/capital_os/domain/approval/repository.py:101-128 | In every schedule an event takes a proposal out of committed exactly when it writes a rejection of it, and out of rejected exactly when it writes an approval of it. |
| Races.CommittedUntilRejected | src/capital_os/domain/approval/repository.py:101-128 | In every schedule a committed proposal stays committed until an event writes a rejection of it. |
| Races.StaleApprovalSchedule | src/capital_os/domain/approval/repository.py:101-128 | A schedule with the same reads: the rejection is written first, and the last event takes the proposal from rejected to committed with its row in the ledger. |
| Races.StaleRejectionSchedule | src/capital_os/domain/approval/repository.py:101-128 | A schedule from a migrated database: a transfer is proposed, an approval and a rejection both read it pending, and the last event takes it from committed to rejected while its row stays in the ledger. |
| Verdicts.DirectWriteAdmitted | src/capital_os/domain/ledger/service.py:165-249 | In every schedule a call about to write directly arrived, then read its period open or absent, then the rules while they could admit its impact, then no duplicate, and has stood past those reads ever since. |
| Verdicts.ShutSince | src/capital_os/domain/periods/service.py:34-89 | Between any two states of a schedule a period becomes shut exactly when an event in between closes or locks it, and it stays shut. |
| Verdicts.CoveredSince | src/capital_os/domain/ledger/repository.py:28-77 | Between any two states of a schedule a bundle becomes covered by a row of its day exactly when an event in between commits such a row, and it stays covered. |
| Verdicts.DirectRowsAdmitted | src/capital_os/domain/ledger/service.py:165-249 | In every schedule the call behind a new direct row passed all of its reads; the row lands in a shut period exactly when the period was shut after the period read, and beside an earlier row that covers it exactly when a covering row was committed after the duplicate query. |
| Verdicts.DirectRowsAfter | src/capital_os/domain/ledger/service.py:165-249 | A direct row that lands in a period shut earlier belongs to a call that was already past its period read then, and one that repeats a row that was there earlier to a call already past its duplicate query. |
| Verdicts.LateArrivalsNeverLand | src/capital_os/domain/ledger/service.py:165-249 | A call that arrives when its period is shut, or when a row that covers its bundle is in the ledger, never lands a direct row, whatever runs beside it. |
| Verdicts.ShutPeriodTakesDirectExactly | src/capital_os/domain/ledger/service.py:165-249 | A shut period may still take a direct row on some continuation of a schedule exactly when a call of that period is past its period read with nothing so far asking for approval, its key is free, and it is past the duplicate query too or nothing covers its bundle. |
| Verdicts.LateCloseSchedule | src/capital_os/domain/ledger/service.py:165-249 | A schedule: a transfer passes its reads, its month is closed, the transfer is written. |
| Verdicts.LateDuplicateSchedule | src/capital_os/domain/ledger/service.py:165-249 | A schedule: one transfer under two keys, both past their reads before either is written, so the second repeats the first without approval. |
| Interleaving.QuietRuleSelectable | src/capital_os/domain/policy/service.py:138-168 | The rule the evaluation loop selects with nobody else running is one the interleaved evaluation can select. |
| Interleaving.UninterruptedRecord | src/capital_os/domain/ledger/service.py:137-319 | Run back to back, the pieces of a record call are exactly the one-at-a-time record step. |
| Interleaving.UninterruptedApprove | src/capital_os/domain/approval/service.py:58-217 | The same for approving. |
| Interleaving.UninterruptedReject | src/capital_os/domain/approval/service.py:220-280 | The same for rejecting. |
| Calendar.OrdinalOrder | src/capital_os/domain/simulation/engine.py:113-123 | Day ordinals order dates as the calendar does. |
| Calendar.OrdinalRoundTrip | src/capital_os/domain/simulation/engine.py:113-123 | The ordinal of a valid date is at least 1 and converts back to that date. |
| Calendar.OrdinalClosedForm | src/capital_os/domain/simulation/engine.py:113-123 | Day numbers are those of the Gregorian rule, by a closed form without a month table; 1 January 1970 is 719163. |
| Calendar.OrdinalOfFromOrdinal | src/capital_os/domain/simulation/engine.py:113-123 | Every ordinal from 1 on converts to a valid date with that ordinal, so weekly steps land on real dates. |
| Calendar.PrevDayIsOrdinalMinusOne | src/capital_os/domain/simulation/engine.py:134-134 | The day before a date, where a period ends, has the ordinal one less. |
| Calendar.AddMonthsMeaning | src/capital_os/domain/simulation/engine.py:13-21 | Adding months lands that many months on, on the same day or the month's last. |
| Simulation.PeriodsDisjoint | src/capital_os/domain/simulation/engine.py:126-161 | For every start date the periods come in increasing order and share no day. |
| Simulation.TilesExactly | src/capital_os/domain/simulation/engine.py:126-161 | The periods cover exactly the days of [start, start + horizon months) if and only if no month boundary in it meets a clamped day. |
| Simulation.EarlyStartTiles | src/capital_os/domain/simulation/engine.py:126-161 | A start on the 28th or earlier always tiles. |
| Simulation.GapDay | src/capital_os/domain/simulation/engine.py:13-21 | At a clamped boundary the skipped day is inside the horizon and in no period. |
| Simulation.LateJanuaryLeavesAGap | src/capital_os/domain/simulation/engine.py:13-21 | Three months from 31 January 2025 leave 28 March 2025 in the horizon and in no period. |
| Simulation.OccurrencesSpaced | src/capital_os/domain/simulation/engine.py:113-123 | The i-th weekly occurrence is 7 i days after the first; the i-th monthly one is i months on, on the first day's day of the month or the month's last; the first is the start date, and they strictly increase. |
| Simulation.RecurringDates | src/capital_os/domain/simulation/engine.py:113-123 | The loop lists as many dates as there are occurrences, the i-th where its cadence says, and none for a one-time spend. |
| Simulation.PeriodTotals | src/capital_os/domain/simulation/engine.py:140-153 | The nested loops charge each occurrence that falls in the period. |
| Simulation.ComputeSimulationProjection | src/capital_os/domain/simulation/engine.py:126-161 | Every period has the dates, totals and closing balance due from the spends as given, whatever order they are in. |
| Simulation.PeriodFigures | src/capital_os/domain/simulation/engine.py:126-161 | Period i starts i months on and ends the day before a month later; its one-time and recurring totals are the amounts of each kind times the days due in it; it ends with what the period before left, less both. |
| Simulation.ChargedOncePerCoveredDay | src/capital_os/domain/simulation/engine.py:126-161 | After any number of periods, for every start date, the balance has lost each covered occurrence exactly once. |
| Simulation.FinalLiquidity | src/capital_os/domain/simulation/engine.py:126-161 | Without a clamped boundary, final liquidity is the starting one minus exactly the occurrences of the horizon. |
| Simulation.ClampedBoundaryLosesASpend | src/capital_os/domain/simulation/engine.py:13-21 | At a clamped boundary some spend inside the horizon is never charged. |
| Simulation.ChargesExactlyWhenNeverClamped | src/capital_os/domain/simulation/engine.py:126-161 | For a start date and horizon, all inputs are charged exactly their occurrences if and only if no boundary is clamped. |
| Posture.Validate | src/capital_os/schemas/tools.py:406-449 | The validator accepts a payload if and only if ids and entities name each other one to one and every transfer is exactly two mirrored legs of one amount between two selected entities. |
| Posture.GroupLegs | src/capital_os/domain/posture/consolidation.py:19-21 | Legs are grouped by transfer id, in the order given. |
| Posture.ApplyLegs | src/capital_os/domain/posture/consolidation.py:23-34 | Each entity's running net changes by its signed legs. |
| Posture.TransferNets | src/capital_os/domain/posture/consolidation.py:14-46 | The in-place nets are the totals over the transfers taken, and each transfer reports its pair. |
| Posture.GroupedNet | src/capital_os/domain/posture/consolidation.py:23-34 | Whatever order the transfers are taken in, an entity's net is the total over its own legs. |
| Posture.NetsCancel | src/capital_os/domain/posture/consolidation.py:23-34 | For every accepted payload the entities' transfer nets sum to zero. |
| Posture.TransferNeutral | src/capital_os/domain/posture/consolidation.py:62-88 | Taking the transfers out moves liquidity between entities and never changes the whole. |
| Posture.Accumulate | src/capital_os/domain/posture/consolidation.py:48-98 | The loop reports every selected entity without its transfers and accumulates the five totals. |
| Posture.ComputeConsolidatedPosture | src/capital_os/domain/posture/consolidation.py:9-122 | The report holds the entities in id order, the transfers in transfer id order, each exactly once, and the metrics of the raw totals of all entities. |
| PostureLaws.WholeIsSumOfParts | src/capital_os/domain/posture/consolidation.py:48-108 | In every report transfer nets cancel, consolidated liquidity is the sum of the reported and of the raw liquidities, and the consolidated reserve target is the sum of the entity targets. |
| PostureLaws.EntityFigures | src/capital_os/domain/posture/consolidation.py:23-88 | Each entity's transfer net is what comes in on its legs less what goes out, and its liquidity, target, surplus, ratio, band and burns are those of its own figures with what came in taken out and what went out put back. |
| PostureLaws.ConsolidatedFigures | src/capital_os/domain/posture/consolidation.py:90-122 | The consolidated figures are the metrics of the totals over all entities, and the ids stand in string order, each once. |
| PostureLaws.PairFigures | src/capital_os/domain/posture/consolidation.py:14-46 | The reported pairs are exactly the request's transfers, each with its two entities in string order and its amount, in transfer id order. |
| PostureLaws.Mediant | src/capital_os/domain/posture/engine.py:76-94 | Some term's ratio is at most, and some term's at least, the ratio of the totals. |
| PostureLaws.PositiveTargetsBracket | src/capital_os/domain/posture/engine.py:66-94 | When every reserve target is positive, the consolidated ratio lies between two entities' ratios and its band between their bands, after all rounding. |
| PostureLaws.BandsExactly | src/capital_os/domain/posture/engine.py:66-94 | For a positive target t and liquidity l the band is elevated or better from 20000 l >= 9999 t, guarded or better from 19999 t and stable from 29999 t: the bands without division or rounding. |
| PostureLaws.LiftedAbove | src/capital_os/domain/posture/engine.py:76-94 | One entity without a target, beside one with, can lift the whole above every part. |
| PostureLaws.BracketedExactly | src/capital_os/domain/posture/engine.py:66-94 | For given targets and transfers the whole lies between its parts for all liquidities if and only if all targets are positive or all are zero. |
| PostureLaws.OrderOfRequestIrrelevant | src/capital_os/domain/posture/consolidation.py:9-122 | Reordering the ids, the entities or the legs changes neither whether the payload is accepted nor any part of the report. |
| Debt.ScoreIsWeightedSum | src/capital_os/domain/debt/engine.py:144-168 | The score is annual interest plus minimum payment plus a hundred times the readiness, to within the two roundings on the way. |
| Debt.ReadinessRounded | src/capital_os/domain/debt/engine.py:148-156 | Readiness is the covered share, capped at one, to within half a unit, and lies between 0 and 1. |
| Debt.Allocate | src/capital_os/domain/debt/engine.py:192-228 | The running remainder pays each liability what its place in the waterfall leaves, and the totals are those of the entries. |
| Debt.AnalyzeLiabilities | src/capital_os/domain/debt/engine.py:171-229 | Every liability appears once, in key order, paid as its place says, with the totals of the entries. |
| Debt.RankedByKey | src/capital_os/domain/debt/engine.py:177-184 | Higher scores come first; at equal scores higher rates, then higher minimum payments, then ids in string order. |
| Debt.EntryFigures | src/capital_os/domain/debt/engine.py:144-229 | Every figure of an entry: its rank, its score from interest, payment and readiness as rounded, and its balance left, interest saved, cash flow freed and reserve impact from what is paid on it; the totals are the totals of the entries. |
| Debt.Waterfall | src/capital_os/domain/debt/engine.py:193-201 | Each payment lies in [0, balance] and nothing passes a liability that is not fully paid: a paid prefix, at most one partial payment, then zeros. |
| Debt.PaidSoFar | src/capital_os/domain/debt/engine.py:193-201 | After any number of ranks the payments sum to the smaller of the payoff and the balances so far. |
| Debt.PaymentsConserve | src/capital_os/domain/debt/engine.py:186-202 | All payments sum to the smaller of the payoff, nothing when none is offered, and the total balance; the total reserve impact is minus their sum. |
| Debt.GreedyDominates | src/capital_os/domain/debt/engine.py:193-201 | No other way of spending the payoff gets more to the first k liabilities in rank order, for any k. |
| Debt.SavingWithinEstimate | src/capital_os/domain/debt/engine.py:144-197 | What a payment saves is at most the liability's estimated annual interest, and equals it when paid in full. |
| Debt.SavedWithinHalfUnits | src/capital_os/domain/debt/engine.py:192-202 | The total interest saved is within n half-units of 0.0001 of the exact unrounded total. |
| Debt.HalfUnitsMeetTheBound | src/capital_os/domain/debt/engine.py:192-202 | For every n some n liabilities miss by exactly n half-units. |
| Debt.OrderOfRequestIrrelevant | src/capital_os/domain/debt/engine.py:177-184 | With unique ids the sort key never ties, so the order of the liabilities in the request changes nothing. |
| Hierarchy.LinkClosesCycle | migrations/0001_ledger_core.sql:81-123 | Giving an account a parent closes a cycle exactly when the account is the parent or one of its ancestors. |
| Hierarchy.ChainsAreShort | migrations/0001_ledger_core.sql:90-123 | On an acyclic graph no chain of parents is longer than the number of accounts, so the recursive queries end. |
| Hierarchy.AbortsExactly | migrations/0001_ledger_core.sql:86-100 | On an acyclic table whose parents exist, the trigger's ancestor query aborts if and only if the new link would close a cycle. |
| Accounts.TriggersExact | migrations/0001_ledger_core.sql:81-123 | The insert and the update trigger each abort if and only if the new parent link would close a cycle, a self-parent included. |
| Accounts.InsertKeepsTable | migrations/0001_ledger_core.sql:81-101 | An accepted insert keeps ids and codes unique, parents existing and the graph acyclic. |
| Accounts.UpdateKeepsTable | migrations/0001_ledger_core.sql:103-123 | So does an accepted update. |
| Accounts.InsertAcceptedExactly | migrations/0001_ledger_core.sql:4-12 | On a reachable table an insert succeeds, adding exactly its row, if and only if its id and code are new and its parent, if any, exists: a new account never closes a cycle. |
| Accounts.UpdateAcceptedExactly | migrations/0001_ledger_core.sql:103-123 | An update succeeds, changing the name, parent and metadata of exactly the row with its id, if and only if it touches no row, or its new parent, if any, exists and closes no cycle. |
| Accounts.TablesStayForests | migrations/0001_ledger_core.sql:4-12 | From the empty table, whatever is written and refused, the account graph has no cycle and every parent exists. |
| AccountTree.LevelCount | src/capital_os/domain/ledger/repository.py:522-537 | The n-th round of the recursive subtree query holds exactly the rows whose n-th ancestor is the root, once each. |
| AccountTree.SubtreeExactly | src/capital_os/domain/ledger/repository.py:520-553 | A rooted query returns exactly the root and its descendants, once each, in (code, account_id) order, and its recursion has then run out. |
| AccountForest.MakeNodes | src/capital_os/domain/query/service.py:41-51 | One fresh childless node per row. |
| AccountForest.BuildForest | src/capital_os/domain/query/service.py:37-62 | Appending node by node gives each node exactly the rows whose parent it is, in row order, and the roots exactly the rows without a listed parent. |
| AccountForest.ForestIsExact | src/capital_os/domain/query/service.py:37-62 | The built forest flattens to a permutation of the fetched rows, every edge runs to the row's parent_account_id, and roots and siblings stand in strictly ascending order of their codes. |
| AccountForest.RootedIsOneTree | src/capital_os/domain/query/service.py:37-62 | A rooted query gives a single tree, with the root on top and its descendants in it once each. |
| CycleCheck.Walk.Dfs | src/capital_os/db/coa_importer.py:333-343 | The recursive walk restores the stack, marks only nodes that lead nowhere back, and answers true only when some node leads back to itself. |
| CycleCheck.AssertAcyclic | src/capital_os/db/coa_importer.py:329-346 | The check raises if and only if the references contain a cycle, in whatever order nodes are taken, and expands no node twice. |
| CoaFiles.Validate | src/capital_os/db/coa_importer.py:43-150 | A file is accepted if and only if its version is 1, it lists well-formed accounts with unique ids, known parents and no cycle, and its groups and aliases are named, unique and refer to its accounts. |
| CoaFiles.SpacesListed | src/capital_os/db/coa_importer.py:61-61 | An account id may hold none of the 29 whitespace characters. |
| CoaImport.MergeMetadata | src/capital_os/db/coa_importer.py:299-326 | The in-place merge takes each key from the file exactly when the flags let it through, and from the row otherwise. |
| CoaImport.MergeIdempotent | src/capital_os/db/coa_importer.py:299-326 | Merging the same file again changes nothing, nor does merging it into what a fresh account got. |
| CoaImport.AccountStore.ImportCoa | src/capital_os/db/coa_importer.py:153-264 | An invalid file or mode is refused; otherwise the loop commits whole with its counts and the number of accounts the file leaves out, or fails or dry-runs without a trace. |
| CoaImport.ActionIsLocal | src/capital_os/db/coa_importer.py:187-250 | What is done for one account touches no other account's row. |
| CoaImport.ImportIsPointwise | src/capital_os/db/coa_importer.py:187-250 | During an import each row is as it was until its turn and then as its own decision on the starting rows made it. |
| CoaImport.MetadataPrecedence | src/capital_os/db/coa_importer.py:277-296 | Every account gets an activity flag; explicit fields win over free metadata, an own currency over the default, and all other metadata passes through. |
| CoaImport.ApplyLeaves | src/capital_os/db/coa_importer.py:187-250 | After a successful apply every account of the file is in the table: new ones with its id as code, its name, parent, lower-case type and metadata; existing ones with exactly what the mode and the flags let through, field by field of the metadata. |
| CoaImport.OthersUntouched | src/capital_os/db/coa_importer.py:187-250 | Every account the file does not name is as it was. |
| CoaImport.CreatedAreNew | src/capital_os/db/coa_importer.py:187-201 | The created count is the number of the file's accounts the table did not have, and the table grows by exactly that. |
| CoaImport.UpdatedAreChanged | src/capital_os/db/coa_importer.py:187-250 | The updated count is the number of the file's accounts whose row was there before and is a different one afterwards. |
| CoaImport.MissingCounted | src/capital_os/db/coa_importer.py:250-254 | When the file forbids leaving accounts out, the report counts the rows it does not name, if any. |
| CoaImport.DryRunForetells | src/capital_os/db/coa_importer.py:153-264 | When an apply succeeds, a dry run on the same prior state reports the same counts, and they sum to the number of accounts. |
| CoaImport.SecondApplyChangesNothing | src/capital_os/db/coa_importer.py:153-264 | A second apply of the same file creates and updates nothing, under any mode and any update flags. |
| CoaImport.ImportKeepsTable | src/capital_os/db/coa_importer.py:187-250 | An import that completes leaves an acyclic table with unique keys and existing parents. |
| CoaOutcomes.EmptyImportExactly | src/capital_os/db/coa_importer.py:187-201 | Into an empty table an apply succeeds if and only if every parent is listed before its children, while a dry run reports every account created either way. |
| CoaOutcomes.ImportSucceedsExactly | src/capital_os/db/coa_importer.py:187-250 | On any reachable table an apply succeeds if and only if each account that would be created has a free code and a parent that is in the table or earlier in the file, and each changed parent is so known and closes no cycle with the links as decided so far. |
| CoaOutcomes.DryRunAcceptsWhatApplyRefuses | src/capital_os/db/coa_importer.py:187-201 | A valid file listing a child before its parent: into an empty table the dry run reports two accounts created and the apply is refused. |
| CoaOutcomes.DryRunAcceptsAPassingCycle | src/capital_os/db/coa_importer.py:240-250 | The same file into a table where the two hang the other way round: the dry run reports two updates and the apply is refused, because the first update would close a cycle. |
| Paging.AccountsSeek | src/capital_os/domain/ledger/repository.py:492-517 | The account cursor's WHERE clause keeps exactly the keys strictly after the cursor in the ORDER BY order, which is total. |
| Paging.TransactionsSeek | src/capital_os/domain/ledger/repository.py:676-714 | The same for transactions, by date text descending. |
| Paging.PageSplits | src/capital_os/domain/query/service.py:19-34 | A page is ascending and past its cursor, and leaves for later exactly the rows past the cursor it returns. |
| Paging.WalkListsOnce | src/capital_os/domain/query/service.py:19-34 | However the table changes between pages, a completed walk lists no key twice and lists exactly once every key present throughout. |
| Paging.FixedWalk | src/capital_os/domain/query/service.py:19-34 | On an unchanging table the pages concatenate to the full sorted listing, in exactly max(1, ceil(n / limit)) pages. |
| Paging.FixedWalkExists | src/capital_os/domain/query/service.py:19-34 | On an unchanging table following the cursors always completes. |
| Paging.AccountsWalk | src/capital_os/domain/query/service.py:19-34 | Following the cursors lists an unchanging account table whole and once, by code and then id ascending, in ceil(n / limit) pages, one when it is empty. |
| Paging.TransactionsWalk | src/capital_os/domain/query/service.py:72-93 | The transaction listing likewise, by date text descending and ids ascending within one text. |
| IdentifierHistory.ProfileStore.UpdateAccountProfile | src/capital_os/domain/accounts/service.py:136-292 | The tables and the result are those of one update step; a refused update rolls back whole. |
| IdentifierHistory.ProfileStore.RollIdentifier | src/capital_os/domain/accounts/service.py:229-259 | The open row is closed and a new one opened, under the unique index on open rows. |
| IdentifierHistory.UpdateAddsOne | src/capital_os/domain/accounts/service.py:196-259 | An update that is neither replayed nor refused adds exactly one row, for its own key and with the suffix the account now carries; the row before it ends at that moment and no other line changes. |
| IdentifierHistory.UpdateTouchesOnlyWhatItNames | src/capital_os/domain/accounts/service.py:201-227 | Every field the request gives has its value, every field it clears is gone, every field it omits and every other account is as it was. |
| IdentifierHistory.HistoryOverRuns | src/capital_os/domain/accounts/service.py:136-292 | From an empty history, over any run, the rows of each account and source form a chain with only the last open, external ids never repeat within a source, and there is one row per recorded update. |
| IdentifierHistory.FailuresAndReplaysAddNothing | src/capital_os/domain/accounts/service.py:141-199 | In every reachable state an update fails only for an unknown account, and failures and replays change nothing. |
| IdentifierHistory.ReplayIsStable | src/capital_os/domain/accounts/service.py:141-160 | Once recorded, an update answers every later call under its key with the same response. |
| IdentifierHistory.OneIdentifierAtATime | src/capital_os/domain/ledger/repository.py:377-437 | While the clock does not run backwards, at every instant an account has at most one identifier per source, and exactly one from its first update on. |

## Left out

- The event log, HTTP, CLI, MCP, authentication, the migration runner and the text of error messages.
- `payload_hash` is an ideal digest of a response's other fields: equal bodies, equal digests. The `input_hash` columns, which no modelled branch reads, are dropped.
- Ids drawn from `uuid4` are fresh numbers from a counter. The cursor codec and JSON texts are exact round trips; a metadata column is its canonical text or some other text with the fields it parses to, and metadata keys are strings.
- Clocks are supplied values: instants are UTC days and seconds, and `closed_at`, `locked_at`, `created_at` and durations are not stored.
- SQLite's float storage of NUMERIC columns, Decimal's 28-digit precision and negative zero: sums and products are exact.
- Dates after the year 9999, where Python raises.
- Input schema checks other than those named in the model: string patterns and lengths, and the type checks that the model's types carry, non-negativity included. The trimming and lower-casing of an import mode and the wording of warnings. Amounts in posture payloads are taken as already normalised, so legs that differ only beyond four places count as equal.
- LedgerStore.Store.FindDuplicateRiskMatches: gives the set of matched transaction ids, which is all that any branch depends on; the order in which a response lists the matches and the posting texts it copies are not modelled, nor are those texts in `ProposedBody`.
- The balance query's snapshot source policies: only ledger balances are modelled.
- Changes to accounts, entities and policy rules other than through the account tools are environment steps of a run. Posting, ledger and proposal tables are written by the modelled tools only.
- The update_account_profile and configuration tools share the proposals table under their own tool names; the ledger model holds the transaction proposals only, and `IdentifierHistory` those of its own tool. Races between two profile updates are not modelled.
- update_account_metadata can change an account's institution suffix without touching the history, so nothing is claimed about the open row's suffix between updates.
- The value of the recursive account queries on a table with a cycle, where they would not end: such a table is unreachable.
- list_accounts_subtree with its depth column, proposal, obligation and policy-rule pages, balance snapshots, obligations, reconciliation and configuration changes: they would only add easy members.
- Velocity counts under races: `_velocity_match` counts rows once per limited rule, at a moment of its own, and the interleaved model lets each count come out any way. Rules without such a limit are never passed over.
- An approver id is at most 128 characters (`src/capital_os/schemas/tools.py:116`). The runs that show a shut period can still take an approved row use approver names longer than every earlier one, without that bound.
- Datetimes without a zone: `canonical_json` reads them as the server's local time and every other path as UTC, so the model's timestamps are those of datetimes with a zone, or of a server on UTC.
- Python's recursion limit: the importer's depth-first walk raises on a chain of about a thousand accounts, cyclic or not; `CycleCheck.AssertAcyclic` is about unbounded recursion.
- Terminal states under races: they are claimed of one-at-a-time runs only (`LedgerRuns.RejectionFinal`, `LedgerRuns.CommitFinal`), because late writes break them under races; exactly which events do is stated (`Races.DecisionsUndoneThroughout`).
- A clock that runs backwards: the chain of rows holds all the same, but the claim about one identifier per instant is made for a clock that does not.
