# Accounting evidence, verified

This project models the path a supplier invoice takes through the services of LedgerPilot, from
extracted fields to a bank reconciliation, and proves what that path guarantees. The state is the
set of database tables. The steps are the service calls: recording an extraction run, correcting a
field, starting an accounting decision, creating, escalating, commenting on, querying, approving and
rejecting a review task, importing a bank batch, generating a match run, and creating, selecting,
disputing, reopening, approving and closing a reconciliation review. Any caller may make any call in
any order; the directory of memberships and client grants may differ at every call.

## How it is laid out

- `Prelude`, `Text`: results, error codes, ASCII text operations.
- `EffectiveValues`, `Engine`, `DecisionEngine`, `ReviewPolicy`: effective values, the decision engine
  as functions and as the methods that compute them, and the risk classifier.
- `Identity`, `Matching`, `Targets`, `Store`: roles, the bank matcher, target projection, tables and
  their constraints.
- `EvidenceCalls`, `ReviewCalls`, `ReconciliationCalls`: for each call, the first guard that refuses it
  and the tables it is about to commit.
- `Session`, `EvidenceServices`, `ReviewServices`, `ReconciliationServices`, `Api`: the services as
  classes that change a session step by step, proved to commit or roll back exactly what the calls say.
- `System`: one call as a transition, and a run as a sequence of calls.
- `EvidenceInvariant`, `ReviewLog`, `ReviewInvariant`, `Evolution`, `ReconciliationLog`,
  `ReconciliationInvariant`, `Reachability`: what every reachable state keeps (`Reachability.Inv`), and
  how a later state of a run relates to an earlier one (`Evolution.Evolves`).
- `ApprovedEvidence`, `DuplicateControl`, `WindowGap`, `DecisionCommits`, `TaskHistories`, `Settlements`,
  `Conservation`, `Imports`, `RepeatedIds`, `CorrectionHistories`, `Walkthrough`, `EveryRun`: the theorems
  about runs.
- `PlainVerdicts`, `PlainFindings`, `StorableOutputs`, `Ranking`: what the engine and the matcher answer, in
  terms of the texts and rows alone.
- `TaskAnswers`, `ReconciliationAnswers`, `EvidenceAnswers`, `CorrectionEffects`: what every call answers in a
  reachable state, and what it changes.
- `Worklist`, `Money`, `ActionPolicy`: the reconciliation worklist, the front end's decimals and its
  action gates.

A lemma about a state that satisfies `Inv` holds of every reachable state, because
`Reachability.ReachedKeeps` proves `Inv` of the tables after any sequence of calls. `EveryRun` restates
the main results directly over such sequences.

`dafny verify dfyconfig.toml` checks the whole project.

## Modelling decisions

- A row's id is its position in its table, and foreign keys make a row's scope columns agree with the
  rows it refers to, so a lookup by id and scope is a lookup by id plus a check.
- A call is one transaction. A call that raises leaves the committed tables untouched, also where the
  service changes rows before it raises; a decision whose engine raises is the one exception, since the
  service commits the failed run before it reports the error.
- Every committed call is stamped with a strictly larger clock. The staleness test compares with `>`, so
  two rows with equal timestamps would escape it; the strict clock is a premise.
- Money is an integer scaled by 10,000, a parsed decimal is a coefficient and an exponent, and dates are
  day numbers. The decimal parser, the date parser and the correction validator are arbitrary functions.
- The engine's policy, with any supplier directory and any credit adjustment, is fixed over a run.

## Where the code does less than expected

- The duplicate detector is described as comparing with the client's prior succeeded decisions
  (`docs/ACCOUNTING_DECISION_ENGINE.md:76`). The code reads only the fifty most recent ones
  (`src/ledgerpilot/persistence/repositories/accounting.py:101-118`), so the rule that of two approved
  duplicates the later one needed a senior is false. `WindowGap.DuplicateEscapes` builds a run in which
  an accountant approves both invoices; `DuplicateControl.DuplicateExact` gives the exact condition.
- A bank batch's constructor compares source ids before stripping them
  (`src/ledgerpilot/reconciliation/types.py:132`), so a batch that names one transaction twice can be taken
  for a stored batch of two different ones. `RepeatedIds.RepeatedIdMisread` is a run of two calls in which
  that happens; `Imports.ResubmissionExact` gives the exact condition after any run, and
  `Imports.ImportCommitsExactly` shows that such a batch is never stored itself.

## Model

| member | source | states |
|---|---|---|
| EveryRun.ApprovedJournals | src/ledgerpilot/review/outcomes.py:133-156 | after any run, every approved outcome's journal is balanced and equals what the engine computes from today's effective values, and all approvals on one extraction run carry that same journal |
| ApprovedEvidence.ApprovedJournalIsCurrent | src/ledgerpilot/review/outcomes.py:99-156 | in every state satisfying the invariants the approved decision's stored journal is the engine's journal for the current effective values |
| ApprovedEvidence.FrozenForever | src/ledgerpilot/extraction/service.py:340-361 | from the moment of approval the outcome row, the effective values under it, its journal and its projected target are the same in every later state of the run |
| ApprovedEvidence.ApprovedRunLocked | src/ledgerpilot/extraction/service.py:348-361 | no caller of any role can correct a field of a run that carries an approval; the call is refused and changes nothing |
| ApprovedEvidence.OneJournalPerRun | src/ledgerpilot/accounting/engine.py:152-158 | two approved decisions on one extraction run have equal journals |
| ApprovedEvidence.UnstaleSawAll | src/ledgerpilot/review/outcomes.py:144-156 | a decision that passes the staleness test saw every correction its run has today |
| EveryRun.ApprovedDuplicates | src/ledgerpilot/accounting/service.py:291-322 | after any run, of two approved outcomes of one client the later decision reports the earlier exactly when they resemble each other today and fewer than fifty decisions lie between, and then a senior named by the escalation approved it |
| DuplicateControl.DuplicateExact | src/ledgerpilot/accounting/engine.py:569-636 | the report of an earlier approved decision holds if and only if documents differ, hashes agree or four of five signals agree on current values, and the earlier decision is within the window |
| DuplicateControl.DuplicateNeedsSenior | src/ledgerpilot/review/outcomes.py:158-178 | inside the window, a resembling later approval is at senior risk and was made by the membership its single escalation named |
| DuplicateControl.RecentExact | src/ledgerpilot/persistence/repositories/accounting.py:101-118 | a decision is listed exactly when it succeeded for the client and fewer than the limit did so after it |
| DuplicateControl.ApprovedRiskExact | src/ledgerpilot/review/policy.py:28-46 | an approved task is at senior risk exactly when its decision saw a duplicate or a low confidence, and ordinary otherwise |
| DuplicateControl.SeniorNeededExactly | src/ledgerpilot/accounting/service.py:291-322 | an approved task needed a senior if and only if its evidence is of low confidence or, among the fifty most recent decisions its engine run was shown, one on another document resembled it; otherwise it was ordinary |
| EveryRun.SeniorsNeeded | src/ledgerpilot/accounting/service.py:291-322 | after any run, an approved task is at senior risk if and only if its evidence is of low confidence or its engine run was shown a resembling decision on another document; otherwise it is ordinary |
| WindowGap.DuplicateEscapes | src/ledgerpilot/persistence/repositories/accounting.py:101-118 | a concrete run of calls in which two equal invoices are both approved by an accountant without escalation because fifty decisions lie between them |
| EveryRun.SeniorApprovals | src/ledgerpilot/review/outcomes.py:158-178 | after any run, blocked tasks are never approved and a senior-risk task was approved in the senior role by the membership of its one escalation |
| ReviewPolicy.Verdict | src/ledgerpilot/accounting/engine.py:39-178 | for every policy and input: blocked unless type, required fields, supplier, money, arithmetic, currency and balance are all in order; senior exactly for a duplicate or a low confidence; ordinary otherwise |
| ReviewPolicy.UnknownSupplierIsBlocked | src/ledgerpilot/accounting/engine.py:321-340 | without an exact supplier match there is no journal, so new and unmapped suppliers are always blocked and never senior |
| ReviewPolicy.JournalExact | src/ledgerpilot/accounting/engine.py:321-386 | when a journal is proposed, its currency and totals, and that it balances exactly when the credit adjustment is zero |
| DecisionCommits.JournalLines | src/ledgerpilot/accounting/engine.py:340-370 | the journal is one debit of the total to the mapped account with its tax code and cost centre and one credit to payables |
| ReviewPolicy.FirstExactWins | src/ledgerpilot/accounting/engine.py:197-219 | the first exact name match in the directory is the only candidate, whatever partial matches came before it |
| ReviewPolicy.PartialsListed | src/ledgerpilot/accounting/engine.py:220-246 | without an exact match the candidates are exactly the partial token matches in directory order, and a supplier with none is new |
| ReviewPolicy.MonetaryExact | src/ledgerpilot/accounting/engine.py:449-500 | the money dictionary holds exactly the readable amounts and a finding is raised exactly when a present amount is unreadable |
| ReviewPolicy.DuplicateOfExact | src/ledgerpilot/accounting/engine.py:583-608 | a prior snapshot becomes a candidate exactly when it is of another document and shares the hash, or four of supplier words, number, date, currency and total; its confidence counts the signals |
| ReviewPolicy.SimilarSymmetric | src/ledgerpilot/accounting/engine.py:612-636 | resemblance does not depend on which document is compared with which |
| DecisionEngine.AccountingDecisionEngine.Decide | src/ledgerpilot/accounting/engine.py:39-178 | the imperative decide, collecting findings and candidates in loops, computes exactly the decision function the theorems speak about |
| DecisionEngine.AccountingDecisionEngine.SupplierMatch | src/ledgerpilot/accounting/engine.py:180-246 | the early-returning supplier loop computes the recursive match |
| DecisionEngine.AccountingDecisionEngine.DuplicateCandidates | src/ledgerpilot/accounting/engine.py:569-609 | the candidate loop with its skips computes the duplicate function |
| DecisionEngine.AccountingDecisionEngine.AccountingMonetaryValues | src/ledgerpilot/accounting/engine.py:449-468 | the loop builds the same dictionary and findings as their recursive definitions |
| DecisionCommits.OutputStorable | src/ledgerpilot/persistence/models/accounting.py:439-540 | under a complete directory and no adjustment every decision output meets every table constraint |
| DecisionCommits.DecisionCommitsExactly | src/ledgerpilot/accounting/service.py:520-552 | a decision that its guards let through commits exactly when its output fits the tables; otherwise the whole call is rolled back |
| EveryRun.ApprovedProjections | src/ledgerpilot/reconciliation/targets.py:23-66 | after any run, an approved outcome has a reconciliation target if and only if its invoice date parses |
| ApprovedEvidence.ProjectionComplete | src/ledgerpilot/reconciliation/targets.py:23-66 | the target carries the approved amount, currency and parsed date, the invoice number as reference and the supplier as counterparty, and no other rejection of the projection can fire for an approved outcome |
| Targets.ProjectionExact | src/ledgerpilot/reconciliation/targets.py:23-107 | for the engine's own balanced journal over the same values, projection succeeds exactly when the date parses |
| Conservation.MatchedMoneyConserved | src/ledgerpilot/reconciliation/review_service.py:302-345 | after any run, per client and currency, matched bank amounts sum to the total debits of the journals they are matched to, each counted once, and never exceed what was approved |
| EveryRun.MatchedSettlements | src/ledgerpilot/reconciliation/review_service.py:281-345 | after any run, matches are a partial injection from bank transactions to approved outcomes and a review has an outcome exactly when it is terminal |
| Settlements.MatchIsFaithful | src/ledgerpilot/reconciliation/matching.py:93-100 | a match joins a debit transaction to an approved outcome of the same firm and client for the amount and currency of its balanced journal within seven days |
| Settlements.MatchIsInjective | src/ledgerpilot/reconciliation/review_service.py:302-318 | no transaction and no approved outcome takes part in two matches |
| Settlements.SettledExactly | src/ledgerpilot/reconciliation/review_service.py:272-301 | an outcome exists exactly for terminal reviews and a selection is always a candidate of the review's own match run |
| Settlements.UnreachableReconciliationGuards | src/ledgerpilot/reconciliation/review_service.py:281-318 | the outcome-exists, candidate-missing and invalid-state refusals can never fire |
| Settlements.ReviewLogReplays | src/ledgerpilot/reconciliation/review_service.py:549-574 | replaying a review's action log gives its status and selection, each entry logs the last selected candidate, and only the last entry is terminal |
| Settlements.MatchEvidenceFrozen | src/ledgerpilot/reconciliation/api_service.py:171-198 | once a review exists the match runs of its transaction never change, and every stored candidate still equals the projection of its outcome |
| Settlements.GeneratedExactly | src/ledgerpilot/reconciliation/api_service.py:186-198 | a generated run offers exactly the client's approved outcomes whose date parses and that agree in amount, currency and direction within seven days |
| EveryRun.LogsReplay | src/ledgerpilot/review/interactions.py:102-113 | after any run, every task's comments and outcome and every review's actions replay to the stored rows |
| TaskHistories.TaskLogReplays | src/ledgerpilot/review/interactions.py:102-227 | a task's log gives its status and escalation, escalation happened at most once and to the current owner, and requests and responses strictly alternate |
| TaskHistories.PendingRequestFound | src/ledgerpilot/review/interactions.py:128-167 | the missing-request error is unreachable and the comment returned is the task's one unanswered request |
| TaskHistories.ApprovalExact | src/ledgerpilot/review/outcomes.py:57-178 | the long guard chain of approve accepts exactly under a short list of plain conditions, and five of its refusals can never fire |
| TaskHistories.UnreachableReviewGuards | src/ledgerpilot/review/states.py:38-82 | no escalation, request, response or rejection is ever refused for an invalid transition or an existing outcome |
| TaskHistories.OwnerChangesAtMostOnce | src/ledgerpilot/review/service.py:195-220 | over any run a task's owner changes at most once, by the escalation, its risk never changes, and nothing changes after it is terminal |
| TaskHistories.StoredRiskIsCurrent | src/ledgerpilot/review/outcomes.py:120-132 | the stored risk always equals the risk recomputed from the decision |
| ReviewLog.AwaitedRequest | src/ledgerpilot/persistence/repositories/review.py:112-130 | in a legal log that awaits information the newest request exists and only plain comments follow it |
| ReviewLog.LogCounts | src/ledgerpilot/review/states.py:38-63 | escalations number one or none as the escalation state says, and requests lead responses by one exactly while information is awaited |
| ReconciliationLog.TerminalIsLast | src/ledgerpilot/reconciliation/review_service.py:523-547 | a terminal action can only end a legal action log |
| ReconciliationLog.LoggedCandidate | src/ledgerpilot/reconciliation/review_service.py:156-165 | every logged candidate is the last one selected up to that action |
| EveryRun.OnlyTwoCallsRollBack | src/ledgerpilot/persistence/models/review.py:36-99 | after any run, any call other than an import or a decision that its guards let through commits: no unique or check constraint fires |
| Reachability.GuardsSuffice | src/ledgerpilot/persistence/models/reconciliation_review.py:196-260 | the guards alone keep every constraint of the tables, for every call but imports and decisions |
| Reachability.ReachedKeeps | src/ledgerpilot/review/outcomes.py:57-206 | the tables after any sequence of calls satisfy every invariant |
| Reachability.ReachedEvolves | src/ledgerpilot/extraction/service.py:378-393 | along any run logs only grow, terminal tasks and reviews stay as they are, approved runs get no corrections and reviewed transactions no match runs |
| Api.Api.Serve | src/ledgerpilot/api/dependencies.py:25-34 | served through the services, every request leaves exactly the committed tables and the error the state machine prescribes, and nothing pending, even where rows change before an error |
| Session.Session.CommitOrRaise | src/ledgerpilot/review/support.py:200-223 | pending rows are published exactly when every constraint holds and are otherwise rolled back with the caller's error |
| EvidenceServices.ExtractionService.CorrectField | src/ledgerpilot/extraction/service.py:297-415 | the first guard in source order refuses, or one correction with the next revision is committed |
| EvidenceServices.AccountingDecisionService.StartDecisionRun | src/ledgerpilot/accounting/service.py:75-177 | commits a succeeded run with the engine's decision on the evidence and recent decisions as they stand, or a failed run when the engine raises |
| EvidenceServices.AccountingDecisionService.PriorDecisionSnapshots | src/ledgerpilot/accounting/service.py:291-322 | the snapshot loop gives each recent succeeded run with its effective values now |
| ReviewServices.ReviewTaskService.CreateTask | src/ledgerpilot/review/service.py:36-123 | refuses in source order or commits one open task at the classified risk |
| ReviewServices.ReviewTaskService.EscalateToSenior | src/ledgerpilot/review/service.py:172-244 | refuses in source order or commits the hand-over and its reason together |
| ReviewServices.ReviewInteractionService.RequestInformation | src/ledgerpilot/review/interactions.py:68-126 | a blank body refuses the call with nothing committed although the status has already moved; otherwise status and request commit together |
| ReviewServices.ReviewInteractionService.RespondToInformationRequest | src/ledgerpilot/review/interactions.py:169-227 | refuses in source order or commits the answer and the resumed status together |
| ReviewServices.ReviewInteractionService.GetInformationRequest | src/ledgerpilot/review/interactions.py:128-167 | returns the newest request in the task's comments or the error of the first failing guard |
| ReviewServices.ReviewOutcomeService.Approve | src/ledgerpilot/review/outcomes.py:35-220 | refuses with the first failing guard in source order or commits the outcome and the approved task together |
| ReviewServices.ReviewOutcomeService.Reject | src/ledgerpilot/review/outcomes.py:222-304 | refuses in source order or commits the rejection and the rejected task together |
| ReviewServices.ReviewServiceSupport.ResolveOwner | src/ledgerpilot/review/support.py:67-94 | accepts exactly an active member of the firm with a fitting role and access to the client |
| ReviewServices.StaleInLog | src/ledgerpilot/review/outcomes.py:144-156 | looking through the run's own corrections finds a newer one exactly when the table holds one |
| ReconciliationServices.CheckBatch | src/ledgerpilot/reconciliation/types.py:115-136 | the constructor's single pass accepts exactly the valid batches, comparing source ids unstripped |
| ReconciliationServices.ReconciliationApiService.MatchesExistingBatch | src/ledgerpilot/reconciliation/api_service.py:391-424 | the dictionary pass decides whether header, size and every transaction repeat the stored batch |
| ReconciliationServices.ReconciliationApiService.PersistImportBatch | src/ledgerpilot/reconciliation/api_service.py:66-160 | stores the batch and all rows, or reports a replay and changes nothing, or refuses and changes nothing |
| ReconciliationServices.ReconciliationApiService.ProjectApprovedTargets | src/ledgerpilot/reconciliation/api_service.py:343-380 | the projection loop gives the targets of the client's approved outcomes |
| ReconciliationServices.ReconciliationApiService.GenerateMatchRun | src/ledgerpilot/reconciliation/api_service.py:162-232 | commits the matcher's result for the transaction over the current targets, or refuses in source order |
| ReconciliationServices.ReconciliationReviewService.CreateReview | src/ledgerpilot/reconciliation/review_service.py:46-105 | commits one open review of the transaction's own match run, or refuses in source order |
| ReconciliationServices.ReconciliationReviewService.SelectCandidate | src/ledgerpilot/reconciliation/review_service.py:125-174 | commits the selection and its log entry together, or refuses |
| ReconciliationServices.ReconciliationReviewService.Dispute | src/ledgerpilot/reconciliation/review_service.py:176-216 | commits the disputed status and its log entry together, or refuses |
| ReconciliationServices.ReconciliationReviewService.Reopen | src/ledgerpilot/reconciliation/review_service.py:218-263 | commits the reopened status and its log entry together, or refuses |
| ReconciliationServices.ReconciliationReviewService.ApproveMatch | src/ledgerpilot/reconciliation/review_service.py:265-369 | commits outcome, matched status and log entry together, or refuses with the first failing guard |
| ReconciliationServices.ReconciliationReviewService.MarkUnmatched | src/ledgerpilot/reconciliation/review_service.py:371-445 | commits outcome, unmatched status and log entry together, or refuses |
| Walkthrough.MatchReachable | src/ledgerpilot/reconciliation/review_service.py:265-369 | a concrete run of nine calls takes an invoice from extraction to a matched bank transaction, so approvals and matches are reachable |
| Imports.ReplayChangesNothing | src/ledgerpilot/reconciliation/api_service.py:77-103 | a batch accepted at any point of a run is accepted again at any later point and changes nothing |
| Imports.MatchesExistingExact | src/ledgerpilot/reconciliation/api_service.py:391-424 | with distinct stripped ids a batch is recognised exactly when it equals the stored one as a map from stripped id to values; a recognised batch equals it exactly when its stripped ids are distinct |
| Imports.ResubmissionExact | src/ledgerpilot/reconciliation/api_service.py:77-103 | after any run, a permitted submission whose key is stored leaves the tables alone and is accepted or refused as a conflict exactly by the recognition test; with distinct stripped ids it is accepted if and only if header and values per id equal the stored ones, and an accepted one equals them if and only if its ids are distinct |
| Imports.StoredRowsDistinct | src/ledgerpilot/persistence/models/reconciliation.py:126-133 | in every reachable transaction table no stored batch holds two rows of one source id, which is what the map comparison needs |
| RepeatedIds.RepeatedIdMisread | src/ledgerpilot/reconciliation/types.py:127-136 | a run of two calls stores a batch of transactions a and b and then answers a valid batch naming only a, twice, as a replay of it, though their maps from id to values differ |
| EveryRun.SourceIdentities | src/ledgerpilot/reconciliation/api_service.py:105-123 | after any run, no two stored bank transactions share firm, client, provider, account and source id, every stored id is stripped, and each lies in the period of its stored batch |
| Imports.ImportCommitsExactly | src/ledgerpilot/reconciliation/api_service.py:105-147 | a first submission its guards let through commits exactly when its stripped ids are distinct and is otherwise rolled back whole |
| Matching.DeterministicMatcher.ScoreCandidate | src/ledgerpilot/reconciliation/matching.py:88-144 | the accumulating scorer with its early returns computes the score function |
| Matching.DeterministicMatcher.Match | src/ledgerpilot/reconciliation/matching.py:57-86 | the loop and sort compute the match function |
| Matching.MatchOrderIndependent | src/ledgerpilot/reconciliation/matching.py:57-86 | every ordering of targets with distinct outcome ids gives the identical result |
| Matching.MatchIsSound | src/ledgerpilot/reconciliation/types.py:176-216 | for any valid policy no result constructor raises, the result is sorted by descending score then id, and it holds exactly the targets that score |
| Matching.ScoreIsUnit | src/ledgerpilot/reconciliation/types.py:176-187 | every score lies between zero and one with at least one reason |
| Matching.DefaultPolicyIsGates | src/ledgerpilot/reconciliation/matching.py:20-47 | under the default policy the threshold and the cap exclude nothing: the candidates are exactly the targets that pass the gates |
| EffectiveValues.BuildEffectiveValues | src/ledgerpilot/accounting/service.py:576-603 | the two dictionary passes show each field as observed or, once corrected, with the texts, type and revision of a correction of highest revision and the observed confidence |
| EffectiveValues.FieldResponses | src/ledgerpilot/extraction/schemas.py:92-122 | the API's grouping shows each field as observed or, once corrected, as the correction listed last has it |
| EffectiveValues.LatestIsHighestRevision | src/ledgerpilot/accounting/service.py:580-585 | the correction kept is one of highest revision, and one is kept whenever the field has any |
| EffectiveValues.EffectiveOrderIndependent | src/ledgerpilot/accounting/service.py:576-603 | with distinct revisions the effective values do not depend on the order of the corrections |
| CorrectionHistories.ReadersAgree | src/ledgerpilot/extraction/schemas.py:43-71 | after any run a field's revisions are exactly 1 to n and the API's last-entry reading equals the engine's highest-revision reading |
| CorrectionHistories.ReachableOrderIndependent | src/ledgerpilot/accounting/service.py:576-603 | after any run, no reordering of a run's corrections changes an effective value |
| CorrectionHistories.ObservationsNeverChange | src/ledgerpilot/extraction/service.py:373-393 | over any run the provider's observations and the logged corrections stay as first recorded |
| EvidenceInvariant.NextRevisionCounts | src/ledgerpilot/persistence/repositories/extraction.py:192-200 | one more than the largest revision is one more than the number of revisions |
| Worklist.ListItems | src/ledgerpilot/reconciliation/worklist.py:45-107 | despite the early break the result is the first limit items of the whole filtered list, and bad limits and access are refused |
| Worklist.ListingExact | src/ledgerpilot/persistence/repositories/reconciliation_worklist.py:22-40 | the listing is in order and names each of the client's transactions exactly once |
| Worklist.LatestIsMaximum | src/ledgerpilot/reconciliation/worklist.py:156-171 | last activity is the largest of the available timestamps |
| Worklist.LastActivity | src/ledgerpilot/reconciliation/worklist.py:156-171 | the loop over optional timestamps computes that maximum |
| Worklist.StateAgreesWithOutcome | src/ledgerpilot/reconciliation/worklist.py:119-153 | the state, computed without the outcome, is matched or resolved unmatched exactly when such an outcome is recorded |
| EveryRun.WorklistStates | src/ledgerpilot/reconciliation/worklist.py:119-153 | the same agreement after any run |
| Money.RoundTrip | frontend/src/lib/decimal/money.ts:23-75 | parsing the four-decimal form of any integer returns that integer |
| Money.FormatParse | frontend/src/lib/decimal/money.ts:23-75 | for any number of decimals, formatting and parsing truncates toward zero to that many decimals and loses nothing from four on |
| Money.ParseExact | frontend/src/lib/decimal/money.ts:23-55 | any decimal is read as the integer of its digits up to the fourth place, padded with zeros and never rounded, with its sign |
| Money.CommaPlaces | frontend/src/lib/decimal/money.ts:81-107 | the separators stand exactly before every third digit from the right, and never first |
| Money.TwoDecimals | frontend/src/lib/decimal/money.ts:61-75 | two decimals truncate toward zero by less than 0.01 |
| Money.VerifyJournalBalance | frontend/src/lib/decimal/money.ts:113-139 | the accumulating loop gives both totals, their balance, the variance and positivity, and fails exactly when a printed amount is malformed |
| Money.VerdictAgrees | frontend/src/lib/decimal/money.ts:113-139 | on the printed lines of any engine journal the front end's totals and verdict are the engine's own |
| Money.MoneyShowsAmount | frontend/src/lib/decimal/money.ts:81-107 | the displayed amount without its thousands separators is the two-decimal form of what was parsed |
| ActionPolicy.ApprovalGate | frontend/src/lib/policy/action-policy.ts:37-106 | the ordinary button is offered exactly when approve accepts an open ordinary task and the senior one exactly when it accepts a task at senior risk; approve accepts in exactly one other case, an escalated ordinary task |
| ActionPolicy.ActionGates | frontend/src/lib/policy/action-policy.ts:108-204 | reject, comment, request and escalate are offered exactly when the service accepts them with the text and senior they ask for |
| ActionPolicy.OfferedActionsCommit | frontend/src/lib/policy/action-policy.ts:37-204 | every offered action, once taken, is committed |
| CorrectionEffects.CorrectionTakesEffect | src/ledgerpilot/extraction/service.py:297-415 | after any run, an accepted correction is what engine and API both show at that path: the requested texts, type and next revision with the observed confidence; its value is the normalized text or else the raw one, and every other path and run reads as before |
| CorrectionEffects.UncorrectedReadsObserved | src/ledgerpilot/extraction/schemas.py:43-71 | after any run, a field that no correction names reads as the provider observed it, in both readers |
| ReviewPolicy.AgreeExact | src/ledgerpilot/accounting/engine.py:699-707 | two suppliers agree exactly when their letter-and-digit words are the same list, and two other texts exactly when they are equal but for case, punctuation included |
| PlainVerdicts.PlainVerdict | src/ledgerpilot/accounting/engine.py:39-178 | the verdict with every field, limit and threshold written out: blocked unless the document is in order field by field, and then senior exactly for a twin among the prior decisions or a field below one half of confidence |
| PlainVerdicts.PlainMatch | src/ledgerpilot/accounting/engine.py:180-246 | a supplier is matched to the first entry that serves the client and has its words as name or alias, and otherwise to the entries that share at least half of all words, in order |
| PlainVerdicts.PlainRecommendations | src/ledgerpilot/accounting/engine.py:248-319 | a known supplier is recommended the account, category, tax code and cost centre of the first entry under the matched reference; nothing else is recommended |
| PlainVerdicts.PlainJournal | src/ledgerpilot/accounting/engine.py:321-386 | a journal debits the positive amount in the total field to the mapped account and credits payables, with all columns of both lines |
| PlainVerdicts.TextExact | src/ledgerpilot/accounting/engine.py:662-671 | a field has a text exactly when its normalized value, or raw value without one, is that text between blanks |
| PlainVerdicts.MoneyExact | src/ledgerpilot/accounting/engine.py:471-500 | an amount is read exactly from a finite decimal of at most four places within the range of the tables, positive where it must be |
| PlainFindings.FindingsExact | src/ledgerpilot/accounting/engine.py:39-178 | for every policy and input, each of the eleven findings is raised if and only if its condition holds of document, directory and prior decisions |
| StorableOutputs.StorableExactly | src/ledgerpilot/persistence/models/accounting.py:439-540 | a decision can be stored if and only if a known supplier has a complete mapping, an unknown one only candidates with distinct references, and the credit line is positive and in range |
| StorableOutputs.DecisionStored | src/ledgerpilot/accounting/service.py:75-177 | in a reachable state, a decision call without an engine failure succeeds if and only if the caller reaches a succeeded run of the client and the decision can be stored |
| Ranking.CandidatesExact | src/ledgerpilot/reconciliation/matching.py:88-144 | for every policy, a target is a candidate exactly when it is within the gates and the capped sum of what holds of it reaches the minimum; its reasons are those that hold, in order, and its score is that sum |
| Ranking.ReasonsHold | src/ledgerpilot/reconciliation/matching.py:102-135 | a candidate lists each reason exactly when the transaction and the target are so: dates, equal or contained references, counterparties |
| Ranking.ReferencesRank | src/ledgerpilot/reconciliation/matching.py:146-163 | by default, with date and counterparty alike, an equal reference ranks above a contained one and that above none |
| Ranking.CandidatesOrdered | src/ledgerpilot/reconciliation/matching.py:62-69 | candidates stand in descending order of score and, at equal scores, in ascending order of the outcome's id |
| Ranking.CompactCharacterwise | src/ledgerpilot/reconciliation/matching.py:164-168 | the compared texts are the letters, in upper case, and the digits of the originals, character by character |
| TaskAnswers.CreateTaskAnswer | src/ledgerpilot/review/service.py:36-123 | the whole answer in a reachable state: the first refusal in order, or one open task at the classified risk owned by an active accountant or senior with access |
| TaskAnswers.EscalateAnswer | src/ledgerpilot/review/service.py:172-244 | an escalation commits if and only if a reviewer hands over their own open task, with a reason, to an active senior of the firm with access, who then owns it; otherwise the first refusal in order |
| TaskAnswers.AddCommentAnswer | src/ledgerpilot/review/interactions.py:25-66 | the whole answer: the first refusal, or one comment under the caller and no other change |
| TaskAnswers.RequestInformationAnswer | src/ledgerpilot/review/interactions.py:68-126 | the whole answer: the first refusal, or the awaiting task and the logged request |
| TaskAnswers.InformationRequestAnswer | src/ledgerpilot/review/interactions.py:128-167 | a submitter with access is refused exactly outside the awaiting status, and is otherwise shown a logged request of the task |
| TaskAnswers.RespondAnswer | src/ledgerpilot/review/interactions.py:169-227 | the whole answer: the first refusal, or the logged response and the task back with the senior or open |
| TaskAnswers.ApproveAnswer | src/ledgerpilot/review/outcomes.py:35-220 | approve commits if and only if plain conditions on caller, task, decision and corrections hold, with the outcome row in full; any refusal changes nothing |
| TaskAnswers.RejectAnswer | src/ledgerpilot/review/outcomes.py:222-304 | the whole answer: the first refusal, or the rejection with its reason and the rejected task |
| ReconciliationAnswers.GenerateMatchAnswer | src/ledgerpilot/reconciliation/api_service.py:162-232 | the whole answer: the first refusal, or one match run of the transaction |
| ReconciliationAnswers.CreateReviewAnswer | src/ledgerpilot/reconciliation/review_service.py:46-105 | a review starts if and only if the run is the transaction's own and no review exists |
| ReconciliationAnswers.SelectAnswer | src/ledgerpilot/reconciliation/review_service.py:125-174 | a selection commits if and only if the review is open and its own run offers the candidate |
| ReconciliationAnswers.DisputeAnswer | src/ledgerpilot/reconciliation/review_service.py:176-216 | a dispute commits if and only if the review is open and a reason is given |
| ReconciliationAnswers.ReopenAnswer | src/ledgerpilot/reconciliation/review_service.py:218-263 | a review reopens if and only if it is disputed and a reason is given |
| ReconciliationAnswers.ApproveMatchAnswer | src/ledgerpilot/reconciliation/review_service.py:265-369 | a match is approved if and only if the review is open, something is selected and no settlement has taken it |
| ReconciliationAnswers.MarkUnmatchedAnswer | src/ledgerpilot/reconciliation/review_service.py:371-445 | a review is settled as unmatched if and only if it is open or disputed and a reason is given |
| EvidenceAnswers.RecordExtractionAnswer | src/ledgerpilot/extraction/service.py:67-241 | the whole answer: refused without access or with repeated paths, or one run is stored |
| EvidenceAnswers.CorrectFieldAnswer | src/ledgerpilot/extraction/service.py:297-415 | the whole answer: the first refusal, approval lock included, or one correction as the field's next revision |
| EvidenceAnswers.StartDecisionAnswer | src/ledgerpilot/accounting/service.py:75-177 | the whole answer: the first refusal, the engine's decision stored or rolled back, or a failed run stored with its error |
| EvidenceAnswers.BatchExact | src/ledgerpilot/reconciliation/types.py:52-136 | a batch is accepted by its constructor exactly when no header text is blank, its period is one, and every transaction is sound: positive amount, three-letter currency, id and description not blank, of the client and within the period, no id twice |
| EvidenceAnswers.ImportAnswer | src/ledgerpilot/reconciliation/api_service.py:66-160 | a first submission is stored whole, row by row, exactly when it is valid, permitted, without known source ids and with distinct stripped ids; otherwise nothing is stored |
| Worklist.ListingNewestFirst | src/ledgerpilot/persistence/repositories/reconciliation_worklist.py:22-40 | of two listed transactions the earlier has the later booking date, on one day the later record, and then the higher id |
| Worklist.ItemNames | src/ledgerpilot/reconciliation/worklist.py:45-107 | an item names the transaction's newest match run, and its review and outcome exactly when there are any |
| Worklist.ItemStates | src/ledgerpilot/reconciliation/worklist.py:119-171 | each of the seven states holds exactly for its review status or, without a review, its match run; the last activity is the newest of the rows' times |
| Worklist.ItemsExact | src/ledgerpilot/reconciliation/worklist.py:79-107 | the list holds an item exactly for the listed transactions whose state is wanted |
| Text.NormalizeNameCanonical | src/ledgerpilot/accounting/engine.py:699-701 | name normalisation is idempotent, and a normalised name's tokens are exactly the lower-case words of the original |
| Text.SameNames | src/ledgerpilot/accounting/engine.py:699-701 | two names normalize alike exactly when their lower-case words of letters and digits are the same list |
| Text.NameWordsParted | src/ledgerpilot/accounting/engine.py:699-701 | a name's words are parted by every character that is no letter or digit, and an unbroken run of those is one word in lower case |
| Text.StripRemoves | src/ledgerpilot/accounting/engine.py:662-671 | stripping removes exactly the blanks around a text |

## Left out

- DuplicateControl.DuplicateNeedsSenior: holds only within the window of fifty decisions, because the code looks no further; outside it the rule is false, as `WindowGap.DuplicateEscapes` shows.
- Imports.MatchesExistingExact: the equivalence with map equality needs distinct stripped ids, because the constructor compares ids unstripped; for repeated ids the exact behaviour is stated instead.
- Unicode: text is ASCII, so case folding, normalisation and non-ASCII letters and blanks are not modelled.
- The decimal and date parsers and the correction validator are arbitrary functions, and a credit adjustment has at most four decimals.
- Text length limits of the columns; the amount limit of the bank import request body.
- The extraction provider, document storage, scanning and upload: an extraction run is recorded as it ends, with unique field paths.
- True interleaving of calls: row locks and single commits are taken to make each call atomic.
- Database outages: a commit fails only by a unique or check constraint.
- Exceptions that carry no HTTP code: a bad limit, a batch its constructor refuses, an impossible task transition and a failed extraction commit have error codes of their own here (`InvalidLimit`, `InvalidImportBatch`, `InvalidReviewTaskTransition`, `ExtractionCommitFailed`).
- The status column of a decision run: a run without output is pending or failed, one with output succeeded.
- Aliasing of row objects inside one session: a row is updated by replacing it in its table.
- `list.sort` is a stable insertion function; SQL orderings are table order or the stated sort.
- Audit events, explanations, evidence dictionaries, lineage strings and matcher names.
- Read-only endpoints other than the information request and the worklist.
- HTTP routes, route permissions, authentication, response schemas and the React components.
- Administration of firms, clients and memberships: every call sees a directory of its own.
- `canCorrectField`, `canRegenerateAccountingDecision` and the view gates of the front end.
