/** The tables, the repositories' scoped lookups, and the constraints a commit checks.
    A row's id is its position in its table; a field's id is its position in its run. */
module Store {
  import opened Prelude
  import opened Text
  import opened EffectiveValues
  import opened Engine
  import opened ReviewPolicy
  import opened Identity
  import opened Matching

  // ----- rows

  /** A hex digest; the tables accept 64 characters. */
  type Sha256 = s: string | |s| == 64 witness seq(64, _ => '0')

  datatype ExtractionRun = ExtractionRun(
    firmId: Id,
    clientId: Id,
    documentId: Id,
    sourceSha: Sha256,
    succeeded: bool,
    fields: seq<ExtractedField>)

  /** A decision run with its findings, candidates and journal; a failed run has no output. */
  datatype DecisionRun = DecisionRun(
    firmId: Id,
    clientId: Id,
    documentId: Id,
    extractionRunId: Id,
    sourceSha: Sha256,
    output: Option<Decision>,
    createdAt: nat)
  {
    predicate Succeeded() { output.Some? }

    function Journal(): Option<Journal> {
      if output.Some? then output.value.journal else None
    }

    function Findings(): seq<Finding> {
      if output.Some? then output.value.findings else []
    }
  }

  datatype ReviewTask = ReviewTask(
    firmId: Id,
    clientId: Id,
    documentId: Id,
    extractionRunId: Id,
    decisionRunId: Id,
    createdBy: Id,
    owner: Id,
    status: TaskStatus,
    risk: RiskClass,
    escalation: EscalationState,
    escalatedAt: Option<nat>,
    updatedAt: nat)

  /** assignedSenior is the new owner that an escalation's audit event names. */
  datatype Comment = Comment(
    taskId: Id,
    author: Id,
    kind: CommentKind,
    body: string,
    assignedSenior: Option<Id>,
    createdAt: nat)

  /** actorRole records the principal's role at the time; the table keeps only the membership. */
  datatype ReviewOutcome = ReviewOutcome(
    taskId: Id,
    firmId: Id,
    clientId: Id,
    documentId: Id,
    extractionRunId: Id,
    decisionRunId: Id,
    actor: Id,
    actorRole: Role,
    outcomeType: OutcomeType,
    journalId: Option<Id>,
    correctionCount: nat,
    reason: Option<string>,
    createdAt: nat)
  {
    predicate IsApproval() { outcomeType != Rejection }
  }

  datatype BatchRecord = BatchRecord(
    firmId: Id,
    clientId: Id,
    provider: string,
    providerVersion: string,
    batchReference: string,
    account: string,
    periodStart: int,
    periodEnd: int)

  datatype TransactionRecord = TransactionRecord(
    batchId: Id,
    provider: string,
    account: string,
    value: BankTransaction,
    createdAt: nat)

  datatype MatchRun = MatchRun(
    transactionId: Id,
    firmId: Id,
    clientId: Id,
    result: MatchResult,
    createdAt: nat)

  datatype ReconciliationStatus = ReviewOpen | ReviewDisputed | ReviewMatched | ReviewUnmatched

  datatype ActionType = CandidateSelected | DisputeRaised | DisputeReopened | MatchApproved | MarkedUnmatched

  datatype ReconciliationReview = ReconciliationReview(
    transactionId: Id,
    firmId: Id,
    clientId: Id,
    matchRunId: Id,
    status: ReconciliationStatus,
    selected: Option<Id>,
    updatedAt: nat)

  datatype ReviewAction = ReviewAction(
    reviewId: Id,
    actor: Id,
    action: ActionType,
    candidate: Option<Id>,
    reason: Option<string>)

  /** A matched outcome names an approved review outcome; an unmatched one does not. */
  datatype ReconciliationOutcome = ReconciliationOutcome(
    reviewId: Id,
    transactionId: Id,
    firmId: Id,
    clientId: Id,
    matchRunId: Id,
    matched: Option<Id>,
    actor: Id,
    reason: Option<string>,
    createdAt: nat)

  datatype Store = Store(
    clock: nat,
    extractions: seq<ExtractionRun>,
    corrections: seq<Correction>,
    decisions: seq<DecisionRun>,
    tasks: seq<ReviewTask>,
    comments: seq<Comment>,
    outcomes: seq<ReviewOutcome>,
    batches: seq<BatchRecord>,
    transactions: seq<TransactionRecord>,
    matchRuns: seq<MatchRun>,
    reviews: seq<ReconciliationReview>,
    actions: seq<ReviewAction>,
    settlements: seq<ReconciliationOutcome>)

  const EMPTY_STORE := Store(0, [], [], [], [], [], [], [], [], [], [], [], [])

  function OptionalText(text: Option<string>): Option<string> {
    if text.None? || Strip(text.value) == "" then None else Some(Strip(text.value))
  }

  // ----- extraction and accounting repositories

  function CorrectionsFor(corrections: seq<Correction>, runId: Id): seq<Correction> {
    if corrections == [] then []
    else
      var n := |corrections| - 1;
      CorrectionsFor(corrections[..n], runId) + if corrections[n].runId == runId then [corrections[n]] else []
  }

  function FieldsOf(extractions: seq<ExtractionRun>, runId: Id): seq<ExtractedField> {
    if runId < |extractions| then extractions[runId].fields else []
  }

  /** What build_effective_extraction_values yields for a run as the tables stand. */
  function EffectiveNow(extractions: seq<ExtractionRun>, corrections: seq<Correction>, runId: Id)
    : map<string, EffectiveValue>
  {
    Effective(FieldsOf(extractions, runId), CorrectionsFor(corrections, runId))
  }

  /** One more than the field's largest revision so far. */
  function NextRevision(corrections: seq<Correction>, runId: Id, fieldId: Id): nat {
    if corrections == [] then 1
    else
      var n := |corrections| - 1;
      var rest := NextRevision(corrections[..n], runId, fieldId);
      if corrections[n].runId == runId && corrections[n].fieldId == fieldId && corrections[n].revision >= rest
      then corrections[n].revision + 1 else rest
  }

  predicate IsExtractionFor(s: Store, firmId: Id, clientId: Id, documentId: Id, runId: Id) {
    runId < |s.extractions| && s.extractions[runId].firmId == firmId &&
    s.extractions[runId].clientId == clientId && s.extractions[runId].documentId == documentId
  }

  predicate IsDecisionFor(s: Store, firmId: Id, clientId: Id, documentId: Id, runId: Id, decisionId: Id) {
    decisionId < |s.decisions| && s.decisions[decisionId].firmId == firmId &&
    s.decisions[decisionId].clientId == clientId && s.decisions[decisionId].documentId == documentId &&
    s.decisions[decisionId].extractionRunId == runId
  }

  predicate IsSucceededFor(d: DecisionRun, firmId: Id, clientId: Id) {
    d.Succeeded() && d.firmId == firmId && d.clientId == clientId
  }

  /** The client's succeeded runs, most recent first, at most limit of them. */
  function RecentRuns(decisions: seq<DecisionRun>, firmId: Id, clientId: Id, limit: nat): seq<Id> {
    if decisions == [] || limit == 0 then []
    else
      var n := |decisions| - 1;
      if IsSucceededFor(decisions[n], firmId, clientId)
      then [n] + RecentRuns(decisions[..n], firmId, clientId, limit - 1)
      else RecentRuns(decisions[..n], firmId, clientId, limit)
  }

  // ----- review repository

  datatype TaskPath = TaskPath(clientId: Id, documentId: Id, extractionRunId: Id, decisionRunId: Id, taskId: Id)

  predicate IsTaskFor(s: Store, firmId: Id, path: TaskPath) {
    path.taskId < |s.tasks| && s.tasks[path.taskId].firmId == firmId &&
    s.tasks[path.taskId].clientId == path.clientId && s.tasks[path.taskId].documentId == path.documentId &&
    s.tasks[path.taskId].extractionRunId == path.extractionRunId &&
    s.tasks[path.taskId].decisionRunId == path.decisionRunId
  }

  predicate HasTaskFor(tasks: seq<ReviewTask>, decisionId: Id) {
    exists k | 0 <= k < |tasks| :: tasks[k].decisionRunId == decisionId
  }

  function OutcomeOf(outcomes: seq<ReviewOutcome>, taskId: Id): Option<ReviewOutcome> {
    if outcomes == [] then None
    else if outcomes[|outcomes| - 1].taskId == taskId then Some(outcomes[|outcomes| - 1])
    else OutcomeOf(outcomes[..|outcomes| - 1], taskId)
  }

  predicate IsApprovalOf(o: ReviewOutcome, runId: Id) {
    o.IsApproval() && o.extractionRunId == runId
  }

  predicate HasApprovedOutcome(outcomes: seq<ReviewOutcome>, runId: Id) {
    exists k | 0 <= k < |outcomes| :: IsApprovalOf(outcomes[k], runId)
  }

  function CommentsFor(comments: seq<Comment>, taskId: Id): seq<Comment> {
    if comments == [] then []
    else
      var n := |comments| - 1;
      CommentsFor(comments[..n], taskId) + if comments[n].taskId == taskId then [comments[n]] else []
  }

  // ----- reconciliation repositories

  predicate IsTransactionFor(s: Store, firmId: Id, clientId: Id, transactionId: Id) {
    transactionId < |s.transactions| && s.transactions[transactionId].value.firmId == firmId &&
    s.transactions[transactionId].value.clientId == clientId
  }

  predicate IsMatchRunFor(s: Store, firmId: Id, clientId: Id, transactionId: Id, runId: Id) {
    runId < |s.matchRuns| && s.matchRuns[runId].transactionId == transactionId &&
    s.matchRuns[runId].firmId == firmId && s.matchRuns[runId].clientId == clientId
  }

  predicate HasReviewFor(reviews: seq<ReconciliationReview>, transactionId: Id) {
    exists k | 0 <= k < |reviews| :: reviews[k].transactionId == transactionId
  }

  predicate IsReviewFor(s: Store, firmId: Id, clientId: Id, transactionId: Id, reviewId: Id) {
    reviewId < |s.reviews| && s.reviews[reviewId].transactionId == transactionId &&
    s.reviews[reviewId].firmId == firmId && s.reviews[reviewId].clientId == clientId
  }

  predicate HasCandidate(candidates: seq<Candidate>, outcomeId: Id) {
    exists k | 0 <= k < |candidates| :: candidates[k].target.outcomeId == outcomeId
  }

  predicate HasSettlement(settlements: seq<ReconciliationOutcome>, reviewId: Id) {
    exists k | 0 <= k < |settlements| :: settlements[k].reviewId == reviewId
  }

  predicate Settles(settlement: ReconciliationOutcome, firmId: Id, clientId: Id, outcomeId: Id) {
    settlement.firmId == firmId && settlement.clientId == clientId && settlement.matched == Some(outcomeId)
  }

  predicate IsAlreadyMatched(settlements: seq<ReconciliationOutcome>, firmId: Id, clientId: Id, outcomeId: Id) {
    exists k | 0 <= k < |settlements| :: Settles(settlements[k], firmId, clientId, outcomeId)
  }

  function ActionsFor(actions: seq<ReviewAction>, reviewId: Id): seq<ReviewAction> {
    if actions == [] then []
    else
      var n := |actions| - 1;
      ActionsFor(actions[..n], reviewId) + if actions[n].reviewId == reviewId then [actions[n]] else []
  }

  predicate SameBatchKey(b: BatchRecord, c: BatchRecord) {
    b.firmId == c.firmId && b.clientId == c.clientId && b.provider == c.provider &&
    b.account == c.account && b.batchReference == c.batchReference
  }

  predicate SameSource(t: TransactionRecord, u: TransactionRecord) {
    t.value.firmId == u.value.firmId && t.value.clientId == u.value.clientId && t.provider == u.provider &&
    t.account == u.account && t.value.sourceId == u.value.sourceId
  }

  // ----- commit constraints

  predicate UniqueRevisions(corrections: seq<Correction>) {
    forall i, j | 0 <= i < j < |corrections| && corrections[i].runId == corrections[j].runId &&
                  corrections[i].fieldId == corrections[j].fieldId ::
      corrections[i].revision != corrections[j].revision
  }

  predicate CorrectionsPersist(corrections: seq<Correction>) {
    (forall i | 0 <= i < |corrections| :: corrections[i].revision >= 1 && corrections[i].reason != "") &&
    UniqueRevisions(corrections)
  }

  predicate SingleSided(line: JournalLine) {
    (line.debit > 0 && line.credit == 0) || (line.credit > 0 && line.debit == 0)
  }

  /** The journal tables' checks: totals in range, balance flag consistent, one-sided lines. */
  predicate JournalPersists(journal: Journal) {
    journal.currency != "" && 0 <= journal.totalDebits <= MAX_MONEY && 0 <= journal.totalCredits <= MAX_MONEY &&
    (journal.isBalanced <==> journal.totalDebits == journal.totalCredits) &&
    forall i | 0 <= i < |journal.lines| :: SingleSided(journal.lines[i]) && journal.lines[i].account != ""
  }

  predicate SupplierCandidatesPersist(candidates: seq<SupplierCandidate>) {
    (forall i | 0 <= i < |candidates| :: candidates[i].reference != "" && candidates[i].name != "") &&
    forall i, j | 0 <= i < j < |candidates| :: candidates[i].reference != candidates[j].reference
  }

  predicate DuplicatesPersist(duplicates: seq<DuplicateCandidate>) {
    (forall i | 0 <= i < |duplicates| :: 0 <= duplicates[i].confidence <= 10_000) &&
    forall i, j | 0 <= i < j < |duplicates| :: duplicates[i].decisionRunId != duplicates[j].decisionRunId
  }

  predicate OutputPersists(output: Decision) {
    (output.journal.Some? ==> JournalPersists(output.journal.value)) &&
    (forall i | 0 <= i < |output.recommendations| :: output.recommendations[i].value != "") &&
    SupplierCandidatesPersist(output.supplierMatch.candidates) && DuplicatesPersist(output.duplicates)
  }

  predicate DecisionsPersist(decisions: seq<DecisionRun>) {
    forall i | 0 <= i < |decisions| :: decisions[i].Succeeded() ==> OutputPersists(decisions[i].output.value)
  }

  /** ck_review_tasks_state_consistency. */
  predicate ConsistentTask(t: ReviewTask) {
    (t.escalation == NotEscalated <==> t.escalatedAt.None?) &&
    (t.status == Open ==> t.escalation == NotEscalated) &&
    (t.status == Escalated ==> t.escalation == SeniorReview)
  }

  predicate TasksPersist(tasks: seq<ReviewTask>) {
    (forall i | 0 <= i < |tasks| :: ConsistentTask(tasks[i])) &&
    forall i, j | 0 <= i < j < |tasks| :: tasks[i].decisionRunId != tasks[j].decisionRunId
  }

  predicate CommentsPersist(comments: seq<Comment>) {
    forall i | 0 <= i < |comments| :: comments[i].body != ""
  }

  /** ck_review_outcomes_resolution_consistency. */
  predicate ResolvedOutcome(o: ReviewOutcome) {
    if o.IsApproval() then o.journalId.Some?
    else o.journalId.None? && o.reason.Some? && o.reason.value != ""
  }

  predicate OutcomesPersist(outcomes: seq<ReviewOutcome>) {
    (forall i | 0 <= i < |outcomes| :: ResolvedOutcome(outcomes[i])) &&
    forall i, j | 0 <= i < j < |outcomes| :: outcomes[i].taskId != outcomes[j].taskId
  }

  predicate BatchPersists(b: BatchRecord) {
    b.provider != "" && b.providerVersion != "" && b.batchReference != "" && b.account != "" &&
    b.periodStart <= b.periodEnd
  }

  predicate BatchesPersist(batches: seq<BatchRecord>) {
    (forall i | 0 <= i < |batches| :: BatchPersists(batches[i])) &&
    forall i, j | 0 <= i < j < |batches| :: !SameBatchKey(batches[i], batches[j])
  }

  predicate TransactionPersists(t: TransactionRecord) {
    t.value.amount > 0 && |t.value.currency| == 3 && t.value.sourceId != "" && t.value.description != "" &&
    t.provider != "" && t.account != ""
  }

  predicate TransactionsPersist(transactions: seq<TransactionRecord>) {
    (forall i | 0 <= i < |transactions| :: TransactionPersists(transactions[i])) &&
    forall i, j | 0 <= i < j < |transactions| :: !SameSource(transactions[i], transactions[j])
  }

  predicate DistinctCandidates(candidates: seq<Candidate>) {
    forall i, j | 0 <= i < j < |candidates| ::
      candidates[i].target.outcomeId != candidates[j].target.outcomeId
  }

  predicate CandidatePersists(c: Candidate) {
    IsUnit(c.score) && c.target.amount > 0 && |c.target.currency| == 3
  }

  predicate MatchRunPersists(run: MatchRun) {
    DistinctCandidates(run.result.candidates) &&
    forall i | 0 <= i < |run.result.candidates| :: CandidatePersists(run.result.candidates[i])
  }

  predicate MatchRunsPersist(runs: seq<MatchRun>) {
    forall i | 0 <= i < |runs| :: MatchRunPersists(runs[i])
  }

  predicate ReviewsPersist(reviews: seq<ReconciliationReview>) {
    forall i, j | 0 <= i < j < |reviews| :: reviews[i].transactionId != reviews[j].transactionId
  }

  predicate ActionsPersist(actions: seq<ReviewAction>) {
    forall i | 0 <= i < |actions| :: actions[i].reason.Some? ==> actions[i].reason.value != ""
  }

  predicate SameMatch(a: ReconciliationOutcome, b: ReconciliationOutcome) {
    a.matched.Some? && b.matched.Some? && a.firmId == b.firmId && a.clientId == b.clientId &&
    a.matched.value == b.matched.value
  }

  predicate SettlementsPersist(settlements: seq<ReconciliationOutcome>) {
    (forall i | 0 <= i < |settlements| ::
       settlements[i].matched.None? ==> settlements[i].reason.Some? && settlements[i].reason.value != "") &&
    forall i, j | 0 <= i < j < |settlements| ::
      settlements[i].reviewId != settlements[j].reviewId &&
      settlements[i].transactionId != settlements[j].transactionId &&
      !SameMatch(settlements[i], settlements[j])
  }

  /** Every unique and check constraint of the modelled tables. */
  predicate Constraints(s: Store) {
    CorrectionsPersist(s.corrections) && DecisionsPersist(s.decisions) && TasksPersist(s.tasks) &&
    CommentsPersist(s.comments) && OutcomesPersist(s.outcomes) && BatchesPersist(s.batches) &&
    TransactionsPersist(s.transactions) && MatchRunsPersist(s.matchRuns) && ReviewsPersist(s.reviews) &&
    ActionsPersist(s.actions) && SettlementsPersist(s.settlements)
  }
}
