/** Bank import, match generation and reconciliation review calls. */
module ReconciliationCalls {
  import opened Prelude
  import opened Text
  import opened Engine
  import opened Matching
  import opened Store
  import opened Targets
  import opened EvidenceCalls

  // ----- persist_import_batch

  datatype ImportBatch = ImportBatch(
    firmId: Id,
    clientId: Id,
    provider: string,
    providerVersion: string,
    batchReference: string,
    account: string,
    periodStart: int,
    periodEnd: int,
    transactions: seq<BankTransaction>)

  /** What the batch's constructor accepts; source ids are compared unstripped. */
  predicate ValidBatch(b: ImportBatch) {
    Strip(b.provider) != "" && Strip(b.providerVersion) != "" && Strip(b.batchReference) != "" &&
    Strip(b.account) != "" && b.periodStart <= b.periodEnd &&
    (forall i | 0 <= i < |b.transactions| ::
       ValidTransaction(b.transactions[i]) && b.transactions[i].firmId == b.firmId &&
       b.transactions[i].clientId == b.clientId &&
       b.periodStart <= b.transactions[i].bookingDate <= b.periodEnd) &&
    forall i, j | 0 <= i < j < |b.transactions| :: b.transactions[i].sourceId != b.transactions[j].sourceId
  }

  function BatchRow(b: ImportBatch): BatchRecord {
    BatchRecord(b.firmId, b.clientId, Strip(b.provider), Strip(b.providerVersion), Strip(b.batchReference),
                Strip(b.account), b.periodStart, b.periodEnd)
  }

  /** The values a transaction is stored with. */
  function Stored(t: BankTransaction): BankTransaction {
    t.(sourceId := Strip(t.sourceId), currency := NormalizedCurrency(t.currency),
       description := Strip(t.description))
  }

  function TransactionRow(b: ImportBatch, batchId: Id, t: BankTransaction, now: nat): TransactionRecord {
    TransactionRecord(batchId, Strip(b.provider), Strip(b.account),
                      Stored(t).(firmId := b.firmId, clientId := b.clientId), now)
  }

  function TransactionRows(b: ImportBatch, batchId: Id, transactions: seq<BankTransaction>, now: nat)
    : seq<TransactionRecord>
  {
    if transactions == [] then []
    else
      var n := |transactions| - 1;
      TransactionRows(b, batchId, transactions[..n], now) + [TransactionRow(b, batchId, transactions[n], now)]
  }

  function FindBatch(batches: seq<BatchRecord>, row: BatchRecord): Option<Id> {
    if batches == [] then None
    else
      var n := |batches| - 1;
      if SameBatchKey(batches[n], row) then Some(n) else FindBatch(batches[..n], row)
  }

  function TransactionsOf(transactions: seq<TransactionRecord>, batchId: Id): seq<TransactionRecord> {
    if transactions == [] then []
    else
      var n := |transactions| - 1;
      TransactionsOf(transactions[..n], batchId) +
      if transactions[n].batchId == batchId then [transactions[n]] else []
  }

  /** The dictionary of persisted rows by source id. */
  function BySourceId(rows: seq<TransactionRecord>): map<string, TransactionRecord> {
    if rows == [] then map[]
    else BySourceId(rows[..|rows| - 1])[rows[|rows| - 1].value.sourceId := rows[|rows| - 1]]
  }

  predicate SameValues(persisted: BankTransaction, t: BankTransaction) {
    persisted.bookingDate == t.bookingDate && persisted.valueDate == t.valueDate &&
    persisted.direction == t.direction && persisted.amount == t.amount &&
    persisted.currency == NormalizedCurrency(t.currency) && persisted.description == Strip(t.description) &&
    persisted.reference == t.reference && persisted.counterparty == t.counterparty
  }

  predicate HasSameRow(rows: map<string, TransactionRecord>, t: BankTransaction) {
    Strip(t.sourceId) in rows && SameValues(rows[Strip(t.sourceId)].value, t)
  }

  /** _matches_existing_batch. */
  predicate MatchesExisting(b: ImportBatch, existing: BatchRecord, rows: seq<TransactionRecord>) {
    existing.providerVersion == Strip(b.providerVersion) && existing.periodStart == b.periodStart &&
    existing.periodEnd == b.periodEnd && |rows| == |b.transactions| &&
    forall i | 0 <= i < |b.transactions| :: HasSameRow(BySourceId(rows), b.transactions[i])
  }

  predicate AlreadyImported(transactions: seq<TransactionRecord>, b: ImportBatch, t: BankTransaction) {
    exists k | 0 <= k < |transactions| :: SameSource(transactions[k], TransactionRow(b, 0, t, 0))
  }

  function ImportGuard(s: Store, ctx: Context, b: ImportBatch): Option<ErrorCode> {
    if !ValidBatch(b) then Some(InvalidImportBatch)
    else if !ctx.HasAccess(b.clientId) then Some(Forbidden)
    else if b.firmId != ctx.principal.firmId then Some(Forbidden)
    else
      var existing := FindBatch(s.batches, BatchRow(b));
      if existing.Some? then
        if existing.value < |s.batches| &&
           MatchesExisting(b, s.batches[existing.value], TransactionsOf(s.transactions, existing.value))
        then None else Some(BankImportBatchConflict)
      else if exists i | 0 <= i < |b.transactions| :: AlreadyImported(s.transactions, b, b.transactions[i])
        then Some(BankTransactionAlreadyImported)
      else None
  }

  /** A replayed batch changes nothing. */
  function ImportNext(s: Store, b: ImportBatch): Store {
    if FindBatch(s.batches, BatchRow(b)).Some? then s
    else
      s.(clock := s.clock + 1,
         batches := s.batches + [BatchRow(b)],
         transactions := s.transactions + TransactionRows(b, |s.batches|, b.transactions, s.clock + 1))
  }

  // ----- generate_match_run

  function GenerateMatchGuard(s: Store, ctx: Context, clientId: Id, transactionId: Id): Option<ErrorCode> {
    if !ctx.HasAccess(clientId) then Some(Forbidden)
    else if !IsTransactionFor(s, ctx.principal.firmId, clientId, transactionId) then Some(NotFound)
    else if HasReviewFor(s.reviews, transactionId) then Some(ReconciliationReviewStarted)
    else None
  }

  function GenerateMatchNext(lexicon: Lexicon, s: Store, ctx: Context, clientId: Id, transactionId: Id): Store
    requires transactionId < |s.transactions|
  {
    var targets := ApprovedTargets(lexicon, s, ctx.principal.firmId, clientId);
    var result := MatchTargets(DEFAULT_POLICY, s.transactions[transactionId].value, targets);
    s.(clock := s.clock + 1,
       matchRuns := s.matchRuns +
         [MatchRun(transactionId, ctx.principal.firmId, clientId, result, s.clock + 1)])
  }

  // ----- create_review

  datatype ReviewPath = ReviewPath(clientId: Id, transactionId: Id, reviewId: Id)

  function CreateReviewGuard(s: Store, ctx: Context, clientId: Id, transactionId: Id, matchRunId: Id)
    : Option<ErrorCode>
  {
    if !ctx.HasAccess(clientId) then Some(Forbidden)
    else if !IsTransactionFor(s, ctx.principal.firmId, clientId, transactionId) then Some(NotFound)
    else if HasReviewFor(s.reviews, transactionId) then Some(ReconciliationReviewExists)
    else if !IsMatchRunFor(s, ctx.principal.firmId, clientId, transactionId, matchRunId) then Some(NotFound)
    else None
  }

  function CreateReviewNext(s: Store, ctx: Context, clientId: Id, transactionId: Id, matchRunId: Id): Store {
    s.(clock := s.clock + 1,
       reviews := s.reviews +
         [ReconciliationReview(transactionId, ctx.principal.firmId, clientId, matchRunId, ReviewOpen, None,
                               s.clock + 1)])
  }

  // ----- shared guards on a review

  function ReviewGuard(s: Store, ctx: Context, path: ReviewPath): Option<ErrorCode> {
    if !ctx.HasAccess(path.clientId) then Some(Forbidden)
    else if !IsTransactionFor(s, ctx.principal.firmId, path.clientId, path.transactionId) then Some(NotFound)
    else if !IsReviewFor(s, ctx.principal.firmId, path.clientId, path.transactionId, path.reviewId)
      then Some(NotFound)
    else None
  }

  predicate IsTerminalReview(status: ReconciliationStatus) { status in {ReviewMatched, ReviewUnmatched} }

  function OpenReviewGuard(s: Store, ctx: Context, path: ReviewPath): Option<ErrorCode> {
    var found := ReviewGuard(s, ctx, path);
    if found.Some? then found
    else
      var status := s.reviews[path.reviewId].status;
      if status == ReviewDisputed then Some(ErrorCode.ReconciliationDisputed)
      else if status != ReviewOpen then
        if IsTerminalReview(status) then Some(ReconciliationReviewTerminal)
        else Some(InvalidReconciliationReviewState)
      else None
  }

  predicate IsRunCandidate(s: Store, review: ReconciliationReview, outcomeId: Id) {
    IsMatchRunFor(s, review.firmId, review.clientId, review.transactionId, review.matchRunId) &&
    HasCandidate(s.matchRuns[review.matchRunId].result.candidates, outcomeId)
  }

  // ----- select_candidate

  function SelectGuard(s: Store, ctx: Context, path: ReviewPath, outcomeId: Id): Option<ErrorCode> {
    var open := OpenReviewGuard(s, ctx, path);
    if open.Some? then open
    else if !IsRunCandidate(s, s.reviews[path.reviewId], outcomeId) then Some(CandidateNotInReviewMatchRun)
    else None
  }

  /** The review row after one action, and the action it logs. */
  function ActedOn(
      s: Store, ctx: Context, path: ReviewPath, status: ReconciliationStatus, selected: Option<Id>,
      action: ActionType, candidate: Option<Id>, reason: Option<string>)
    : Store
    requires path.reviewId < |s.reviews|
  {
    s.(clock := s.clock + 1,
       reviews := s.reviews[path.reviewId := s.reviews[path.reviewId].(
         status := status, selected := selected, updatedAt := s.clock + 1)],
       actions := s.actions + [ReviewAction(path.reviewId, ctx.principal.membershipId, action, candidate, reason)])
  }

  function SelectNext(s: Store, ctx: Context, path: ReviewPath, outcomeId: Id): Store
    requires path.reviewId < |s.reviews|
  {
    ActedOn(s, ctx, path, s.reviews[path.reviewId].status, Some(outcomeId), CandidateSelected, Some(outcomeId), None)
  }

  // ----- dispute and reopen

  function DisputeGuard(s: Store, ctx: Context, path: ReviewPath, reason: string): Option<ErrorCode> {
    if Strip(reason) == "" then Some(DisputeReasonRequired) else OpenReviewGuard(s, ctx, path)
  }

  function DisputeNext(s: Store, ctx: Context, path: ReviewPath, reason: string): Store
    requires path.reviewId < |s.reviews|
  {
    var selected := s.reviews[path.reviewId].selected;
    ActedOn(s, ctx, path, ReviewDisputed, selected, DisputeRaised, selected, Some(Strip(reason)))
  }

  function ReopenGuard(s: Store, ctx: Context, path: ReviewPath, reason: string): Option<ErrorCode> {
    if Strip(reason) == "" then Some(ReopenReasonRequired)
    else
      var found := ReviewGuard(s, ctx, path);
      if found.Some? then found
      else if s.reviews[path.reviewId].status != ReviewDisputed then Some(ReconciliationReviewNotDisputed)
      else None
  }

  function ReopenNext(s: Store, ctx: Context, path: ReviewPath, reason: string): Store
    requires path.reviewId < |s.reviews|
  {
    var selected := s.reviews[path.reviewId].selected;
    ActedOn(s, ctx, path, ReviewOpen, selected, DisputeReopened, selected, Some(Strip(reason)))
  }

  // ----- approve_match

  function ApproveMatchGuard(s: Store, ctx: Context, path: ReviewPath): Option<ErrorCode> {
    var open := OpenReviewGuard(s, ctx, path);
    if open.Some? then open
    else
      var review := s.reviews[path.reviewId];
      if review.selected.None? then Some(ReconciliationCandidateRequired)
      else if HasSettlement(s.settlements, path.reviewId) then Some(ReconciliationOutcomeExists)
      else if !IsRunCandidate(s, review, review.selected.value) then Some(ReconciliationCandidateMissing)
      else if IsAlreadyMatched(s.settlements, ctx.principal.firmId, path.clientId, review.selected.value)
        then Some(ReconciliationTargetAlreadyMatched)
      else None
  }

  function Settle(s: Store, ctx: Context, path: ReviewPath, matched: Option<Id>, reason: Option<string>)
    : ReconciliationOutcome
    requires path.reviewId < |s.reviews|
  {
    var review := s.reviews[path.reviewId];
    ReconciliationOutcome(path.reviewId, review.transactionId, review.firmId, review.clientId,
                          review.matchRunId, matched, ctx.principal.membershipId, reason, s.clock + 1)
  }

  function ApproveMatchNext(s: Store, ctx: Context, path: ReviewPath, note: Option<string>): Store
    requires path.reviewId < |s.reviews|
  {
    var selected := s.reviews[path.reviewId].selected;
    ActedOn(s, ctx, path, ReviewMatched, selected, MatchApproved, selected, OptionalText(note))
      .(settlements := s.settlements + [Settle(s, ctx, path, selected, OptionalText(note))])
  }

  // ----- mark_unmatched

  function MarkUnmatchedGuard(s: Store, ctx: Context, path: ReviewPath, reason: string): Option<ErrorCode> {
    if Strip(reason) == "" then Some(UnmatchedReasonRequired)
    else
      var found := ReviewGuard(s, ctx, path);
      if found.Some? then found
      else if IsTerminalReview(s.reviews[path.reviewId].status) then Some(ReconciliationReviewTerminal)
      else if HasSettlement(s.settlements, path.reviewId) then Some(ReconciliationOutcomeExists)
      else None
  }

  function MarkUnmatchedNext(s: Store, ctx: Context, path: ReviewPath, reason: string): Store
    requires path.reviewId < |s.reviews|
  {
    var selected := s.reviews[path.reviewId].selected;
    ActedOn(s, ctx, path, ReviewUnmatched, selected, MarkedUnmatched, selected, Some(Strip(reason)))
      .(settlements := s.settlements + [Settle(s, ctx, path, None, Some(Strip(reason)))])
  }
}
