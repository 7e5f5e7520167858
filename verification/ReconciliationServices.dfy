/** The bank import, matching and reconciliation review services, step by step over a session. */
module ReconciliationServices {
  import opened Prelude
  import opened Text
  import opened EffectiveValues
  import opened Engine
  import opened Matching
  import opened Store
  import opened Targets
  import opened EvidenceCalls
  import opened ReconciliationCalls
  import opened Session

  /** The batch constructor's checks: one pass with the source ids seen so far. */
  method CheckBatch(b: ImportBatch) returns (ok: bool)
    ensures ok == ValidBatch(b)
  {
    hide Strip, ValidTransaction;
    if Strip(b.provider) == "" || Strip(b.providerVersion) == "" || Strip(b.batchReference) == "" ||
       Strip(b.account) == "" || b.periodEnd < b.periodStart {
      return false;
    }
    var seen: set<string> := {};
    for k := 0 to |b.transactions|
      invariant forall i | 0 <= i < k ::
        ValidTransaction(b.transactions[i]) && b.transactions[i].firmId == b.firmId &&
        b.transactions[i].clientId == b.clientId &&
        b.periodStart <= b.transactions[i].bookingDate <= b.periodEnd && b.transactions[i].sourceId in seen
      invariant forall id | id in seen :: exists i | 0 <= i < k :: b.transactions[i].sourceId == id
      invariant forall i, j | 0 <= i < j < k :: b.transactions[i].sourceId != b.transactions[j].sourceId
    {
      var t := b.transactions[k];
      if !ValidTransaction(t) { return false; }
      if t.firmId != b.firmId || t.clientId != b.clientId { return false; }
      if t.sourceId in seen { return false; }
      seen := seen + {t.sourceId};
      if !(b.periodStart <= t.bookingDate <= b.periodEnd) { return false; }
    }
    return true;
  }

  class ReconciliationApiService {
    const session: Session
    const lexicon: Lexicon

    constructor (session: Session, lexicon: Lexicon)
      ensures this.session == session && this.lexicon == lexicon
    {
      this.session := session;
      this.lexicon := lexicon;
    }

    /** _matches_existing_batch: a dictionary of the persisted rows, then one pass. */
    method MatchesExistingBatch(b: ImportBatch, existing: BatchRecord, rows: seq<TransactionRecord>)
      returns (same: bool)
      ensures same == MatchesExisting(b, existing, rows)
    {
      hide Strip, SameValues;
      if existing.providerVersion != Strip(b.providerVersion) || existing.periodStart != b.periodStart ||
         existing.periodEnd != b.periodEnd || |rows| != |b.transactions| {
        return false;
      }
      var bySourceId: map<string, TransactionRecord> := map[];
      for k := 0 to |rows|
        invariant bySourceId == BySourceId(rows[..k])
      {
        assert rows[..k + 1][..k] == rows[..k];
        bySourceId := bySourceId[rows[k].value.sourceId := rows[k]];
      }
      assert rows[..|rows|] == rows;
      for k := 0 to |b.transactions|
        invariant forall i | 0 <= i < k :: HasSameRow(bySourceId, b.transactions[i])
      {
        var t := b.transactions[k];
        if Strip(t.sourceId) !in bySourceId { return false; }
        if !SameValues(bySourceId[Strip(t.sourceId)].value, t) { return false; }
      }
      return true;
    }

    /** True when the import was stored now, false when it repeats a stored batch. */
    method PersistImportBatch(ctx: Context, b: ImportBatch) returns (result: Result<bool>)
      requires session.Clean()
      modifies session
      ensures result.Ok? ==> session.Clean()
      ensures var s := old(session.committed);
        var refused := ImportGuard(s, ctx, b);
        if refused.None? && FindBatch(s.batches, BatchRow(b)).Some?
        then session.committed == s && result == Ok(false)
        else
          Ended(s, session.committed, refused, ImportNext(s, b), BankImportConflict, result.Raised()) &&
          (result.Ok? ==> result == Ok(true))
    {
      hide Constraints, ValidBatch, Strip, SameBatchKey, MatchesExisting, TransactionRow, AlreadyImported, BatchRow;
      var valid := CheckBatch(b);
      if !valid { return Err(InvalidImportBatch); }
      if !ctx.HasAccess(b.clientId) { return Err(Forbidden); }
      if b.firmId != ctx.principal.firmId { return Err(Forbidden); }
      ghost var s := session.tables;
      var existing := FindBatch(session.tables.batches, BatchRow(b));
      if existing.Some? {
        if existing.value >= |session.tables.batches| { return Err(BankImportBatchConflict); }
        var rows := TransactionsOf(session.tables.transactions, existing.value);
        var same := MatchesExistingBatch(b, session.tables.batches[existing.value], rows);
        if !same { return Err(BankImportBatchConflict); }
        return Ok(false);
      }
      for k := 0 to |b.transactions|
        invariant session.tables == s && session.committed == s
        invariant forall i | 0 <= i < k :: !AlreadyImported(s.transactions, b, b.transactions[i])
      {
        if AlreadyImported(session.tables.transactions, b, b.transactions[k]) {
          return Err(BankTransactionAlreadyImported);
        }
      }
      var batchId := |session.tables.batches|;
      session.AddBatch(BatchRow(b));
      for k := 0 to |b.transactions|
        invariant session.committed == s
        invariant session.tables == s.(
          batches := s.batches + [BatchRow(b)],
          transactions := s.transactions + TransactionRows(b, batchId, b.transactions[..k], s.clock + 1))
      {
        assert b.transactions[..k + 1][..k] == b.transactions[..k];
        session.AddTransaction(TransactionRow(b, batchId, b.transactions[k], session.Now()));
      }
      assert b.transactions[..|b.transactions|] == b.transactions;
      :- session.CommitOrRaise(BankImportConflict);
      return Ok(true);
    }

    /** _approved_targets: project each approved outcome of the client over its values now. */
    method ProjectApprovedTargets(firmId: Id, clientId: Id) returns (targets: seq<Target>)
      ensures targets == ApprovedTargets(lexicon, session.tables, firmId, clientId)
    {
      hide Project;
      var s := session.tables;
      targets := [];
      for n := 0 to |s.outcomes|
        invariant targets == TargetsAmong(lexicon, s, firmId, clientId, n)
      {
        var outcome := s.outcomes[n];
        if !IsClientApproval(outcome, firmId, clientId) { continue; }
        var values := BuildEffectiveValues(
          FieldsOf(s.extractions, outcome.extractionRunId), CorrectionsFor(s.corrections, outcome.extractionRunId));
        var target := Project(lexicon, n, outcome, JournalOf(s.decisions, outcome.decisionRunId), values);
        if target.Some? {
          targets := targets + [target.value];
        }
      }
    }

    method GenerateMatchRun(ctx: Context, clientId: Id, transactionId: Id) returns (result: Result<MatchRun>)
      requires session.Clean()
      modifies session
      ensures result.Ok? ==> session.Clean()
      ensures var s := old(session.committed);
        var refused := GenerateMatchGuard(s, ctx, clientId, transactionId);
        Ended(s, session.committed, refused,
              if refused.Some? then s else GenerateMatchNext(lexicon, s, ctx, clientId, transactionId),
              ReconciliationPersistenceFailed, result.Raised())
      ensures result.Ok? ==> session.committed.matchRuns == old(session.committed).matchRuns + [result.value]
    {
      hide Constraints, MatchTargets, TargetsAmong;
      if !ctx.HasAccess(clientId) { return Err(Forbidden); }
      if !IsTransactionFor(session.tables, ctx.principal.firmId, clientId, transactionId) { return Err(NotFound); }
      if HasReviewFor(session.tables.reviews, transactionId) { return Err(ReconciliationReviewStarted); }
      var targets := ProjectApprovedTargets(ctx.principal.firmId, clientId);
      var matcher := new DeterministicMatcher(DEFAULT_POLICY);
      var found := matcher.Match(session.tables.transactions[transactionId].value, targets);
      var run := MatchRun(transactionId, ctx.principal.firmId, clientId, found, session.Now());
      session.AddMatchRun(run);
      :- session.CommitOrRaise(ReconciliationPersistenceFailed);
      return Ok(run);
    }
  }

  class ReconciliationReviewService {
    const session: Session

    constructor (session: Session)
      ensures this.session == session
    {
      this.session := session;
    }

    method CreateReview(ctx: Context, clientId: Id, transactionId: Id, matchRunId: Id)
      returns (result: Result<ReconciliationReview>)
      requires session.Clean()
      modifies session
      ensures result.Ok? ==> session.Clean()
      ensures var s := old(session.committed);
        Ended(s, session.committed, CreateReviewGuard(s, ctx, clientId, transactionId, matchRunId),
              CreateReviewNext(s, ctx, clientId, transactionId, matchRunId), ReconciliationReviewConflict,
              result.Raised())
      ensures result.Ok? ==> session.committed.reviews == old(session.committed).reviews + [result.value]
    {
      hide Constraints;
      if !ctx.HasAccess(clientId) { return Err(Forbidden); }
      if !IsTransactionFor(session.tables, ctx.principal.firmId, clientId, transactionId) { return Err(NotFound); }
      if HasReviewFor(session.tables.reviews, transactionId) { return Err(ReconciliationReviewExists); }
      if !IsMatchRunFor(session.tables, ctx.principal.firmId, clientId, transactionId, matchRunId) {
        return Err(NotFound);
      }
      var review := ReconciliationReview(
        transactionId, ctx.principal.firmId, clientId, matchRunId, ReviewOpen, None, session.Now());
      session.AddReview(review);
      :- session.CommitOrRaise(ReconciliationReviewConflict);
      return Ok(review);
    }

    method LockReviewContext(ctx: Context, path: ReviewPath) returns (result: Result<ReconciliationReview>)
      ensures result.Raised() == ReviewGuard(session.tables, ctx, path)
      ensures result.Ok? ==>
        path.reviewId < |session.tables.reviews| && result.value == session.tables.reviews[path.reviewId]
    {
      if !ctx.HasAccess(path.clientId) { return Err(Forbidden); }
      if !IsTransactionFor(session.tables, ctx.principal.firmId, path.clientId, path.transactionId) {
        return Err(NotFound);
      }
      if !IsReviewFor(session.tables, ctx.principal.firmId, path.clientId, path.transactionId, path.reviewId) {
        return Err(NotFound);
      }
      return Ok(session.tables.reviews[path.reviewId]);
    }

    method OpenReview(ctx: Context, path: ReviewPath) returns (result: Result<ReconciliationReview>)
      ensures result.Raised() == OpenReviewGuard(session.tables, ctx, path)
      ensures result.Ok? ==>
        path.reviewId < |session.tables.reviews| && result.value == session.tables.reviews[path.reviewId]
    {
      var review :- LockReviewContext(ctx, path);
      if review.status == ReviewDisputed { return Err(ErrorCode.ReconciliationDisputed); }
      if review.status != ReviewOpen { return Err(ReconciliationReviewTerminal); }
      return Ok(review);
    }

    method RequireReason(reason: string, code: ErrorCode) returns (check: Check)
      ensures check == if Strip(reason) == "" then Fail(code) else Pass
    {
      return if Strip(reason) == "" then Fail(code) else Pass;
    }

    /** Stores the changed row and logs the action that changed it. */
    method Act(ctx: Context, path: ReviewPath, changed: ReconciliationReview, action: ActionType,
               candidate: Option<Id>, reason: Option<string>)
      requires path.reviewId < |session.tables.reviews|
      modifies session`tables
      ensures session.tables == old(session.tables).(
        reviews := old(session.tables.reviews)[path.reviewId := changed.(updatedAt := old(session.tables.clock) + 1)],
        actions := old(session.tables.actions) +
          [ReviewAction(path.reviewId, ctx.principal.membershipId, action, candidate, reason)])
    {
      session.PutReview(path.reviewId, changed.(updatedAt := session.Now()));
      session.AddAction(ReviewAction(path.reviewId, ctx.principal.membershipId, action, candidate, reason));
    }

    method SelectCandidate(ctx: Context, path: ReviewPath, outcomeId: Id)
      returns (result: Result<ReconciliationReview>)
      requires session.Clean()
      modifies session
      ensures result.Ok? ==> session.Clean()
      ensures var s := old(session.committed);
        var refused := SelectGuard(s, ctx, path, outcomeId);
        Ended(s, session.committed, refused, if refused.Some? then s else SelectNext(s, ctx, path, outcomeId),
              ReconciliationPersistenceConflict, result.Raised())
      ensures result.Ok? ==>
        path.reviewId < |session.committed.reviews| && result.value == session.committed.reviews[path.reviewId]
    {
      hide Constraints, HasCandidate;
      var review :- OpenReview(ctx, path);
      if !IsRunCandidate(session.tables, review, outcomeId) { return Err(CandidateNotInReviewMatchRun); }
      Act(ctx, path, review.(selected := Some(outcomeId)), CandidateSelected, Some(outcomeId), None);
      :- session.CommitOrRaise(ReconciliationPersistenceConflict);
      return Ok(session.tables.reviews[path.reviewId]);
    }

    method Dispute(ctx: Context, path: ReviewPath, reason: string) returns (result: Result<ReconciliationReview>)
      requires session.Clean()
      modifies session
      ensures result.Ok? ==> session.Clean()
      ensures var s := old(session.committed);
        var refused := DisputeGuard(s, ctx, path, reason);
        Ended(s, session.committed, refused, if refused.Some? then s else DisputeNext(s, ctx, path, reason),
              ReconciliationPersistenceConflict, result.Raised())
      ensures result.Ok? ==>
        path.reviewId < |session.committed.reviews| && result.value == session.committed.reviews[path.reviewId]
    {
      hide Constraints, Strip;
      :- RequireReason(reason, DisputeReasonRequired);
      var review :- OpenReview(ctx, path);
      Act(ctx, path, review.(status := ReviewDisputed), DisputeRaised, review.selected, Some(Strip(reason)));
      :- session.CommitOrRaise(ReconciliationPersistenceConflict);
      return Ok(session.tables.reviews[path.reviewId]);
    }

    method Reopen(ctx: Context, path: ReviewPath, reason: string) returns (result: Result<ReconciliationReview>)
      requires session.Clean()
      modifies session
      ensures result.Ok? ==> session.Clean()
      ensures var s := old(session.committed);
        var refused := ReopenGuard(s, ctx, path, reason);
        Ended(s, session.committed, refused, if refused.Some? then s else ReopenNext(s, ctx, path, reason),
              ReconciliationPersistenceConflict, result.Raised())
      ensures result.Ok? ==>
        path.reviewId < |session.committed.reviews| && result.value == session.committed.reviews[path.reviewId]
    {
      hide Constraints, Strip;
      :- RequireReason(reason, ReopenReasonRequired);
      var review :- LockReviewContext(ctx, path);
      if review.status != ReviewDisputed { return Err(ReconciliationReviewNotDisputed); }
      Act(ctx, path, review.(status := ReviewOpen), DisputeReopened, review.selected, Some(Strip(reason)));
      :- session.CommitOrRaise(ReconciliationPersistenceConflict);
      return Ok(session.tables.reviews[path.reviewId]);
    }

    /** The outcome is added before the review row changes; both commit together. */
    method ApproveMatch(ctx: Context, path: ReviewPath, note: Option<string>)
      returns (result: Result<ReconciliationOutcome>)
      requires session.Clean()
      modifies session
      ensures result.Ok? ==> session.Clean()
      ensures var s := old(session.committed);
        var refused := ApproveMatchGuard(s, ctx, path);
        Ended(s, session.committed, refused, if refused.Some? then s else ApproveMatchNext(s, ctx, path, note),
              ReconciliationTerminalConflict, result.Raised())
      ensures result.Ok? ==> session.committed.settlements == old(session.committed).settlements + [result.value]
    {
      hide Constraints, HasCandidate, HasSettlement, IsAlreadyMatched, OptionalText;
      var review :- OpenReview(ctx, path);
      if review.selected.None? { return Err(ReconciliationCandidateRequired); }
      if HasSettlement(session.tables.settlements, path.reviewId) { return Err(ReconciliationOutcomeExists); }
      if !IsRunCandidate(session.tables, review, review.selected.value) { return Err(ReconciliationCandidateMissing); }
      if IsAlreadyMatched(session.tables.settlements, ctx.principal.firmId, path.clientId, review.selected.value) {
        return Err(ReconciliationTargetAlreadyMatched);
      }
      var reason := OptionalText(note);
      var outcome := ReconciliationOutcome(
        path.reviewId, review.transactionId, review.firmId, review.clientId, review.matchRunId, review.selected,
        ctx.principal.membershipId, reason, session.Now());
      session.AddSettlement(outcome);
      Act(ctx, path, review.(status := ReviewMatched), MatchApproved, review.selected, reason);
      :- session.CommitOrRaise(ReconciliationTerminalConflict);
      return Ok(outcome);
    }

    method MarkUnmatched(ctx: Context, path: ReviewPath, reason: string)
      returns (result: Result<ReconciliationOutcome>)
      requires session.Clean()
      modifies session
      ensures result.Ok? ==> session.Clean()
      ensures var s := old(session.committed);
        var refused := MarkUnmatchedGuard(s, ctx, path, reason);
        Ended(s, session.committed, refused, if refused.Some? then s else MarkUnmatchedNext(s, ctx, path, reason),
              ReconciliationTerminalConflict, result.Raised())
      ensures result.Ok? ==> session.committed.settlements == old(session.committed).settlements + [result.value]
    {
      hide Constraints, HasSettlement, Strip;
      :- RequireReason(reason, UnmatchedReasonRequired);
      var review :- LockReviewContext(ctx, path);
      if IsTerminalReview(review.status) { return Err(ReconciliationReviewTerminal); }
      if HasSettlement(session.tables.settlements, path.reviewId) { return Err(ReconciliationOutcomeExists); }
      var outcome := ReconciliationOutcome(
        path.reviewId, review.transactionId, review.firmId, review.clientId, review.matchRunId, None,
        ctx.principal.membershipId, Some(Strip(reason)), session.Now());
      session.AddSettlement(outcome);
      Act(ctx, path, review.(status := ReviewUnmatched), MarkedUnmatched, review.selected, Some(Strip(reason)));
      :- session.CommitOrRaise(ReconciliationTerminalConflict);
      return Ok(outcome);
    }
  }
}
