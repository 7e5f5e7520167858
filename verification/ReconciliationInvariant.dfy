/** What every reachable state keeps about bank transactions, match runs, reconciliation
    reviews and their outcomes. */
module ReconciliationInvariant {
  import opened Prelude
  import opened Text
  import opened Engine
  import opened Matching
  import opened Store
  import opened Targets
  import opened EvidenceCalls
  import opened ReconciliationCalls
  import opened EvidenceInvariant
  import opened ReviewInvariant
  import opened Evolution
  import opened ReconciliationLog

  // ----- transactions

  predicate ValidRow(batches: seq<BatchRecord>, t: TransactionRecord) {
    t.batchId < |batches| && ValidTransaction(t.value) && Stripped(t.value.sourceId) &&
    t.value.firmId == batches[t.batchId].firmId && t.value.clientId == batches[t.batchId].clientId &&
    t.provider == batches[t.batchId].provider && t.account == batches[t.batchId].account &&
    batches[t.batchId].periodStart <= t.value.bookingDate <= batches[t.batchId].periodEnd
  }

  ghost predicate TransactionsInv(batches: seq<BatchRecord>, transactions: seq<TransactionRecord>) {
    BatchesPersist(batches) && TransactionsPersist(transactions) &&
    forall i | 0 <= i < |transactions| :: ValidRow(batches, transactions[i])
  }

  // ----- match runs

  /** A candidate is the current projection of an approved outcome, scored for the transaction. */
  ghost predicate FaithfulCandidate(lexicon: Lexicon, s: Store, t: BankTransaction, c: Candidate) {
    c.target.outcomeId < |s.outcomes| && s.outcomes[c.target.outcomeId].IsApproval() &&
    ProjectNow(lexicon, s, c.target.outcomeId) == Some(c.target) &&
    ScoreTarget(DEFAULT_POLICY, t, c.target) == Some(c)
  }

  ghost predicate ValidRun(lexicon: Lexicon, s: Store, run: MatchRun) {
    run.transactionId < |s.transactions| &&
    run.firmId == s.transactions[run.transactionId].value.firmId &&
    run.clientId == s.transactions[run.transactionId].value.clientId &&
    StrictlySorted(run.result.candidates) && DistinctCandidates(run.result.candidates) &&
    forall i | 0 <= i < |run.result.candidates| ::
      FaithfulCandidate(lexicon, s, s.transactions[run.transactionId].value, run.result.candidates[i])
  }

  ghost predicate MatchRunsInv(lexicon: Lexicon, s: Store) {
    forall k | 0 <= k < |s.matchRuns| :: ValidRun(lexicon, s, s.matchRuns[k])
  }

  /** The constraints on stored candidates never fire. */
  lemma RunStorable(lexicon: Lexicon, s: Store, run: MatchRun)
    requires ValidRun(lexicon, s, run) && TransactionsInv(s.batches, s.transactions)
    ensures MatchRunPersists(run)
  {
    hide ProjectNow, ScoreTarget, TransactionsPersist, BatchesPersist;
    var t := s.transactions[run.transactionId].value;
    assert ValidRow(s.batches, s.transactions[run.transactionId]);
    forall i | 0 <= i < |run.result.candidates|
      ensures CandidatePersists(run.result.candidates[i])
    {
      var c := run.result.candidates[i];
      assert FaithfulCandidate(lexicon, s, t, c);
      ProjectionFields(lexicon, s, c.target.outcomeId);
      ScoreIsUnit(DEFAULT_POLICY, t, c.target);
      CandidateCurrency(t, c.target);
    }
  }

  lemma CandidateCurrency(t: BankTransaction, target: Target)
    requires ScoreTarget(DEFAULT_POLICY, t, target).Some? && ValidTransaction(t)
    requires NormalizedCurrency(target.currency) == target.currency
    ensures |target.currency| == 3
  {
    hide RawScore, Reasons, Strip;
  }

  // ----- reviews, actions and settlements

  predicate ValidReview(transactions: seq<TransactionRecord>, runs: seq<MatchRun>, r: ReconciliationReview) {
    r.transactionId < |transactions| && r.matchRunId < |runs| &&
    runs[r.matchRunId].transactionId == r.transactionId &&
    r.firmId == runs[r.matchRunId].firmId && r.clientId == runs[r.matchRunId].clientId &&
    (r.selected.Some? ==> HasCandidate(runs[r.matchRunId].result.candidates, r.selected.value))
  }

  predicate ActionsReplay(actions: seq<ReviewAction>, r: ReconciliationReview, reviewId: Id) {
    LegalActions(ActionsFor(actions, reviewId)) &&
    ReplayActions(ActionsFor(actions, reviewId)) == ReviewView(r.status, r.selected)
  }

  predicate ValidAction(reviews: seq<ReconciliationReview>, a: ReviewAction) {
    a.reviewId < |reviews| && (a.reason.Some? ==> a.reason.value != "")
  }

  /** A settlement repeats its review: matched to the review's selection, or unmatched. */
  predicate ValidSettlement(reviews: seq<ReconciliationReview>, x: ReconciliationOutcome) {
    x.reviewId < |reviews| &&
    var r := reviews[x.reviewId];
    x.transactionId == r.transactionId && x.firmId == r.firmId && x.clientId == r.clientId &&
    x.matchRunId == r.matchRunId &&
    if x.matched.Some? then r.status == ReviewMatched && r.selected == x.matched
    else r.status == ReviewUnmatched && x.reason.Some? && x.reason.value != ""
  }

  ghost predicate ReviewsInv(s: Store) {
    (forall i | 0 <= i < |s.reviews| :: ValidReview(s.transactions, s.matchRuns, s.reviews[i])) &&
    (forall i | 0 <= i < |s.reviews| :: ActionsReplay(s.actions, s.reviews[i], i)) &&
    (forall i | 0 <= i < |s.reviews| :: IsTerminalReview(s.reviews[i].status) ==> HasSettlement(s.settlements, i)) &&
    ReviewsPersist(s.reviews) &&
    (forall k | 0 <= k < |s.actions| :: ValidAction(s.reviews, s.actions[k])) &&
    (forall k | 0 <= k < |s.settlements| :: ValidSettlement(s.reviews, s.settlements[k])) &&
    SettlementsPersist(s.settlements)
  }

  ghost predicate ReconciliationInv(lexicon: Lexicon, s: Store) {
    TransactionsInv(s.batches, s.transactions) && MatchRunsInv(lexicon, s) && ReviewsInv(s)
  }

  // ----- calls on other tables

  lemma FaithfulStays(policy: Policy, s: Store, next: Store, run: MatchRun)
    requires EvidenceInv(policy, s) && ReviewInv(s) && Evolves(s, next)
    requires ValidRun(policy.lexicon, s, run)
    ensures ValidRun(policy.lexicon, next, run)
  {
    hide EvidenceInv, ReviewInv, Evolves, ScoreTarget, Project, ProjectNow, IsTerminalReview;
    assert s.transactions <= next.transactions && s.outcomes <= next.outcomes by { GrowsTables(s, next); }
    forall i | 0 <= i < |run.result.candidates|
      ensures FaithfulCandidate(policy.lexicon, next, next.transactions[run.transactionId].value,
                                run.result.candidates[i])
    {
      var c := run.result.candidates[i];
      assert FaithfulCandidate(policy.lexicon, s, s.transactions[run.transactionId].value, c);
      ProjectionFrozen(policy, s, next, c.target.outcomeId);
    }
  }

  lemma GrowsTables(s: Store, next: Store)
    requires Evolves(s, next)
    ensures s.transactions <= next.transactions && s.outcomes <= next.outcomes && s.matchRuns <= next.matchRuns
  {
  }

  lemma RunsStay(policy: Policy, s: Store, next: Store)
    requires EvidenceInv(policy, s) && ReviewInv(s) && Evolves(s, next) && MatchRunsInv(policy.lexicon, s)
    ensures forall k | 0 <= k < |s.matchRuns| :: ValidRun(policy.lexicon, next, s.matchRuns[k])
  {
    hide EvidenceInv, ReviewInv, Evolves, ValidRun;
    forall k | 0 <= k < |s.matchRuns|
      ensures ValidRun(policy.lexicon, next, s.matchRuns[k])
    {
      FaithfulStays(policy, s, next, s.matchRuns[k]);
    }
  }

  /** A call that leaves the reconciliation tables alone. */
  lemma ElsewhereKeepsReconciliation(policy: Policy, s: Store, next: Store)
    requires EvidenceInv(policy, s) && ReviewInv(s) && Evolves(s, next) && ReconciliationInv(policy.lexicon, s)
    requires next.batches == s.batches && next.transactions == s.transactions && next.matchRuns == s.matchRuns
    requires next.reviews == s.reviews && next.actions == s.actions && next.settlements == s.settlements
    ensures ReconciliationInv(policy.lexicon, next)
  {
    hide EvidenceInv, ReviewInv, Evolves, ValidRun, LegalActions, TransactionsInv;
    RunsStay(policy, s, next);
  }

  // ----- persist_import_batch

  lemma StoredIsValid(t: BankTransaction)
    requires ValidTransaction(t)
    ensures ValidTransaction(Stored(t))
  {
    StripIsStripped(t.sourceId);
    StripIsStripped(t.description);
    CurrencyAgrees(Strip(t.currency));
  }

  lemma RowValid(b: ImportBatch, batches: seq<BatchRecord>, i: nat, now: nat)
    requires ValidBatch(b) && i < |b.transactions|
    ensures ValidRow(batches + [BatchRow(b)], TransactionRow(b, |batches|, b.transactions[i], now))
  {
    hide Strip, Stripped;
    StoredIsValid(b.transactions[i]);
    StripIsStripped(b.transactions[i].sourceId);
  }

  lemma {:induction false} RowsAre(b: ImportBatch, batchId: Id, n: nat, now: nat)
    requires n <= |b.transactions|
    ensures var rows := TransactionRows(b, batchId, b.transactions[..n], now);
      && |rows| == n
      && forall k | 0 <= k < n :: rows[k] == TransactionRow(b, batchId, b.transactions[k], now)
  {
    hide TransactionRow;
    if n > 0 {
      RowsAre(b, batchId, n - 1, now);
      assert b.transactions[..n][..n - 1] == b.transactions[..n - 1];
    }
  }

  lemma ImportKeeps(policy: Policy, s: Store, b: ImportBatch)
    requires EvidenceInv(policy, s) && ReviewInv(s) && ReconciliationInv(policy.lexicon, s)
    requires ValidBatch(b) && ImportNext(s, b) != s
    requires var next := ImportNext(s, b); Evolves(s, next) && Constraints(next)
    ensures ReconciliationInv(policy.lexicon, ImportNext(s, b))
  {
    hide EvidenceInv, ReviewInv, ValidRun, LegalActions, ValidBatch, TransactionRows, TransactionRow, ValidTransaction;
    var next := ImportNext(s, b);
    RunsStay(policy, s, next);
    assert b.transactions[..|b.transactions|] == b.transactions;
    RowsAre(b, |s.batches|, |b.transactions|, s.clock + 1);
    forall i | 0 <= i < |next.transactions|
      ensures ValidRow(next.batches, next.transactions[i])
    {
      if i < |s.transactions| {
        assert ValidRow(s.batches, s.transactions[i]);
      } else {
        RowValid(b, s.batches, i - |s.transactions|, s.clock + 1);
      }
    }
    forall i | 0 <= i < |s.reviews|
      ensures ValidReview(next.transactions, next.matchRuns, s.reviews[i])
    {
      assert ValidReview(s.transactions, s.matchRuns, s.reviews[i]);
    }
  }

  // ----- generate_match_run

  lemma {:induction false} TargetsProject(lexicon: Lexicon, s: Store, firmId: Id, clientId: Id, n: nat)
    requires n <= |s.outcomes|
    ensures var targets := TargetsAmong(lexicon, s, firmId, clientId, n);
      && DistinctOutcomes(targets)
      && (forall i | 0 <= i < |targets| ::
        targets[i].outcomeId < n && IsClientApproval(s.outcomes[targets[i].outcomeId], firmId, clientId) &&
        ProjectNow(lexicon, s, targets[i].outcomeId) == Some(targets[i]))
  {
    hide ProjectNow, IsClientApproval;
    if n > 0 {
      TargetsProject(lexicon, s, firmId, clientId, n - 1);
      ProjectsOutcome(lexicon, s, n - 1);
      var front, target := TargetsAmong(lexicon, s, firmId, clientId, n - 1), ProjectNow(lexicon, s, n - 1);
      var targets := TargetsAmong(lexicon, s, firmId, clientId, n);
      if targets == front + [] {
        assert targets == front;
      } else {
        assert targets == front + [target.value];
      }
    }
  }

  lemma ProjectsOutcome(lexicon: Lexicon, s: Store, outcomeId: Id)
    requires outcomeId < |s.outcomes|
    ensures var target := ProjectNow(lexicon, s, outcomeId);
      target.Some? ==> target.value.outcomeId == outcomeId && target.value.firmId == s.outcomes[outcomeId].firmId &&
                       target.value.clientId == s.outcomes[outcomeId].clientId
  {
  }

  lemma GeneratedRunValid(lexicon: Lexicon, s: Store, ctx: Context, clientId: Id, transactionId: Id)
    requires GenerateMatchGuard(s, ctx, clientId, transactionId).None?
    ensures ValidRun(lexicon, s, GenerateMatchNext(lexicon, s, ctx, clientId, transactionId).matchRuns[|s.matchRuns|])
  {
    hide ProjectNow, ScoreTarget, Sort, Scored, TargetsAmong;
    var t := s.transactions[transactionId].value;
    var targets := ApprovedTargets(lexicon, s, ctx.principal.firmId, clientId);
    TargetsProject(lexicon, s, ctx.principal.firmId, clientId, |s.outcomes|);
    MatchIsSound(DEFAULT_POLICY, t, targets);
    var candidates := MatchTargets(DEFAULT_POLICY, t, targets).candidates;
    forall i | 0 <= i < |candidates|
      ensures FaithfulCandidate(lexicon, s, t, candidates[i])
    {
      assert candidates[i] in candidates;
      assert candidates[i].target in targets;
    }
    SortedDistinct(lexicon, s, t, candidates, targets);
  }

  lemma SortedDistinct(lexicon: Lexicon, s: Store, t: BankTransaction, candidates: seq<Candidate>, targets: seq<Target>)
    requires StrictlySorted(candidates)
    requires forall i | 0 <= i < |candidates| :: FaithfulCandidate(lexicon, s, t, candidates[i])
    ensures DistinctCandidates(candidates)
  {
    hide ProjectNow, ScoreTarget;
    forall i, j | 0 <= i < j < |candidates|
      ensures candidates[i].target.outcomeId != candidates[j].target.outcomeId
    {
      assert FaithfulCandidate(lexicon, s, t, candidates[i]) && FaithfulCandidate(lexicon, s, t, candidates[j]);
      assert Precedes(candidates[i], candidates[j]);
    }
  }

  lemma GenerateKeeps(policy: Policy, s: Store, ctx: Context, clientId: Id, transactionId: Id)
    requires EvidenceInv(policy, s) && ReviewInv(s) && ReconciliationInv(policy.lexicon, s)
    requires GenerateMatchGuard(s, ctx, clientId, transactionId).None?
    requires Evolves(s, GenerateMatchNext(policy.lexicon, s, ctx, clientId, transactionId))
    ensures ReconciliationInv(policy.lexicon, GenerateMatchNext(policy.lexicon, s, ctx, clientId, transactionId))
  {
    hide EvidenceInv, ReviewInv, Evolves, ValidRun, LegalActions, TransactionsInv, MatchTargets, TargetsAmong;
    var next := GenerateMatchNext(policy.lexicon, s, ctx, clientId, transactionId);
    RunsStay(policy, s, next);
    GeneratedRunValid(policy.lexicon, s, ctx, clientId, transactionId);
    FaithfulStays(policy, s, next, next.matchRuns[|s.matchRuns|]);
    forall i | 0 <= i < |s.reviews|
      ensures ValidReview(next.transactions, next.matchRuns, s.reviews[i])
    {
      assert ValidReview(s.transactions, s.matchRuns, s.reviews[i]);
    }
  }

  // ----- create_review

  lemma CreateReviewKeeps(policy: Policy, s: Store, ctx: Context, clientId: Id, transactionId: Id, runId: Id)
    requires EvidenceInv(policy, s) && ReviewInv(s) && ReconciliationInv(policy.lexicon, s)
    requires CreateReviewGuard(s, ctx, clientId, transactionId, runId).None?
    requires Evolves(s, CreateReviewNext(s, ctx, clientId, transactionId, runId))
    ensures ReconciliationInv(policy.lexicon, CreateReviewNext(s, ctx, clientId, transactionId, runId))
  {
    hide EvidenceInv, ReviewInv, Evolves, ValidRun, TransactionsInv;
    var next := CreateReviewNext(s, ctx, clientId, transactionId, runId);
    var n := |s.reviews|;
    RunsStay(policy, s, next);
    forall k | 0 <= k < |s.actions|
      ensures ValidAction(next.reviews, s.actions[k]) && s.actions[k].reviewId != n
    {
      assert ValidAction(s.reviews, s.actions[k]);
    }
    NoActions(s.actions, n);
    hide LegalActions, ReplayActions;
    assert LegalActions([]) && ReplayActions([]) == NEW_REVIEW by { EmptyLog(); }
    forall i | 0 <= i < |next.reviews|
      ensures ValidReview(s.transactions, s.matchRuns, next.reviews[i]) && ActionsReplay(s.actions, next.reviews[i], i)
      ensures IsTerminalReview(next.reviews[i].status) ==> HasSettlement(s.settlements, i)
    {
      if i < n {
        assert ValidReview(s.transactions, s.matchRuns, s.reviews[i]) && ActionsReplay(s.actions, s.reviews[i], i);
      }
    }
    forall k | 0 <= k < |s.settlements|
      ensures ValidSettlement(next.reviews, s.settlements[k])
    {
      assert ValidSettlement(s.reviews, s.settlements[k]);
    }
  }

  lemma EmptyLog()
    ensures LegalActions([]) && ReplayActions([]) == NEW_REVIEW
  {
  }

  // ----- actions on a review

  lemma SettlementTerminal(s: Store, reviewId: Id)
    requires ReviewsInv(s) && reviewId < |s.reviews|
    ensures IsTerminalReview(s.reviews[reviewId].status) <==> HasSettlement(s.settlements, reviewId)
  {
    if HasSettlement(s.settlements, reviewId) {
      var k :| 0 <= k < |s.settlements| && s.settlements[k].reviewId == reviewId;
      assert ValidSettlement(s.reviews, s.settlements[k]);
    }
  }

  /** An action on a live review that moves the row exactly as replaying it does. */
  lemma ActionKeeps(policy: Policy, s: Store, next: Store, id: Id, a: ReviewAction, r: ReconciliationReview)
    requires EvidenceInv(policy, s) && ReviewInv(s) && ReconciliationInv(policy.lexicon, s) && Evolves(s, next)
    requires id < |s.reviews| && !IsTerminalReview(s.reviews[id].status)
    requires ValidReview(s.transactions, s.matchRuns, r) && r.transactionId == s.reviews[id].transactionId
    requires a.reviewId == id && (a.reason.Some? ==> a.reason.value != "")
    requires var view := ReviewView(s.reviews[id].status, s.reviews[id].selected);
      MayAct(view, a) && AfterAction(view, a) == ReviewView(r.status, r.selected)
    requires next.batches == s.batches && next.transactions == s.transactions && next.matchRuns == s.matchRuns
    requires next.reviews == s.reviews[id := r] && next.actions == s.actions + [a]
    requires SettlesReview(s, next, id, r)
    ensures ReconciliationInv(policy.lexicon, next)
  {
    hide EvidenceInv, ReviewInv, Evolves, ValidRun, TransactionsInv, MayAct, AfterAction, LegalActions, ReplayActions;
    RunsStay(policy, s, next);
    SettlementTerminal(s, id);
    forall i | 0 <= i < |next.reviews|
      ensures ValidReview(s.transactions, s.matchRuns, next.reviews[i])
      ensures ActionsReplay(next.actions, next.reviews[i], i)
      ensures IsTerminalReview(next.reviews[i].status) ==> HasSettlement(next.settlements, i)
    {
      assert ValidReview(s.transactions, s.matchRuns, s.reviews[i]) && ActionsReplay(s.actions, s.reviews[i], i);
      ActionsAppend(s.actions, a, i);
      ActionAppend(ActionsFor(s.actions, i), a);
      if i != id && IsTerminalReview(s.reviews[i].status) {
        var k :| 0 <= k < |s.settlements| && s.settlements[k].reviewId == i;
        assert next.settlements[k].reviewId == i;
      }
    }
    forall i, j | 0 <= i < j < |next.reviews|
      ensures next.reviews[i].transactionId != next.reviews[j].transactionId
    {
      assert s.reviews[i].transactionId != s.reviews[j].transactionId;
    }
    forall k | 0 <= k < |next.actions|
      ensures ValidAction(next.reviews, next.actions[k])
    {
      assert k < |s.actions| ==> ValidAction(s.reviews, s.actions[k]);
    }
    SettlementsStay(s, next, id, r);
  }

  /** Either nothing is settled and the review stays live, or it is settled as it now stands. */
  ghost predicate SettlesReview(s: Store, next: Store, id: Id, r: ReconciliationReview) {
    if !IsTerminalReview(r.status) then next.settlements == s.settlements
    else
      |next.settlements| == |s.settlements| + 1 && s.settlements <= next.settlements &&
      var x := next.settlements[|s.settlements|];
      x.reviewId == id && ValidSettlement(next.reviews, x) &&
      (x.matched.Some? ==> !IsAlreadyMatched(s.settlements, x.firmId, x.clientId, x.matched.value))
  }

  lemma SettlementsStay(s: Store, next: Store, id: Id, r: ReconciliationReview)
    requires ReviewsInv(s) && id < |s.reviews| && !HasSettlement(s.settlements, id)
    requires next.reviews == s.reviews[id := r] && r.transactionId == s.reviews[id].transactionId
    requires SettlesReview(s, next, id, r)
    ensures forall k | 0 <= k < |next.settlements| :: ValidSettlement(next.reviews, next.settlements[k])
    ensures SettlementsPersist(next.settlements)
    ensures IsTerminalReview(r.status) ==> HasSettlement(next.settlements, id)
  {
    hide ActionsReplay, ValidAction, ValidReview;
    var n := |s.settlements|;
    forall k | 0 <= k < n
      ensures ValidSettlement(next.reviews, s.settlements[k]) && s.settlements[k].reviewId != id
    {
      assert ValidSettlement(s.reviews, s.settlements[k]);
    }
    if IsTerminalReview(r.status) {
      var x := next.settlements[n];
      assert next.settlements == s.settlements + [x];
      forall k | 0 <= k < n
        ensures s.settlements[k].transactionId != x.transactionId && !SameMatch(s.settlements[k], x)
      {
        assert ValidSettlement(s.reviews, s.settlements[k]);
        if x.matched.Some? {
          assert !Settles(s.settlements[k], x.firmId, x.clientId, x.matched.value);
        }
      }
    }
  }

  // ----- the review calls

  lemma SelectKeeps(policy: Policy, s: Store, ctx: Context, path: ReviewPath, outcomeId: Id)
    requires EvidenceInv(policy, s) && ReviewInv(s) && ReconciliationInv(policy.lexicon, s)
    requires SelectGuard(s, ctx, path, outcomeId).None? && Evolves(s, SelectNext(s, ctx, path, outcomeId))
    ensures ReconciliationInv(policy.lexicon, SelectNext(s, ctx, path, outcomeId))
  {
    hide EvidenceInv, ReviewInv, Evolves, ValidRun, TransactionsInv, LegalActions, SettlementsPersist;
    var next := SelectNext(s, ctx, path, outcomeId);
    assert ValidReview(s.transactions, s.matchRuns, s.reviews[path.reviewId]);
    ActionKeeps(policy, s, next, path.reviewId, next.actions[|s.actions|], next.reviews[path.reviewId]);
  }

  lemma DisputeKeeps(policy: Policy, s: Store, ctx: Context, path: ReviewPath, reason: string)
    requires EvidenceInv(policy, s) && ReviewInv(s) && ReconciliationInv(policy.lexicon, s)
    requires DisputeGuard(s, ctx, path, reason).None? && Evolves(s, DisputeNext(s, ctx, path, reason))
    ensures ReconciliationInv(policy.lexicon, DisputeNext(s, ctx, path, reason))
  {
    hide EvidenceInv, ReviewInv, Evolves, ValidRun, TransactionsInv, LegalActions, SettlementsPersist;
    var next := DisputeNext(s, ctx, path, reason);
    assert ValidReview(s.transactions, s.matchRuns, s.reviews[path.reviewId]);
    ActionKeeps(policy, s, next, path.reviewId, next.actions[|s.actions|], next.reviews[path.reviewId]);
  }

  lemma ReopenKeeps(policy: Policy, s: Store, ctx: Context, path: ReviewPath, reason: string)
    requires EvidenceInv(policy, s) && ReviewInv(s) && ReconciliationInv(policy.lexicon, s)
    requires ReopenGuard(s, ctx, path, reason).None? && Evolves(s, ReopenNext(s, ctx, path, reason))
    ensures ReconciliationInv(policy.lexicon, ReopenNext(s, ctx, path, reason))
  {
    hide EvidenceInv, ReviewInv, Evolves, ValidRun, TransactionsInv, LegalActions, SettlementsPersist;
    var next := ReopenNext(s, ctx, path, reason);
    assert ValidReview(s.transactions, s.matchRuns, s.reviews[path.reviewId]);
    ActionKeeps(policy, s, next, path.reviewId, next.actions[|s.actions|], next.reviews[path.reviewId]);
  }

  lemma ApproveMatchKeeps(policy: Policy, s: Store, ctx: Context, path: ReviewPath, note: Option<string>)
    requires EvidenceInv(policy, s) && ReviewInv(s) && ReconciliationInv(policy.lexicon, s)
    requires ApproveMatchGuard(s, ctx, path).None? && Evolves(s, ApproveMatchNext(s, ctx, path, note))
    ensures ReconciliationInv(policy.lexicon, ApproveMatchNext(s, ctx, path, note))
  {
    hide EvidenceInv, ReviewInv, Evolves, ValidRun, TransactionsInv, LegalActions, SettlementsPersist;
    var next := ApproveMatchNext(s, ctx, path, note);
    assert ValidReview(s.transactions, s.matchRuns, s.reviews[path.reviewId]);
    ActionKeeps(policy, s, next, path.reviewId, next.actions[|s.actions|], next.reviews[path.reviewId]);
  }

  lemma MarkUnmatchedKeeps(policy: Policy, s: Store, ctx: Context, path: ReviewPath, reason: string)
    requires EvidenceInv(policy, s) && ReviewInv(s) && ReconciliationInv(policy.lexicon, s)
    requires MarkUnmatchedGuard(s, ctx, path, reason).None? && Evolves(s, MarkUnmatchedNext(s, ctx, path, reason))
    ensures ReconciliationInv(policy.lexicon, MarkUnmatchedNext(s, ctx, path, reason))
  {
    hide EvidenceInv, ReviewInv, Evolves, ValidRun, TransactionsInv, LegalActions, SettlementsPersist;
    var next := MarkUnmatchedNext(s, ctx, path, reason);
    assert ValidReview(s.transactions, s.matchRuns, s.reviews[path.reviewId]);
    ActionKeeps(policy, s, next, path.reviewId, next.actions[|s.actions|], next.reviews[path.reviewId]);
  }
}
