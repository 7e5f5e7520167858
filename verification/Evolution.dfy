/** How the tables may change over a run: logs only grow, approved evidence stays. */
module Evolution {
  import opened Prelude
  import opened EffectiveValues
  import opened Engine
  import opened ReviewPolicy
  import opened Store
  import opened Targets
  import opened ReconciliationCalls
  import opened EvidenceInvariant
  import opened ReviewInvariant

  /** A task keeps its subject and risk, keeps its owner but for one hand-over to a senior,
      and never changes again once terminal. */
  predicate TaskEvolves(t: ReviewTask, u: ReviewTask) {
    SameSubject(t, u) && t.createdBy == u.createdBy && (IsTerminal(t.status) ==> u == t) &&
    (u.escalation == NotEscalated ==> t.escalation == NotEscalated && u.owner == t.owner) &&
    (t.escalation == SeniorReview ==>
       u.escalation == SeniorReview && u.owner == t.owner && u.escalatedAt == t.escalatedAt)
  }

  predicate ReviewEvolves(r: ReconciliationReview, q: ReconciliationReview) {
    r.transactionId == q.transactionId && r.firmId == q.firmId && r.clientId == q.clientId &&
    r.matchRunId == q.matchRunId && (IsTerminalReview(r.status) ==> q == r)
  }

  ghost predicate TasksEvolve(before: seq<ReviewTask>, next: seq<ReviewTask>) {
    |before| <= |next| && forall i | 0 <= i < |before| :: TaskEvolves(before[i], next[i])
  }

  ghost predicate ReviewsEvolve(before: seq<ReconciliationReview>, next: seq<ReconciliationReview>) {
    |before| <= |next| && forall i | 0 <= i < |before| :: ReviewEvolves(before[i], next[i])
  }

  /** No correction reaches an extraction run that carries an approval. */
  ghost predicate ApprovedFrozen(outcomes: seq<ReviewOutcome>, before: seq<Correction>, next: seq<Correction>) {
    before <= next &&
    forall k | |before| <= k < |next| :: !HasApprovedOutcome(outcomes, next[k].runId)
  }

  /** No match run is added for a transaction under review. */
  ghost predicate MatchesFrozen(reviews: seq<ReconciliationReview>, before: seq<MatchRun>, next: seq<MatchRun>) {
    before <= next &&
    forall k | |before| <= k < |next| :: !HasReviewFor(reviews, next[k].transactionId)
  }

  /** No transaction is added to an existing batch. */
  ghost predicate BatchesClosed(
      batches: seq<BatchRecord>, before: seq<TransactionRecord>, next: seq<TransactionRecord>)
  {
    before <= next &&
    forall k | |before| <= k < |next| :: next[k].batchId >= |batches|
  }

  ghost predicate Evolves(s: Store, next: Store) {
    s.clock <= next.clock && s.extractions <= next.extractions && s.decisions <= next.decisions &&
    s.comments <= next.comments && s.outcomes <= next.outcomes && s.batches <= next.batches &&
    s.actions <= next.actions && s.settlements <= next.settlements &&
    TasksEvolve(s.tasks, next.tasks) && ReviewsEvolve(s.reviews, next.reviews) &&
    ApprovedFrozen(s.outcomes, s.corrections, next.corrections) &&
    MatchesFrozen(s.reviews, s.matchRuns, next.matchRuns) &&
    BatchesClosed(s.batches, s.transactions, next.transactions)
  }

  lemma EvolvesReflexive(s: Store)
    ensures Evolves(s, s)
  {
  }

  lemma ApprovedOutcomeStays(outcomes: seq<ReviewOutcome>, grown: seq<ReviewOutcome>, runId: Id)
    requires outcomes <= grown && HasApprovedOutcome(outcomes, runId)
    ensures HasApprovedOutcome(grown, runId)
  {
    var k :| 0 <= k < |outcomes| && IsApprovalOf(outcomes[k], runId);
    assert IsApprovalOf(grown[k], runId);
  }

  lemma ReviewStays(reviews: seq<ReconciliationReview>, grown: seq<ReconciliationReview>, transactionId: Id)
    requires ReviewsEvolve(reviews, grown) && HasReviewFor(reviews, transactionId)
    ensures HasReviewFor(grown, transactionId)
  {
    var k :| 0 <= k < |reviews| && reviews[k].transactionId == transactionId;
    assert ReviewEvolves(reviews[k], grown[k]);
  }

  lemma EvolvesTransitive(s: Store, mid: Store, next: Store)
    requires Evolves(s, mid) && Evolves(mid, next)
    ensures Evolves(s, next)
  {
    forall i | 0 <= i < |s.tasks|
      ensures TaskEvolves(s.tasks[i], next.tasks[i])
    {
      assert TaskEvolves(s.tasks[i], mid.tasks[i]) && TaskEvolves(mid.tasks[i], next.tasks[i]);
    }
    forall i | 0 <= i < |s.reviews|
      ensures ReviewEvolves(s.reviews[i], next.reviews[i])
    {
      assert ReviewEvolves(s.reviews[i], mid.reviews[i]) && ReviewEvolves(mid.reviews[i], next.reviews[i]);
    }
    forall k | |s.corrections| <= k < |next.corrections|
      ensures !HasApprovedOutcome(s.outcomes, next.corrections[k].runId)
    {
      if k < |mid.corrections| {
        assert next.corrections[k] == mid.corrections[k];
      } else if HasApprovedOutcome(s.outcomes, next.corrections[k].runId) {
        ApprovedOutcomeStays(s.outcomes, mid.outcomes, next.corrections[k].runId);
      }
    }
    forall k | |s.matchRuns| <= k < |next.matchRuns|
      ensures !HasReviewFor(s.reviews, next.matchRuns[k].transactionId)
    {
      if k < |mid.matchRuns| {
        assert next.matchRuns[k] == mid.matchRuns[k];
      } else if HasReviewFor(s.reviews, next.matchRuns[k].transactionId) {
        ReviewStays(s.reviews, mid.reviews, next.matchRuns[k].transactionId);
      }
    }
    forall k | |s.transactions| <= k < |next.transactions|
      ensures next.transactions[k].batchId >= |s.batches|
    {
      if k < |mid.transactions| {
        assert next.transactions[k] == mid.transactions[k];
      }
    }
  }

  // ----- what freezing keeps

  lemma {:induction false} FrozenCorrections(before: seq<Correction>, next: seq<Correction>, runId: Id)
    requires before <= next
    requires forall k | |before| <= k < |next| :: next[k].runId != runId
    ensures CorrectionsFor(next, runId) == CorrectionsFor(before, runId)
    decreases |next|
  {
    if next == before {
    } else {
      FrozenCorrections(before, next[..|next| - 1], runId);
    }
  }

  /** The effective values under an approval are the same in every later state. */
  lemma ApprovedValuesFrozen(s: Store, next: Store, k: nat)
    requires Evolves(s, next) && k < |s.outcomes| && s.outcomes[k].IsApproval()
    requires s.outcomes[k].extractionRunId < |s.extractions|
    ensures var runId := s.outcomes[k].extractionRunId;
      && CorrectionsFor(next.corrections, runId) == CorrectionsFor(s.corrections, runId)
      && EffectiveNow(next.extractions, next.corrections, runId) ==
         EffectiveNow(s.extractions, s.corrections, runId)
  {
    var runId := s.outcomes[k].extractionRunId;
    assert IsApprovalOf(s.outcomes[k], runId);
    forall i | |s.corrections| <= i < |next.corrections|
      ensures next.corrections[i].runId != runId
    {
      assert !HasApprovedOutcome(s.outcomes, next.corrections[i].runId);
    }
    FrozenCorrections(s.corrections, next.corrections, runId);
  }

  /** An outcome's scope is its decision's, whose extraction run exists. */
  lemma OutcomeInScope(policy: Policy, s: Store, k: nat)
    requires EvidenceInv(policy, s) && ReviewInv(s) && k < |s.outcomes|
    ensures var o := s.outcomes[k];
      && o.decisionRunId < |s.decisions| && o.extractionRunId < |s.extractions|
      && s.decisions[o.decisionRunId].Succeeded()
      && s.decisions[o.decisionRunId].extractionRunId == o.extractionRunId
      && s.decisions[o.decisionRunId].documentId == o.documentId
      && s.decisions[o.decisionRunId].firmId == o.firmId && s.decisions[o.decisionRunId].clientId == o.clientId
  {
    hide ClassifyReviewRisk, Reproducible, LogReplays, SoundApproval;
    var o := s.outcomes[k];
    assert ValidOutcome(s.corrections, s.decisions, s.tasks, o);
    assert ValidTask(s.decisions, s.tasks[o.taskId]);
    assert ValidDecision(s.extractions, s.clock, s.decisions[o.decisionRunId]);
  }

  /** An approved outcome projects to the same target in every later state. */
  lemma ProjectionFrozen(policy: Policy, s: Store, next: Store, k: nat)
    requires EvidenceInv(policy, s) && ReviewInv(s) && Evolves(s, next)
    requires k < |s.outcomes| && s.outcomes[k].IsApproval()
    ensures ProjectNow(policy.lexicon, next, k) == ProjectNow(policy.lexicon, s, k)
  {
    OutcomeInScope(policy, s, k);
    ApprovedValuesFrozen(s, next, k);
  }
}
