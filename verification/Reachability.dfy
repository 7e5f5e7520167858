/** Every run keeps the invariants, and what one state establishes later states keep. */
module Reachability {
  import opened Prelude
  import opened Text
  import opened EffectiveValues
  import opened Engine
  import opened ReviewPolicy
  import opened Identity
  import opened Matching
  import opened Store
  import opened EvidenceCalls
  import opened ReviewCalls
  import opened ReconciliationCalls
  import opened EvidenceInvariant
  import opened ReviewInvariant
  import opened Evolution
  import opened ReconciliationInvariant
  import opened System

  ghost predicate Inv(policy: Policy, s: Store) {
    EvidenceInv(policy, s) && ReviewInv(s) && ReconciliationInv(policy.lexicon, s)
  }

  /** The tables after some sequence of calls from an empty database. */
  function Reached(policy: Policy, requests: seq<Request>): Store {
    Run(policy, EMPTY_STORE, requests)
  }

  // ----- how each call changes the tables

  lemma NextEvolves(policy: Policy, s: Store, r: Request)
    requires Inv(policy, s) && Guard(policy, s, r).None?
    ensures Evolves(s, Next(policy, s, r))
  {
    hide EvidenceInv, ReviewInv, ReconciliationInv, Evolves;
    if IsTaskCall(r.call) {
      TaskCallEvolves(policy, s, r);
    } else if IsReviewCall(r.call) {
      ReviewCallEvolves(policy, s, r);
    } else if r.call.Import? {
      ImportEvolves(policy, s, r.call.batch);
    } else {
      OtherCallEvolves(policy, s, r);
    }
  }

  /** Calls on an existing review task. */
  predicate IsTaskCall(call: Call) {
    call.Escalate? || call.AddComment? || call.RequestInformation? || call.Respond? || call.Approve? || call.Reject?
  }

  /** Calls on an existing reconciliation review. */
  predicate IsReviewCall(call: Call) {
    call.Select? || call.Dispute? || call.Reopen? || call.ApproveMatch? || call.MarkUnmatched?
  }

  lemma TaskCallEvolves(policy: Policy, s: Store, r: Request)
    requires ReviewInv(s) && Guard(policy, s, r).None? && IsTaskCall(r.call)
    ensures Evolves(s, Next(policy, s, r))
  {
    hide Evolves, Guard, ReviewInv, TaskEvolves, ClassifyReviewRisk, Strip;
    TaskCallMoves(policy, s, r);
    OneTaskEvolves(s, Next(policy, s, r), r.call.path.taskId);
  }

  lemma OneTaskEvolves(s: Store, next: Store, id: Id)
    requires id < |s.tasks| == |next.tasks| && TaskEvolves(s.tasks[id], next.tasks[id])
    requires next == s.(clock := next.clock, tasks := s.tasks[id := next.tasks[id]], comments := next.comments,
                        outcomes := next.outcomes)
    requires s.clock <= next.clock && s.comments <= next.comments && s.outcomes <= next.outcomes
    ensures Evolves(s, next)
  {
  }

  lemma TaskCallMoves(policy: Policy, s: Store, r: Request)
    requires ReviewInv(s) && Guard(policy, s, r).None? && IsTaskCall(r.call)
    ensures var id := r.call.path.taskId;
      id < |s.tasks| == |Next(policy, s, r).tasks| && TaskEvolves(s.tasks[id], Next(policy, s, r).tasks[id])
  {
    hide ClassifyReviewRisk, LogReplays, ValidOutcome, OutcomeOf, CommentsFor, IsStale, Strip, CanOwn;
    assert ValidTask(s.decisions, s.tasks[r.call.path.taskId]);
  }

  lemma ReviewCallEvolves(policy: Policy, s: Store, r: Request)
    requires Guard(policy, s, r).None? && IsReviewCall(r.call)
    ensures Evolves(s, Next(policy, s, r))
  {
    hide Strip, HasCandidate, HasSettlement, IsAlreadyMatched;
    var id := r.call.reviewPath.reviewId;
    var next := Next(policy, s, r);
    assert ReviewEvolves(s.reviews[id], next.reviews[id]);
  }

  lemma OtherCallEvolves(policy: Policy, s: Store, r: Request)
    requires Guard(policy, s, r).None?
    requires !IsTaskCall(r.call) && !IsReviewCall(r.call) && !r.call.Import?
    ensures Evolves(s, Next(policy, s, r))
  {
    hide Evolves, ClassifyReviewRisk, CorrectFieldGuard, CorrectFieldNext, GenerateMatchNext, Decide, EngineInputNow,
      CanOwn, UniquePaths, HasTaskFor;
    if r.call.CorrectField? {
      CorrectEvolves(policy.lexicon, s, r.ctx, r.call.fieldPath, r.call.request);
    } else if r.call.GenerateMatch? {
      GenerateEvolves(policy.lexicon, s, r.ctx, r.call.clientId, r.call.transactionId);
    } else {
      AppendEvolves(s, Next(policy, s, r));
    }
  }

  lemma CorrectEvolves(lexicon: Lexicon, s: Store, ctx: Context, path: FieldPath, request: CorrectionRequest)
    requires CorrectFieldGuard(lexicon, s, ctx, path, request).None?
    ensures Evolves(s, CorrectFieldNext(s, ctx, path, request))
  {
    hide Strip, NextRevision;
  }

  lemma GenerateEvolves(lexicon: Lexicon, s: Store, ctx: Context, clientId: Id, transactionId: Id)
    requires GenerateMatchGuard(s, ctx, clientId, transactionId).None?
    ensures Evolves(s, GenerateMatchNext(lexicon, s, ctx, clientId, transactionId))
  {
    hide Evolves, HasReviewFor, MatchTargets;
    var next := GenerateMatchNext(lexicon, s, ctx, clientId, transactionId);
    MatchRunEvolves(s, next, next.matchRuns[|s.matchRuns|]);
  }

  lemma MatchRunEvolves(s: Store, next: Store, run: MatchRun)
    requires next == s.(clock := next.clock, matchRuns := s.matchRuns + [run]) && s.clock <= next.clock
    requires !HasReviewFor(s.reviews, run.transactionId)
    ensures Evolves(s, next)
  {
    hide HasReviewFor;
  }

  lemma AppendEvolves(s: Store, next: Store)
    requires next == s.(clock := next.clock, extractions := next.extractions, decisions := next.decisions,
                        tasks := next.tasks, reviews := next.reviews)
    requires s.clock <= next.clock && s.extractions <= next.extractions && s.decisions <= next.decisions
    requires s.tasks <= next.tasks && s.reviews <= next.reviews
    ensures Evolves(s, next)
  {
  }

  lemma ImportEvolves(policy: Policy, s: Store, b: ImportBatch)
    ensures Evolves(s, ImportNext(s, b))
  {
    hide TransactionRow;
    var next := ImportNext(s, b);
    if FindBatch(s.batches, BatchRow(b)).None? {
      assert b.transactions[..|b.transactions|] == b.transactions;
      RowsAre(b, |s.batches|, |b.transactions|, s.clock + 1);
      forall k | |s.transactions| <= k < |next.transactions|
        ensures next.transactions[k].batchId >= |s.batches|
      {
        var i := k - |s.transactions|;
        assert next.transactions[k] == TransactionRow(b, |s.batches|, b.transactions[i], s.clock + 1);
        RowBatch(b, |s.batches|, b.transactions[i], s.clock + 1);
      }
    }
  }

  lemma RowBatch(b: ImportBatch, batchId: Id, t: BankTransaction, now: nat)
    ensures TransactionRow(b, batchId, t, now).batchId == batchId
  {
  }

  // ----- each call keeps the invariants

  lemma EvidenceKept(policy: Policy, s: Store, r: Request)
    requires Inv(policy, s) && Guard(policy, s, r).None?
    requires r.call.StartDecision? ==> DecisionsPersist(Next(policy, s, r).decisions)
    ensures EvidenceInv(policy, Next(policy, s, r))
  {
    hide EvidenceInv, ReviewInv, ReconciliationInv, Decide, EngineInputNow, MatchTargets, ClassifyReviewRisk,
      DecisionsPersist;
    var next := Next(policy, s, r);
    match r.call
    case RecordExtraction(_, _, _, _, _) => RecordKeepsEvidence(policy, s, next, next.extractions[|s.extractions|]);
    case CorrectField(_, _) => CorrectKeepsEvidence(policy, s, next, next.corrections[|s.corrections|]);
    case StartDecision(path, engineRaises) =>
      NewDecisionReproducible(policy, s, path, engineRaises);
      DecideKeepsEvidence(policy, s, next, next.decisions[|s.decisions|]);
    case _ => ClockKeepsEvidence(policy, s, next);
  }

  lemma ReviewKept(policy: Policy, s: Store, r: Request)
    requires Inv(policy, s) && Guard(policy, s, r).None?
    ensures ReviewInv(Next(policy, s, r))
  {
    hide EvidenceInv, ReviewInv, ReconciliationInv, Decide, EngineInputNow, MatchTargets;
    var next := Next(policy, s, r);
    match r.call
    case CorrectField(_, _) => CorrectKeepsReview(s, next, next.corrections[|s.corrections|]);
    case StartDecision(_, _) => DecideKeepsReview(s, next);
    case CreateTask(path, owner) => CreateTaskKeeps(s, r.ctx, path, owner);
    case Escalate(path, senior, reason) => EscalateKeeps(s, r.ctx, path, senior, reason);
    case AddComment(path, body) => AddCommentKeeps(s, r.ctx, path, body);
    case RequestInformation(path, body) => RequestInformationKeeps(s, r.ctx, path, body);
    case Respond(path, body) => RespondKeeps(s, r.ctx, path, body);
    case Approve(path, note) => ApproveKeeps(s, r.ctx, path, note);
    case Reject(path, reason) => RejectKeeps(s, r.ctx, path, reason);
    case _ => DecideKeepsReview(s, next);
  }

  lemma ReviewCallKept(policy: Policy, s: Store, r: Request)
    requires Inv(policy, s) && Guard(policy, s, r).None? && IsReviewCall(r.call)
    requires Evolves(s, Next(policy, s, r))
    ensures ReconciliationInv(policy.lexicon, Next(policy, s, r))
  {
    hide EvidenceInv, ReviewInv, ReconciliationInv, Evolves, SelectGuard, DisputeGuard, ReopenGuard,
      ApproveMatchGuard, MarkUnmatchedGuard;
    match r.call
    case Select(path, outcomeId) => SelectKeeps(policy, s, r.ctx, path, outcomeId);
    case Dispute(path, reason) => DisputeKeeps(policy, s, r.ctx, path, reason);
    case Reopen(path, reason) => ReopenKeeps(policy, s, r.ctx, path, reason);
    case ApproveMatch(path, note) => ApproveMatchKeeps(policy, s, r.ctx, path, note);
    case MarkUnmatched(path, reason) => MarkUnmatchedKeeps(policy, s, r.ctx, path, reason);
  }

  /** Calls that leave bank transactions, match runs and reconciliation reviews alone. */
  predicate IsElsewhere(call: Call) {
    IsTaskCall(call) || call.RecordExtraction? || call.CorrectField? || call.StartDecision? || call.CreateTask?
  }

  lemma ElsewhereKept(policy: Policy, s: Store, r: Request)
    requires Inv(policy, s) && Guard(policy, s, r).None? && IsElsewhere(r.call)
    requires Evolves(s, Next(policy, s, r))
    ensures ReconciliationInv(policy.lexicon, Next(policy, s, r))
  {
    hide EvidenceInv, ReviewInv, ReconciliationInv, Decide, EngineInputNow, Evolves, ClassifyReviewRisk, OptionalText;
    ElsewhereKeepsReconciliation(policy, s, Next(policy, s, r));
  }

  lemma ReconciliationKept(policy: Policy, s: Store, r: Request)
    requires Inv(policy, s) && Guard(policy, s, r).None?
    requires r.call.Import? ==> Next(policy, s, r) == s || Constraints(Next(policy, s, r))
    ensures ReconciliationInv(policy.lexicon, Next(policy, s, r))
  {
    hide EvidenceInv, ReviewInv, ReconciliationInv, Evolves, Constraints, GenerateMatchGuard, CreateReviewGuard,
      GenerateMatchNext, CreateReviewNext, ImportNext;
    NextEvolves(policy, s, r);
    if IsReviewCall(r.call) {
      ReviewCallKept(policy, s, r);
    } else if IsElsewhere(r.call) {
      ElsewhereKept(policy, s, r);
    } else {
      match r.call
      case Import(b) =>
        if ImportNext(s, b) != s { ImportKeeps(policy, s, b); }
      case GenerateMatch(clientId, transactionId) => GenerateKeeps(policy, s, r.ctx, clientId, transactionId);
      case CreateReview(clientId, transactionId, runId) =>
        CreateReviewKeeps(policy, s, r.ctx, clientId, transactionId, runId);
    }
  }

  /** Every call, accepted or refused, keeps the invariants and evolves the tables. */
  lemma StepKeeps(policy: Policy, s: Store, r: Request)
    requires Inv(policy, s)
    ensures Inv(policy, Handle(policy, s, r).next)
    ensures Evolves(s, Handle(policy, s, r).next)
  {
    hide EvidenceInv, ReviewInv, ReconciliationInv, Guard, Next, Evolves, CorrectionsPersist, DecisionsPersist;
    EvolvesReflexive(s);
    if Guard(policy, s, r).None? {
      var next := Next(policy, s, r);
      if next != s && Constraints(next) {
        NextEvolves(policy, s, r);
        EvidenceKept(policy, s, r);
        ReviewKept(policy, s, r);
        ReconciliationKept(policy, s, r);
      }
    }
  }

  lemma EmptyKeeps(policy: Policy)
    ensures Inv(policy, EMPTY_STORE)
  {
  }

  lemma {:induction false} RunKeeps(policy: Policy, s: Store, requests: seq<Request>)
    requires Inv(policy, s)
    ensures Inv(policy, Run(policy, s, requests))
    ensures Evolves(s, Run(policy, s, requests))
  {
    hide Inv, Handle, Evolves;
    if requests == [] {
      EvolvesReflexive(s);
    } else {
      var mid := Run(policy, s, requests[..|requests| - 1]);
      RunKeeps(policy, s, requests[..|requests| - 1]);
      StepKeeps(policy, mid, requests[|requests| - 1]);
      EvolvesTransitive(s, mid, Run(policy, s, requests));
    }
  }

  /** Every reachable state satisfies the invariants. */
  lemma ReachedKeeps(policy: Policy, requests: seq<Request>)
    ensures Inv(policy, Reached(policy, requests))
  {
    EmptyKeeps(policy);
    RunKeeps(policy, EMPTY_STORE, requests);
  }

  /** Along a run, every later state extends every earlier one. */
  lemma ReachedEvolves(policy: Policy, requests: seq<Request>, i: nat)
    requires i <= |requests|
    ensures Evolves(Reached(policy, requests[..i]), Reached(policy, requests))
  {
    assert requests == requests[..i] + requests[i..];
    ReachedKeeps(policy, requests[..i]);
    RunConcat(policy, EMPTY_STORE, requests[..i], requests[i..]);
    RunKeeps(policy, Reached(policy, requests[..i]), requests[i..]);
  }

  // ----- guards that make the constraints redundant

  lemma InvMeetsConstraints(policy: Policy, s: Store)
    requires Inv(policy, s)
    ensures Constraints(s)
  {
    hide Reproducible, ClassifyReviewRisk, LogReplays, SoundApproval, FaithfulCandidate, ActionsReplay, Numbered;
    CorrectionsStorable(s.clock, s.extractions, s.corrections);
    forall i | 0 <= i < |s.tasks|
      ensures ConsistentTask(s.tasks[i])
    {
      assert ValidTask(s.decisions, s.tasks[i]);
    }
    forall k | 0 <= k < |s.comments|
      ensures s.comments[k].body != ""
    {
      assert ValidComment(s.tasks, s.comments[k]);
    }
    forall k | 0 <= k < |s.outcomes|
      ensures ResolvedOutcome(s.outcomes[k])
    {
      assert ValidOutcome(s.corrections, s.decisions, s.tasks, s.outcomes[k]);
    }
    forall k | 0 <= k < |s.matchRuns|
      ensures MatchRunPersists(s.matchRuns[k])
    {
      RunStorable(policy.lexicon, s, s.matchRuns[k]);
    }
    forall k | 0 <= k < |s.actions|
      ensures s.actions[k].reason.Some? ==> s.actions[k].reason.value != ""
    {
      assert ValidAction(s.reviews, s.actions[k]);
    }
  }

  /** Apart from imports and decisions, a call its guards let through always commits: no
      unique or check constraint, among them the task table's state consistency, can fire. */
  lemma GuardsSuffice(policy: Policy, s: Store, r: Request)
    requires Inv(policy, s) && Guard(policy, s, r).None?
    requires !r.call.Import? && !r.call.StartDecision?
    ensures Handle(policy, s, r) == Reply(Next(policy, s, r), None)
  {
    hide EvidenceInv, ReviewInv, ReconciliationInv, Guard, Next, Constraints;
    EvidenceKept(policy, s, r);
    ReviewKept(policy, s, r);
    ReconciliationKept(policy, s, r);
    InvMeetsConstraints(policy, Next(policy, s, r));
  }
}
