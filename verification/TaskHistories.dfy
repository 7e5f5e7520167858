/** What the comment log of every reachable review task says, and which of its guards can fire. */
module TaskHistories {
  import opened Prelude
  import opened Text
  import opened Engine
  import opened ReviewPolicy
  import opened Identity
  import opened Store
  import opened EvidenceCalls
  import opened ReviewCalls
  import opened EvidenceInvariant
  import opened ReviewLog
  import opened ReviewInvariant
  import opened Evolution
  import opened System
  import opened Reachability

  /** Replaying a task's comments and its optional outcome gives its current status and
      escalation state; it was escalated at most once, to its current owner; requests and
      responses strictly alternate, with one request open exactly while information is awaited. */
  lemma TaskLogReplays(policy: Policy, s: Store, taskId: nat)
    requires Inv(policy, s) && taskId < |s.tasks|
    ensures var t, log, outcome := s.tasks[taskId], CommentsFor(s.comments, taskId), OutcomeOf(s.outcomes, taskId);
      var view := Resolved(Replay(log), outcome);
      && t.status == view.status && t.escalation == view.escalation
      && (IsTerminal(t.status) <==> outcome.Some?)
      && Count(log, EscalationReason) == (if t.escalation == SeniorReview then 1 else 0)
      && (t.escalation == SeniorReview ==> view.senior == Some(t.owner))
      && (forall k | 0 <= k < |log| && log[k].kind == InformationRequest ::
            Count(log[..k], InformationRequest) == Count(log[..k], InformationResponse))
      && (forall k | 0 <= k < |log| && log[k].kind == InformationResponse ::
            Count(log[..k], InformationRequest) == Count(log[..k], InformationResponse) + 1)
      && (Replay(log).status == InformationRequested <==>
            Count(log, InformationRequest) == Count(log, InformationResponse) + 1)
  {
    var log := CommentsFor(s.comments, taskId);
    assert LogReplays(s.comments, s.outcomes, s.tasks[taskId], taskId);
    hide Inv, Replay, LegalLog, Count;
    LogCounts(log);
    forall k | 0 <= k < |log|
      ensures log[k].kind == InformationRequest ==>
        Count(log[..k], InformationRequest) == Count(log[..k], InformationResponse)
      ensures log[k].kind == InformationResponse ==>
        Count(log[..k], InformationRequest) == Count(log[..k], InformationResponse) + 1
    {
      Alternation(log, k);
    }
  }

  /** A client's pending request is always found: the missing-request error is unreachable,
      and the comment returned is the task's one unanswered request. */
  lemma PendingRequestFound(policy: Policy, s: Store, ctx: Context, path: TaskPath) returns (k: nat)
    requires Inv(policy, s)
    ensures GetInformationRequest(s, ctx, path) != Err(InformationRequestMissing)
    ensures var log := CommentsFor(s.comments, path.taskId);
      GetInformationRequest(s, ctx, path).Ok? ==>
        IsUnanswered(log, k) && GetInformationRequest(s, ctx, path) == Ok(log[k])
  {
    k := 0;
    if SubmitterGuard(s, ctx, path).None? {
      var log := CommentsFor(s.comments, path.taskId);
      TaskLogReplays(policy, s, path.taskId);
      assert LogReplays(s.comments, s.outcomes, s.tasks[path.taskId], path.taskId);
      hide Inv, Replay, LegalLog;
      k := AwaitedRequest(log);
    } else {
      hide Inv, CommentsFor;
    }
  }

  // ----- approval

  /** What approval comes down to in a reachable state. */
  predicate MayApprove(s: Store, ctx: Context, path: TaskPath) {
    IsReviewer(ctx.principal.role) && ctx.HasAccess(path.clientId) && IsTaskFor(s, ctx.principal.firmId, path) &&
    var t := s.tasks[path.taskId];
    t.status in {Open, Escalated} && t.owner == ctx.principal.membershipId && t.risk != Blocked &&
    t.decisionRunId < |s.decisions| &&
    !IsStale(s.corrections, t.extractionRunId, s.decisions[t.decisionRunId].createdAt) &&
    ApproveOrdinaryTransaction in ctx.principal.permissions &&
    (t.risk == SeniorRequired ==>
       ApproveHighRiskTransaction in ctx.principal.permissions && ctx.principal.role == SeniorReviewer &&
       t.status == Escalated)
  }

  /** In every reachable state the long guard chain of approve accepts exactly under these
      conditions; the outcome-exists, risk-changed, not-reviewable and transition refusals
      never fire. */
  lemma ApprovalExact(policy: Policy, s: Store, ctx: Context, path: TaskPath)
    requires Inv(policy, s)
    ensures ApproveGuard(s, ctx, path).None? <==> MayApprove(s, ctx, path)
    ensures ApproveGuard(s, ctx, path) !in {
      Some(ReviewOutcomeExists), Some(ReviewRiskChanged), Some(DecisionNotReviewable), Some(InvalidReviewTaskState),
      Some(InvalidReviewTaskTransition)}
  {
    hide Inv, OutcomeOf, IsStale, ClassifyReviewRisk;
    if ActiveTaskGuard(s, ctx, path).None? {
      ActiveTaskFacts(policy, s, path.taskId);
    }
  }

  /** What the invariants say of a task still open to action. */
  lemma ActiveTaskFacts(policy: Policy, s: Store, taskId: nat)
    requires Inv(policy, s) && taskId < |s.tasks| && !IsTerminal(s.tasks[taskId].status)
    ensures var t := s.tasks[taskId];
      && OutcomeOf(s.outcomes, taskId).None? && ConsistentTask(t)
      && IsDecisionFor(s, t.firmId, t.clientId, t.documentId, t.extractionRunId, t.decisionRunId)
      && IsExtractionFor(s, t.firmId, t.clientId, t.documentId, t.extractionRunId)
      && s.decisions[t.decisionRunId].Succeeded()
      && var d := s.decisions[t.decisionRunId];
      t.risk == ClassifyReviewRisk(d.Findings(), d.Journal()) &&
      (t.risk != Blocked ==> d.Journal().Some? && d.Journal().value.isBalanced)
  {
    hide HasError, HasSeniorCode, Reproducible, LogReplays, ReconciliationInvariant.ReconciliationInv;
    TerminalIffResolved(s, taskId);
    assert ValidTask(s.decisions, s.tasks[taskId]);
    assert ValidDecision(s.extractions, s.clock, s.decisions[s.tasks[taskId].decisionRunId]);
  }

  lemma HoldsReview(policy: Policy, s: Store)
    requires Inv(policy, s)
    ensures ReviewInv(s)
  {
  }

  /** Nor can any other review call of a reachable state be refused for an invalid transition
      or an outcome that already exists. */
  lemma UnreachableReviewGuards(policy: Policy, s: Store, ctx: Context, path: TaskPath, senior: Id, text: string)
    requires Inv(policy, s)
    ensures EscalateGuard(s, ctx, path, senior, text) != Some(InvalidReviewTaskTransition)
    ensures RequestInformationGuard(s, ctx, path, text) != Some(InvalidReviewTaskTransition)
    ensures RespondGuard(s, ctx, path, text) != Some(InvalidReviewTaskTransition)
    ensures RejectGuard(s, ctx, path, text) !in {Some(InvalidReviewTaskTransition), Some(ReviewOutcomeExists)}
  {
    hide Inv, EvidenceInv, ReviewInv, OutcomeOf, Strip, CanOwn, HasClientAccess;
    if path.taskId < |s.tasks| {
      HoldsReview(policy, s);
      TerminalIffResolved(s, path.taskId);
    }
  }

  // ----- over runs

  /** A task keeps its subject and stored risk over every run; its owner changes at most once,
      by the escalation, and nothing changes after it is terminal. */
  lemma OwnerChangesAtMostOnce(policy: Policy, requests: seq<Request>, i: nat, j: nat, taskId: nat)
    requires i <= j <= |requests|
    requires taskId < |Reached(policy, requests[..i]).tasks|
    ensures taskId < |Reached(policy, requests[..j]).tasks| && taskId < |Reached(policy, requests).tasks|
    ensures var t, u, v := Reached(policy, requests[..i]).tasks[taskId], Reached(policy, requests[..j]).tasks[taskId],
                           Reached(policy, requests).tasks[taskId];
      && (t.owner != u.owner ==> v.owner == u.owner && t.escalation == NotEscalated && u.escalation == SeniorReview)
      && v.risk == t.risk && v.decisionRunId == t.decisionRunId
      && (IsTerminal(t.status) ==> v == t)
  {
    hide Run, Inv;
    assert requests[..j][..i] == requests[..i];
    ReachedEvolves(policy, requests[..j], i);
    ReachedEvolves(policy, requests, j);
    var before, after := Reached(policy, requests[..i]), Reached(policy, requests[..j]);
    assert TaskEvolves(before.tasks[taskId], after.tasks[taskId]);
    assert TaskEvolves(after.tasks[taskId], Reached(policy, requests).tasks[taskId]);
  }

  /** The risk stored with a task is always the one its decision classifies to. */
  lemma StoredRiskIsCurrent(policy: Policy, s: Store, taskId: nat)
    requires Inv(policy, s) && taskId < |s.tasks|
    ensures var t := s.tasks[taskId];
      && t.decisionRunId < |s.decisions|
      && t.risk == ClassifyReviewRisk(s.decisions[t.decisionRunId].Findings(), s.decisions[t.decisionRunId].Journal())
  {
    hide ClassifyReviewRisk, EvidenceInv, LogReplays;
    assert ValidTask(s.decisions, s.tasks[taskId]);
  }
}
