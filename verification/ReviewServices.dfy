/** The human review services, step by step over a session. */
module ReviewServices {
  import opened Prelude
  import opened Text
  import opened EffectiveValues
  import opened ReviewPolicy
  import opened Identity
  import opened Store
  import opened EvidenceCalls
  import opened ReviewCalls
  import opened Session

  /** The guards and the comment log every review service shares. */
  class ReviewServiceSupport {
    const session: Session

    constructor (session: Session)
      ensures this.session == session
    {
      this.session := session;
    }

    method RequireReviewerRole(ctx: Context) returns (check: Check)
      ensures check == if IsReviewer(ctx.principal.role) then Pass else Fail(Forbidden)
    {
      if ctx.principal.role != Accountant && ctx.principal.role != SeniorReviewer { return Fail(Forbidden); }
      return Pass;
    }

    method RequireClientSubmitterRole(ctx: Context) returns (check: Check)
      ensures check == if ctx.principal.role == ClientSubmitter then Pass else Fail(Forbidden)
    {
      if ctx.principal.role != ClientSubmitter { return Fail(Forbidden); }
      return Pass;
    }

    method RequireClientAccess(ctx: Context, clientId: Id) returns (check: Check)
      ensures check == if ctx.HasAccess(clientId) then Pass else Fail(Forbidden)
    {
      return if ctx.HasAccess(clientId) then Pass else Fail(Forbidden);
    }

    method LockTask(ctx: Context, path: TaskPath) returns (check: Check)
      ensures check == if IsTaskFor(session.tables, ctx.principal.firmId, path) then Pass else Fail(NotFound)
    {
      return if IsTaskFor(session.tables, ctx.principal.firmId, path) then Pass else Fail(NotFound);
    }

    method RequireActiveTask(task: ReviewTask) returns (check: Check)
      ensures check == if IsTerminal(task.status) then Fail(ReviewTaskTerminal) else Pass
    {
      if IsTerminal(task.status) { return Fail(ReviewTaskTerminal); }
      return Pass;
    }

    method RequireOwner(ctx: Context, task: ReviewTask) returns (check: Check)
      ensures check == if task.owner == ctx.principal.membershipId then Pass else Fail(ReviewTaskNotOwned)
    {
      if task.owner != ctx.principal.membershipId { return Fail(ReviewTaskNotOwned); }
      return Pass;
    }

    method ResolveOwner(ctx: Context, clientId: Id, membershipId: Id, requireSenior: bool) returns (check: Check)
      ensures check == if CanOwn(ctx.directory, ctx.principal.firmId, clientId, membershipId, requireSenior)
                       then Pass else Fail(InvalidReviewOwner)
    {
      if membershipId !in ctx.directory.memberships { return Fail(InvalidReviewOwner); }
      var membership := ctx.directory.memberships[membershipId];
      if !membership.isActive || membership.firmId != ctx.principal.firmId { return Fail(InvalidReviewOwner); }
      if requireSenior {
        if membership.role != SeniorReviewer { return Fail(InvalidReviewOwner); }
      } else if !IsReviewer(membership.role) {
        return Fail(InvalidReviewOwner);
      }
      if !HasClientAccess(ctx.directory, membershipId, ctx.principal.firmId, clientId) {
        return Fail(InvalidReviewOwner);
      }
      return Pass;
    }

    /** Moves the task's status, refusing what the transition table does not allow, and stamps it. */
    method Transition(taskId: Id, next: TaskStatus) returns (check: Check)
      requires taskId < |session.tables.tasks|
      modifies session`tables
      ensures var before := old(session.tables);
        if CanTransition(before.tasks[taskId].status, next) then
          check == Pass && session.tables == before.(tasks := before.tasks[
            taskId := before.tasks[taskId].(status := next, updatedAt := before.clock + 1)])
        else check == Fail(InvalidReviewTaskTransition) && session.tables == before
    {
      var task := session.tables.tasks[taskId];
      if next !in AllowedTransitions(task.status) { return Fail(InvalidReviewTaskTransition); }
      session.PutTask(taskId, task.(status := next));
      session.PutTask(taskId, session.tables.tasks[taskId].(updatedAt := session.Now()));
      return Pass;
    }

    /** Appends to the comment log, refusing a blank body. */
    method NewComment(ctx: Context, taskId: Id, kind: CommentKind, body: string, assignedSenior: Option<Id>)
      returns (result: Result<Comment>)
      modifies session`tables
      ensures var before := old(session.tables);
        if Strip(body) == "" then result == Err(ReviewCommentRequired) && session.tables == before
        else
          result == Ok(Comment(
            taskId, ctx.principal.membershipId, kind, Strip(body), assignedSenior, before.clock + 1)) &&
          session.tables == before.(comments := before.comments + [result.value])
    {
      var normalized := Strip(body);
      if normalized == "" { return Err(ReviewCommentRequired); }
      var comment :=
        Comment(taskId, ctx.principal.membershipId, kind, normalized, assignedSenior, session.Now());
      session.AddComment(comment);
      return Ok(comment);
    }

    /** Role, access, the row, and that it is still open to action. */
    method ActiveTask(ctx: Context, path: TaskPath) returns (result: Result<ReviewTask>)
      ensures result.Raised() == ActiveTaskGuard(session.tables, ctx, path)
      ensures result.Ok? ==> path.taskId < |session.tables.tasks| && result.value == session.tables.tasks[path.taskId]
    {
      var role := RequireReviewerRole(ctx);
      :- role;
      :- RequireClientAccess(ctx, path.clientId);
      :- LockTask(ctx, path);
      :- RequireActiveTask(session.tables.tasks[path.taskId]);
      return Ok(session.tables.tasks[path.taskId]);
    }

    method OwnedTask(ctx: Context, path: TaskPath) returns (result: Result<ReviewTask>)
      ensures result.Raised() == OwnedTaskGuard(session.tables, ctx, path)
      ensures result.Ok? ==> path.taskId < |session.tables.tasks| && result.value == session.tables.tasks[path.taskId]
    {
      var task :- ActiveTask(ctx, path);
      :- RequireOwner(ctx, task);
      return Ok(task);
    }
  }

  class ReviewTaskService {
    const support: ReviewServiceSupport

    constructor (support: ReviewServiceSupport)
      ensures this.support == support
    {
      this.support := support;
    }

    method CreateTask(ctx: Context, path: DecisionPath, owner: Option<Id>) returns (result: Result<ReviewTask>)
      requires support.session.Clean()
      modifies support.session
      ensures result.Ok? ==> support.session.Clean()
      ensures var s := old(support.session.committed);
        var refused := CreateTaskGuard(s, ctx, path, owner);
        Ended(s, support.session.committed, refused,
              if refused.Some? then s else CreateTaskNext(s, ctx, path, owner), ReviewPersistenceFailed,
              result.Raised())
      ensures result.Ok? ==> support.session.committed.tasks == old(support.session.committed).tasks + [result.value]
    {
      var session := support.session;
      :- support.RequireReviewerRole(ctx);
      :- support.RequireClientAccess(ctx, path.clientId);
      if !IsDecisionFor(session.tables, ctx.principal.firmId, path.clientId, path.documentId,
                        path.extractionRunId, path.decisionRunId) {
        return Err(NotFound);
      }
      var decision := session.tables.decisions[path.decisionRunId];
      if !decision.Succeeded() { return Err(DecisionNotReviewable); }
      if HasTaskFor(session.tables.tasks, path.decisionRunId) { return Err(ReviewTaskExists); }
      var chosen := if owner.Some? then owner.value else ctx.principal.membershipId;
      :- support.ResolveOwner(ctx, path.clientId, chosen, false);
      var task := ReviewTask(
        decision.firmId, decision.clientId, decision.documentId, decision.extractionRunId, path.decisionRunId,
        ctx.principal.membershipId, chosen, Open, ClassifyReviewRisk(decision.Findings(), decision.Journal()),
        NotEscalated, None, session.Now());
      session.AddTask(task);
      var committed := session.CommitOrRaise(ReviewPersistenceFailed);
      if committed.Fail? && HasTaskFor(session.tables.tasks, path.decisionRunId) { return Err(ReviewTaskExists); }
      :- committed;
      return Ok(task);
    }

    method EscalateToSenior(ctx: Context, path: TaskPath, senior: Id, reason: string)
      returns (result: Result<ReviewTask>)
      requires support.session.Clean()
      modifies support.session
      ensures result.Ok? ==> support.session.Clean()
      ensures var s := old(support.session.committed);
        var refused := EscalateGuard(s, ctx, path, senior, reason);
        Ended(s, support.session.committed, refused,
              if refused.Some? then s else EscalateNext(s, ctx, path, senior, reason), ReviewPersistenceFailed,
              result.Raised())
      ensures result.Ok? ==>
        path.taskId < |support.session.committed.tasks| && result.value == support.session.committed.tasks[path.taskId]
    {
      var session := support.session;
      var task :- support.OwnedTask(ctx, path);
      if task.status != Open { return Err(InvalidReviewTaskState); }
      :- support.ResolveOwner(ctx, path.clientId, senior, true);
      var moved := support.Transition(path.taskId, Escalated);
      assert moved == Pass;
      session.PutTask(path.taskId, session.tables.tasks[path.taskId].(
        owner := senior, escalation := SeniorReview, escalatedAt := Some(session.Now())));
      assert session.tables.tasks == EscalateNext(session.committed, ctx, path, senior, reason).tasks;
      var _ :- support.NewComment(ctx, path.taskId, EscalationReason, reason, Some(senior));
      :- session.CommitOrRaise(ReviewPersistenceFailed);
      return Ok(session.tables.tasks[path.taskId]);
    }
  }

  class ReviewInteractionService {
    const support: ReviewServiceSupport

    constructor (support: ReviewServiceSupport)
      ensures this.support == support
    {
      this.support := support;
    }

    method AddComment(ctx: Context, path: TaskPath, body: string) returns (result: Result<Comment>)
      requires support.session.Clean()
      modifies support.session
      ensures result.Ok? ==> support.session.Clean()
      ensures var s := old(support.session.committed);
        var refused := AddCommentGuard(s, ctx, path, body);
        Ended(s, support.session.committed, refused, AddCommentNext(s, ctx, path, body), ReviewPersistenceFailed,
              result.Raised())
      ensures result.Ok? ==>
        support.session.committed.comments == old(support.session.committed).comments + [result.value]
    {
      var _ :- support.ActiveTask(ctx, path);
      var comment :- support.NewComment(ctx, path.taskId, PlainComment, body, None);
      :- support.session.CommitOrRaise(ReviewPersistenceFailed);
      return Ok(comment);
    }

    /** The status moves before the body is checked; a blank body leaves it to be rolled back. */
    method RequestInformation(ctx: Context, path: TaskPath, body: string) returns (result: Result<Comment>)
      requires support.session.Clean()
      modifies support.session
      ensures result.Ok? ==> support.session.Clean()
      ensures var s := old(support.session.committed);
        var refused := RequestInformationGuard(s, ctx, path, body);
        Ended(s, support.session.committed, refused,
              if refused.Some? then s else RequestInformationNext(s, ctx, path, body), ReviewPersistenceFailed,
              result.Raised())
      ensures result.Ok? ==>
        support.session.committed.comments == old(support.session.committed).comments + [result.value]
    {
      var task :- support.OwnedTask(ctx, path);
      if task.status != Open && task.status != Escalated { return Err(InvalidReviewTaskState); }
      var moved := support.Transition(path.taskId, TaskStatus.InformationRequested);
      assert moved == Pass;
      var comment :- support.NewComment(ctx, path.taskId, InformationRequest, body, None);
      :- support.session.CommitOrRaise(ReviewPersistenceFailed);
      return Ok(comment);
    }

    method PendingTask(ctx: Context, path: TaskPath) returns (result: Result<ReviewTask>)
      ensures result.Raised() == SubmitterGuard(support.session.tables, ctx, path)
      ensures result.Ok? ==>
        path.taskId < |support.session.tables.tasks| && result.value == support.session.tables.tasks[path.taskId]
    {
      var role := support.RequireClientSubmitterRole(ctx);
      :- role;
      :- support.RequireClientAccess(ctx, path.clientId);
      :- support.LockTask(ctx, path);
      var task := support.session.tables.tasks[path.taskId];
      if task.status != TaskStatus.InformationRequested { return Err(InformationNotRequested); }
      return Ok(task);
    }

    method GetInformationRequest(ctx: Context, path: TaskPath) returns (result: Result<Comment>)
      ensures result == ReviewCalls.GetInformationRequest(support.session.tables, ctx, path)
    {
      var _ :- PendingTask(ctx, path);
      var request := LatestRequest(CommentsFor(support.session.tables.comments, path.taskId));
      if request.None? { return Err(InformationRequestMissing); }
      return Ok(request.value);
    }

    method RespondToInformationRequest(ctx: Context, path: TaskPath, body: string) returns (result: Result<Comment>)
      requires support.session.Clean()
      modifies support.session
      ensures result.Ok? ==> support.session.Clean()
      ensures var s := old(support.session.committed);
        var refused := RespondGuard(s, ctx, path, body);
        Ended(s, support.session.committed, refused,
              if refused.Some? then s else RespondNext(s, ctx, path, body), ReviewPersistenceFailed, result.Raised())
      ensures result.Ok? ==>
        support.session.committed.comments == old(support.session.committed).comments + [result.value]
    {
      var task :- PendingTask(ctx, path);
      var next := if task.escalation == SeniorReview then Escalated else Open;
      var moved := support.Transition(path.taskId, next);
      assert moved == Pass;
      var comment :- support.NewComment(ctx, path.taskId, InformationResponse, body, None);
      :- support.session.CommitOrRaise(ReviewPersistenceFailed);
      return Ok(comment);
    }
  }

  class ReviewOutcomeService {
    const support: ReviewServiceSupport

    constructor (support: ReviewServiceSupport)
      ensures this.support == support
    {
      this.support := support;
    }

    method Approve(ctx: Context, path: TaskPath, note: Option<string>) returns (result: Result<ReviewOutcome>)
      requires support.session.Clean()
      modifies support.session
      ensures result.Ok? ==> support.session.Clean()
      ensures var s := old(support.session.committed);
        var refused := ApproveGuard(s, ctx, path);
        Ended(s, support.session.committed, refused,
              if refused.Some? then s else ApproveNext(s, ctx, path, note), ReviewPersistenceFailed, result.Raised())
      ensures result.Ok? ==>
        support.session.committed.outcomes == old(support.session.committed).outcomes + [result.value]
    {
      hide Constraints, ClassifyReviewRisk, OutcomeOf, CorrectionsFor, Strip;
      var session := support.session;
      var task :- support.OwnedTask(ctx, path);
      if task.status == TaskStatus.InformationRequested { return Err(InformationResponseRequired); }
      if task.status != Open && task.status != Escalated { return Err(InvalidReviewTaskState); }
      if OutcomeOf(session.tables.outcomes, path.taskId).Some? { return Err(ReviewOutcomeExists); }
      if !IsDecisionFor(session.tables, task.firmId, task.clientId, task.documentId, task.extractionRunId,
                        task.decisionRunId) || !session.tables.decisions[task.decisionRunId].Succeeded() {
        return Err(DecisionNotReviewable);
      }
      var decision := session.tables.decisions[task.decisionRunId];
      var journal := decision.Journal();
      if ClassifyReviewRisk(decision.Findings(), journal) != task.risk { return Err(ReviewRiskChanged); }
      if journal.None? || !journal.value.isBalanced { return Err(ReviewApprovalBlocked); }
      if !IsExtractionFor(session.tables, task.firmId, task.clientId, task.documentId, task.extractionRunId) {
        return Err(DecisionNotReviewable);
      }
      var corrections := CorrectionsFor(session.tables.corrections, task.extractionRunId);
      var stale := AnyNewer(corrections, decision.createdAt);
      StaleInLog(session.tables.corrections, task.extractionRunId, decision.createdAt);
      if stale { return Err(DecisionStaleAfterCorrection); }
      if ApproveOrdinaryTransaction !in ctx.principal.permissions { return Err(Forbidden); }
      if task.risk == Blocked { return Err(ReviewApprovalBlocked); }
      if task.risk == SeniorRequired {
        if ApproveHighRiskTransaction !in ctx.principal.permissions || ctx.principal.role != SeniorReviewer ||
           task.status != Escalated || task.escalation != SeniorReview {
          return Err(ErrorCode.SeniorReviewRequired);
        }
      }
      var outcomeType := if corrections != [] then CorrectedAndApproved else PlainApproval;
      var outcome := ReviewOutcome(
        path.taskId, task.firmId, task.clientId, task.documentId, task.extractionRunId, task.decisionRunId,
        ctx.principal.membershipId, ctx.principal.role, outcomeType, Some(task.decisionRunId), |corrections|,
        OptionalText(note), session.Now());
      session.AddOutcome(outcome);
      var moved := support.Transition(path.taskId, Approved);
      assert moved == Pass;
      :- session.CommitOrRaise(ReviewPersistenceFailed);
      return Ok(outcome);
    }

    method Reject(ctx: Context, path: TaskPath, reason: string) returns (result: Result<ReviewOutcome>)
      requires support.session.Clean()
      modifies support.session
      ensures result.Ok? ==> support.session.Clean()
      ensures var s := old(support.session.committed);
        var refused := RejectGuard(s, ctx, path, reason);
        Ended(s, support.session.committed, refused,
              if refused.Some? then s else RejectNext(s, ctx, path, reason), ReviewPersistenceFailed, result.Raised())
      ensures result.Ok? ==>
        support.session.committed.outcomes == old(support.session.committed).outcomes + [result.value]
    {
      hide Constraints, OutcomeOf, Strip;
      var session := support.session;
      var task :- support.OwnedTask(ctx, path);
      var normalized := Strip(reason);
      if normalized == "" { return Err(RejectionReasonRequired); }
      if OutcomeOf(session.tables.outcomes, path.taskId).Some? { return Err(ReviewOutcomeExists); }
      var outcome := ReviewOutcome(
        path.taskId, task.firmId, task.clientId, task.documentId, task.extractionRunId, task.decisionRunId,
        ctx.principal.membershipId, ctx.principal.role, Rejection, None, 0, Some(normalized), session.Now());
      session.AddOutcome(outcome);
      var moved := support.Transition(path.taskId, Rejected);
      assert moved == Pass;
      :- session.CommitOrRaise(ReviewPersistenceFailed);
      return Ok(outcome);
    }
  }

  /** any(correction.created_at > decision.created_at for correction in corrections). */
  method AnyNewer(corrections: seq<Correction>, decidedAt: nat) returns (found: bool)
    ensures found <==> exists k | 0 <= k < |corrections| :: corrections[k].createdAt > decidedAt
  {
    found := false;
    for k := 0 to |corrections|
      invariant found <==> exists i | 0 <= i < k :: corrections[i].createdAt > decidedAt
    {
      if corrections[k].createdAt > decidedAt {
        found := true;
      }
    }
  }

  /** Looking through the run's own corrections finds what looking through the table does. */
  lemma {:induction false} StaleInLog(corrections: seq<Correction>, runId: Id, decidedAt: nat)
    ensures var log := CorrectionsFor(corrections, runId);
      (exists k | 0 <= k < |log| :: log[k].createdAt > decidedAt) <==> IsStale(corrections, runId, decidedAt)
  {
    if corrections != [] {
      var n := |corrections| - 1;
      var front, log := CorrectionsFor(corrections[..n], runId), CorrectionsFor(corrections, runId);
      StaleInLog(corrections[..n], runId, decidedAt);
      if corrections[n].runId == runId {
        assert log == front + [corrections[n]];
        assert corrections[n].createdAt > decidedAt ==> log[|front|].createdAt > decidedAt;
      } else {
        assert log == front;
      }
      if k :| 0 <= k < |front| && front[k].createdAt > decidedAt {
        assert log[k].createdAt > decidedAt;
      }
      if IsStale(corrections[..n], runId, decidedAt) {
        var k :| 0 <= k < n && corrections[..n][k].runId == runId && corrections[..n][k].createdAt > decidedAt;
        assert corrections[k].createdAt > decidedAt;
      }
    }
  }
}
