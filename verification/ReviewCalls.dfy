/** Human review calls: when each is refused, and the tables it commits. */
module ReviewCalls {
  import opened Prelude
  import opened Text
  import opened EffectiveValues
  import opened ReviewPolicy
  import opened Identity
  import opened Store
  import opened EvidenceCalls

  // ----- shared guards

  function ReviewerGuard(ctx: Context, clientId: Id): Option<ErrorCode> {
    if !IsReviewer(ctx.principal.role) then Some(Forbidden)
    else if !ctx.HasAccess(clientId) then Some(Forbidden)
    else None
  }

  function ActiveTaskGuard(s: Store, ctx: Context, path: TaskPath): Option<ErrorCode> {
    var reviewer := ReviewerGuard(ctx, path.clientId);
    if reviewer.Some? then reviewer
    else if !IsTaskFor(s, ctx.principal.firmId, path) then Some(NotFound)
    else if IsTerminal(s.tasks[path.taskId].status) then Some(ReviewTaskTerminal)
    else None
  }

  function OwnedTaskGuard(s: Store, ctx: Context, path: TaskPath): Option<ErrorCode> {
    var active := ActiveTaskGuard(s, ctx, path);
    if active.Some? then active
    else if s.tasks[path.taskId].owner != ctx.principal.membershipId then Some(ReviewTaskNotOwned)
    else None
  }

  // ----- create_task

  datatype DecisionPath = DecisionPath(clientId: Id, documentId: Id, extractionRunId: Id, decisionRunId: Id)

  function ChosenOwner(ctx: Context, owner: Option<Id>): Id {
    if owner.Some? then owner.value else ctx.principal.membershipId
  }

  function CreateTaskGuard(s: Store, ctx: Context, path: DecisionPath, owner: Option<Id>): Option<ErrorCode> {
    var reviewer := ReviewerGuard(ctx, path.clientId);
    if reviewer.Some? then reviewer
    else if !IsDecisionFor(s, ctx.principal.firmId, path.clientId, path.documentId, path.extractionRunId,
                           path.decisionRunId) then Some(NotFound)
    else if !s.decisions[path.decisionRunId].Succeeded() then Some(DecisionNotReviewable)
    else if HasTaskFor(s.tasks, path.decisionRunId) then Some(ReviewTaskExists)
    else if !CanOwn(ctx.directory, ctx.principal.firmId, path.clientId, ChosenOwner(ctx, owner), false)
      then Some(InvalidReviewOwner)
    else None
  }

  function CreateTaskNext(s: Store, ctx: Context, path: DecisionPath, owner: Option<Id>): Store
    requires path.decisionRunId < |s.decisions|
  {
    var d := s.decisions[path.decisionRunId];
    s.(clock := s.clock + 1,
       tasks := s.tasks +
         [ReviewTask(d.firmId, d.clientId, d.documentId, d.extractionRunId, path.decisionRunId,
                     ctx.principal.membershipId, ChosenOwner(ctx, owner), Open,
                     ClassifyReviewRisk(d.Findings(), d.Journal()), NotEscalated, None, s.clock + 1)])
  }

  // ----- escalate_to_senior

  function EscalateGuard(s: Store, ctx: Context, path: TaskPath, senior: Id, reason: string): Option<ErrorCode> {
    var owned := OwnedTaskGuard(s, ctx, path);
    if owned.Some? then owned
    else if s.tasks[path.taskId].status != Open then Some(InvalidReviewTaskState)
    else if !CanOwn(ctx.directory, ctx.principal.firmId, path.clientId, senior, true) then Some(InvalidReviewOwner)
    else if !CanTransition(s.tasks[path.taskId].status, Escalated) then Some(InvalidReviewTaskTransition)
    else if Strip(reason) == "" then Some(ReviewCommentRequired)
    else None
  }

  function EscalateNext(s: Store, ctx: Context, path: TaskPath, senior: Id, reason: string): Store
    requires path.taskId < |s.tasks|
  {
    var now := s.clock + 1;
    s.(clock := now,
       tasks := s.tasks[path.taskId := s.tasks[path.taskId].(
         status := Escalated, owner := senior, escalation := SeniorReview, escalatedAt := Some(now),
         updatedAt := now)],
       comments := s.comments +
         [Comment(path.taskId, ctx.principal.membershipId, EscalationReason, Strip(reason), Some(senior), now)])
  }

  // ----- add_comment

  function AddCommentGuard(s: Store, ctx: Context, path: TaskPath, body: string): Option<ErrorCode> {
    var active := ActiveTaskGuard(s, ctx, path);
    if active.Some? then active
    else if Strip(body) == "" then Some(ReviewCommentRequired)
    else None
  }

  function AddCommentNext(s: Store, ctx: Context, path: TaskPath, body: string): Store {
    s.(clock := s.clock + 1,
       comments := s.comments +
         [Comment(path.taskId, ctx.principal.membershipId, PlainComment, Strip(body), None, s.clock + 1)])
  }

  // ----- request_information

  function RequestInformationGuard(s: Store, ctx: Context, path: TaskPath, body: string): Option<ErrorCode> {
    var owned := OwnedTaskGuard(s, ctx, path);
    if owned.Some? then owned
    else if s.tasks[path.taskId].status !in {Open, Escalated} then Some(InvalidReviewTaskState)
    else if !CanTransition(s.tasks[path.taskId].status, InformationRequested) then Some(InvalidReviewTaskTransition)
    else if Strip(body) == "" then Some(ReviewCommentRequired)
    else None
  }

  function RequestInformationNext(s: Store, ctx: Context, path: TaskPath, body: string): Store
    requires path.taskId < |s.tasks|
  {
    var now := s.clock + 1;
    s.(clock := now,
       tasks := s.tasks[path.taskId := s.tasks[path.taskId].(status := InformationRequested, updatedAt := now)],
       comments := s.comments +
         [Comment(path.taskId, ctx.principal.membershipId, InformationRequest, Strip(body), None, now)])
  }

  // ----- get_information_request and respond_to_information_request

  function SubmitterGuard(s: Store, ctx: Context, path: TaskPath): Option<ErrorCode> {
    if ctx.principal.role != ClientSubmitter then Some(Forbidden)
    else if !ctx.HasAccess(path.clientId) then Some(Forbidden)
    else if !IsTaskFor(s, ctx.principal.firmId, path) then Some(NotFound)
    else if s.tasks[path.taskId].status != InformationRequested then Some(InformationNotRequested)
    else None
  }

  /** The newest information request in a task's comments. */
  function LatestRequest(comments: seq<Comment>): Option<Comment> {
    if comments == [] then None
    else if comments[|comments| - 1].kind == InformationRequest then Some(comments[|comments| - 1])
    else LatestRequest(comments[..|comments| - 1])
  }

  function GetInformationRequest(s: Store, ctx: Context, path: TaskPath): Result<Comment> {
    var refused := SubmitterGuard(s, ctx, path);
    if refused.Some? then Err(refused.value)
    else
      var request := LatestRequest(CommentsFor(s.comments, path.taskId));
      if request.None? then Err(InformationRequestMissing) else Ok(request.value)
  }

  function ResumedStatus(task: ReviewTask): TaskStatus {
    if task.escalation == SeniorReview then Escalated else Open
  }

  function RespondGuard(s: Store, ctx: Context, path: TaskPath, body: string): Option<ErrorCode> {
    var refused := SubmitterGuard(s, ctx, path);
    if refused.Some? then refused
    else if !CanTransition(InformationRequested, ResumedStatus(s.tasks[path.taskId]))
      then Some(InvalidReviewTaskTransition)
    else if Strip(body) == "" then Some(ReviewCommentRequired)
    else None
  }

  function RespondNext(s: Store, ctx: Context, path: TaskPath, body: string): Store
    requires path.taskId < |s.tasks|
  {
    var now := s.clock + 1;
    var task := s.tasks[path.taskId];
    s.(clock := now,
       tasks := s.tasks[path.taskId := task.(status := ResumedStatus(task), updatedAt := now)],
       comments := s.comments +
         [Comment(path.taskId, ctx.principal.membershipId, InformationResponse, Strip(body), None, now)])
  }

  // ----- approve

  /** Some correction of the run is strictly newer than the decision. */
  predicate IsStale(corrections: seq<Correction>, runId: Id, decidedAt: nat) {
    exists k | 0 <= k < |corrections| :: corrections[k].runId == runId && corrections[k].createdAt > decidedAt
  }

  function ApproveGuard(s: Store, ctx: Context, path: TaskPath): Option<ErrorCode> {
    var owned := OwnedTaskGuard(s, ctx, path);
    if owned.Some? then owned
    else
      var task := s.tasks[path.taskId];
      if task.status == InformationRequested then Some(InformationResponseRequired)
      else if task.status !in {Open, Escalated} then Some(InvalidReviewTaskState)
      else if OutcomeOf(s.outcomes, path.taskId).Some? then Some(ReviewOutcomeExists)
      else if !IsDecisionFor(s, task.firmId, task.clientId, task.documentId, task.extractionRunId,
                             task.decisionRunId) || !s.decisions[task.decisionRunId].Succeeded()
        then Some(DecisionNotReviewable)
      else
        var decision := s.decisions[task.decisionRunId];
        var journal := decision.Journal();
        if ClassifyReviewRisk(decision.Findings(), journal) != task.risk then Some(ReviewRiskChanged)
        else if journal.None? || !journal.value.isBalanced then Some(ReviewApprovalBlocked)
        else if !IsExtractionFor(s, task.firmId, task.clientId, task.documentId, task.extractionRunId)
          then Some(DecisionNotReviewable)
        else if IsStale(s.corrections, task.extractionRunId, decision.createdAt)
          then Some(DecisionStaleAfterCorrection)
        else if ApproveOrdinaryTransaction !in ctx.principal.permissions then Some(Forbidden)
        else if task.risk == Blocked then Some(ReviewApprovalBlocked)
        else if task.risk == SeniorRequired &&
                (ApproveHighRiskTransaction !in ctx.principal.permissions ||
                 ctx.principal.role != SeniorReviewer || task.status != Escalated ||
                 task.escalation != SeniorReview)
          then Some(ErrorCode.SeniorReviewRequired)
        else if !CanTransition(task.status, Approved) then Some(InvalidReviewTaskTransition)
        else None
  }

  function ApproveNext(s: Store, ctx: Context, path: TaskPath, note: Option<string>): Store
    requires path.taskId < |s.tasks|
  {
    var now := s.clock + 1;
    var task := s.tasks[path.taskId];
    var count := |CorrectionsFor(s.corrections, task.extractionRunId)|;
    s.(clock := now,
       outcomes := s.outcomes +
         [ReviewOutcome(path.taskId, task.firmId, task.clientId, task.documentId, task.extractionRunId,
                        task.decisionRunId, ctx.principal.membershipId, ctx.principal.role,
                        if count > 0 then CorrectedAndApproved else PlainApproval,
                        Some(task.decisionRunId), count, OptionalText(note), now)],
       tasks := s.tasks[path.taskId := task.(status := Approved, updatedAt := now)])
  }

  // ----- reject

  function RejectGuard(s: Store, ctx: Context, path: TaskPath, reason: string): Option<ErrorCode> {
    var owned := OwnedTaskGuard(s, ctx, path);
    if owned.Some? then owned
    else if Strip(reason) == "" then Some(RejectionReasonRequired)
    else if OutcomeOf(s.outcomes, path.taskId).Some? then Some(ReviewOutcomeExists)
    else if !CanTransition(s.tasks[path.taskId].status, Rejected) then Some(InvalidReviewTaskTransition)
    else None
  }

  function RejectNext(s: Store, ctx: Context, path: TaskPath, reason: string): Store
    requires path.taskId < |s.tasks|
  {
    var now := s.clock + 1;
    var task := s.tasks[path.taskId];
    s.(clock := now,
       outcomes := s.outcomes +
         [ReviewOutcome(path.taskId, task.firmId, task.clientId, task.documentId, task.extractionRunId,
                        task.decisionRunId, ctx.principal.membershipId, ctx.principal.role, Rejection,
                        None, 0, Some(Strip(reason)), now)],
       tasks := s.tasks[path.taskId := task.(status := Rejected, updatedAt := now)])
  }
}
