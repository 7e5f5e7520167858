/** What every review call answers in a reachable state, in terms of the request and the rows:
    which refusal comes first, and otherwise exactly what is committed. */
module TaskAnswers {
  import opened Prelude
  import opened Text
  import opened Engine
  import opened ReviewPolicy
  import opened Identity
  import opened Store
  import opened EvidenceCalls
  import opened ReviewCalls
  import opened System
  import opened Reachability
  import opened TaskHistories

  // ----- the conditions

  predicate Reaches(ctx: Context, clientId: Id) {
    (ctx.principal.membershipId, ctx.principal.firmId, clientId) in ctx.directory.access
  }

  predicate Reviews(ctx: Context, clientId: Id) {
    ctx.principal.role in {Accountant, SeniorReviewer} && Reaches(ctx, clientId)
  }

  /** An active membership of the caller's firm, in one of the roles, with access to the client. */
  predicate IsActiveMember(ctx: Context, clientId: Id, id: Id, roles: set<Role>) {
    id in ctx.directory.memberships &&
    var m := ctx.directory.memberships[id];
    m.isActive && m.firmId == ctx.principal.firmId && m.role in roles &&
    (id, ctx.principal.firmId, clientId) in ctx.directory.access
  }

  predicate NamesTask(s: Store, ctx: Context, path: TaskPath) {
    path.taskId < |s.tasks| &&
    var t := s.tasks[path.taskId];
    t.firmId == ctx.principal.firmId && t.clientId == path.clientId && t.documentId == path.documentId &&
    t.extractionRunId == path.extractionRunId && t.decisionRunId == path.decisionRunId
  }

  predicate NamesDecision(s: Store, ctx: Context, path: DecisionPath) {
    path.decisionRunId < |s.decisions| &&
    var d := s.decisions[path.decisionRunId];
    d.firmId == ctx.principal.firmId && d.clientId == path.clientId && d.documentId == path.documentId &&
    d.extractionRunId == path.extractionRunId
  }

  /** A correction of the task's run is newer than the decision under review. */
  ghost predicate CorrectedSince(s: Store, t: ReviewTask)
    requires t.decisionRunId < |s.decisions|
  {
    exists c | c in s.corrections ::
      c.runId == t.extractionRunId && c.createdAt > s.decisions[t.decisionRunId].createdAt
  }

  /** One row of the task table replaced, one comment appended. */
  function Moved(s: Store, taskId: Id, task: ReviewTask, comment: Comment): Store
    requires taskId < |s.tasks|
  {
    s.(clock := s.clock + 1, tasks := s.tasks[taskId := task.(updatedAt := s.clock + 1)],
       comments := s.comments + [comment])
  }

  /** Apart from imports and decisions, a call is refused by its guard or commits. */
  lemma Answered(policy: Policy, s: Store, r: Request)
    requires Inv(policy, s) && !r.call.Import? && !r.call.StartDecision?
    ensures Handle(policy, s, r) ==
      if Guard(policy, s, r).Some? then Reply(s, Guard(policy, s, r)) else Reply(Next(policy, s, r), None)
  {
    hide Inv, Guard, Next, Constraints;
    if Guard(policy, s, r).None? {
      GuardsSuffice(policy, s, r);
    }
  }

  // ----- create_task

  lemma CreateTaskAnswer(policy: Policy, s: Store, ctx: Context, path: DecisionPath, owner: Option<Id>)
    requires Inv(policy, s)
    ensures var chosen := if owner.Some? then owner.value else ctx.principal.membershipId;
      Handle(policy, s, Request(ctx, CreateTask(path, owner))) ==
      if !Reviews(ctx, path.clientId) then Reply(s, Some(Forbidden))
      else if !NamesDecision(s, ctx, path) then Reply(s, Some(NotFound))
      else
        var d := s.decisions[path.decisionRunId];
        if d.output.None? then Reply(s, Some(DecisionNotReviewable))
        else if exists t | t in s.tasks :: t.decisionRunId == path.decisionRunId then Reply(s, Some(ReviewTaskExists))
        else if !IsActiveMember(ctx, path.clientId, chosen, {Accountant, SeniorReviewer})
          then Reply(s, Some(InvalidReviewOwner))
        else
          Reply(s.(clock := s.clock + 1, tasks := s.tasks + [ReviewTask(
            d.firmId, d.clientId, d.documentId, d.extractionRunId, path.decisionRunId, ctx.principal.membershipId,
            chosen, Open, ClassifyReviewRisk(d.output.value.findings, d.output.value.journal), NotEscalated, None,
            s.clock + 1)]), None)
  {
    hide Inv, CreateTaskGuard, ClassifyReviewRisk, Handle, IsActiveMember;
    var r := Request(ctx, CreateTask(path, owner));
    CreateTaskGuarded(s, ctx, path, owner);
    Answered(policy, s, r);
  }

  lemma CreateTaskGuarded(s: Store, ctx: Context, path: DecisionPath, owner: Option<Id>)
    ensures var chosen := if owner.Some? then owner.value else ctx.principal.membershipId;
      CreateTaskGuard(s, ctx, path, owner) ==
      if !Reviews(ctx, path.clientId) then Some(Forbidden)
      else if !NamesDecision(s, ctx, path) then Some(NotFound)
      else if s.decisions[path.decisionRunId].output.None? then Some(DecisionNotReviewable)
      else if exists t | t in s.tasks :: t.decisionRunId == path.decisionRunId then Some(ReviewTaskExists)
      else if !IsActiveMember(ctx, path.clientId, chosen, {Accountant, SeniorReviewer}) then Some(InvalidReviewOwner)
      else None
  {
    if HasTaskFor(s.tasks, path.decisionRunId) {
      var k :| 0 <= k < |s.tasks| && s.tasks[k].decisionRunId == path.decisionRunId;
      assert s.tasks[k] in s.tasks;
    }
    if t :| t in s.tasks && t.decisionRunId == path.decisionRunId {
      var k :| 0 <= k < |s.tasks| && s.tasks[k] == t;
      assert s.tasks[k].decisionRunId == path.decisionRunId;
    }
  }

  // ----- escalate_to_senior

  /** Who may escalate what to whom. */
  predicate MayEscalate(s: Store, ctx: Context, path: TaskPath, senior: Id, text: string) {
    Reviews(ctx, path.clientId) && NamesTask(s, ctx, path) && s.tasks[path.taskId].status == Open &&
    s.tasks[path.taskId].owner == ctx.principal.membershipId && Strip(text) != "" &&
    IsActiveMember(ctx, path.clientId, senior, {SeniorReviewer})
  }

  /** An escalation commits exactly when a reviewer with access hands over their own open task,
      with a reason, to an active senior of the firm with access to the client; that senior is
      then the owner. */
  lemma EscalateAnswer(policy: Policy, s: Store, ctx: Context, path: TaskPath, senior: Id, text: string)
    requires Inv(policy, s)
    ensures var reply := Handle(policy, s, Request(ctx, Escalate(path, senior, text)));
      && (reply.error.None? <==> MayEscalate(s, ctx, path, senior, text))
      && reply ==
        if !Reviews(ctx, path.clientId) then Reply(s, Some(Forbidden))
        else if !NamesTask(s, ctx, path) then Reply(s, Some(NotFound))
        else
          var t := s.tasks[path.taskId];
          if t.status in {Approved, Rejected} then Reply(s, Some(ReviewTaskTerminal))
          else if t.owner != ctx.principal.membershipId then Reply(s, Some(ReviewTaskNotOwned))
          else if t.status != Open then Reply(s, Some(InvalidReviewTaskState))
          else if !IsActiveMember(ctx, path.clientId, senior, {SeniorReviewer})
            then Reply(s, Some(InvalidReviewOwner))
          else if Strip(text) == "" then Reply(s, Some(ReviewCommentRequired))
          else
            Reply(Moved(s, path.taskId,
              t.(status := Escalated, owner := senior, escalation := SeniorReview, escalatedAt := Some(s.clock + 1)),
              Comment(path.taskId, ctx.principal.membershipId, EscalationReason, Strip(text), Some(senior),
                      s.clock + 1)), None)
  {
    hide Inv, Strip, Handle;
    var r := Request(ctx, Escalate(path, senior, text));
    Answered(policy, s, r);
  }

  // ----- comments, requests and responses

  lemma AddCommentAnswer(policy: Policy, s: Store, ctx: Context, path: TaskPath, text: string)
    requires Inv(policy, s)
    ensures Handle(policy, s, Request(ctx, AddComment(path, text))) ==
      if !Reviews(ctx, path.clientId) then Reply(s, Some(Forbidden))
      else if !NamesTask(s, ctx, path) then Reply(s, Some(NotFound))
      else if s.tasks[path.taskId].status in {Approved, Rejected} then Reply(s, Some(ReviewTaskTerminal))
      else if Strip(text) == "" then Reply(s, Some(ReviewCommentRequired))
      else
        Reply(s.(clock := s.clock + 1, comments := s.comments +
          [Comment(path.taskId, ctx.principal.membershipId, PlainComment, Strip(text), None, s.clock + 1)]), None)
  {
    hide Inv, Strip, Handle;
    var r := Request(ctx, AddComment(path, text));
    Answered(policy, s, r);
  }

  lemma RequestInformationAnswer(policy: Policy, s: Store, ctx: Context, path: TaskPath, text: string)
    requires Inv(policy, s)
    ensures Handle(policy, s, Request(ctx, Call.RequestInformation(path, text))) ==
      if !Reviews(ctx, path.clientId) then Reply(s, Some(Forbidden))
      else if !NamesTask(s, ctx, path) then Reply(s, Some(NotFound))
      else
        var t := s.tasks[path.taskId];
        if t.status in {Approved, Rejected} then Reply(s, Some(ReviewTaskTerminal))
        else if t.owner != ctx.principal.membershipId then Reply(s, Some(ReviewTaskNotOwned))
        else if t.status == TaskStatus.InformationRequested then Reply(s, Some(InvalidReviewTaskState))
        else if Strip(text) == "" then Reply(s, Some(ReviewCommentRequired))
        else
          Reply(Moved(s, path.taskId, t.(status := TaskStatus.InformationRequested),
            Comment(path.taskId, ctx.principal.membershipId, InformationRequest, Strip(text), None, s.clock + 1)),
            None)
  {
    hide Inv, Strip, Handle;
    var r := Request(ctx, Call.RequestInformation(path, text));
    Answered(policy, s, r);
  }

  /** A response puts the task back where the request found it: with the senior, or open. */
  lemma RespondAnswer(policy: Policy, s: Store, ctx: Context, path: TaskPath, text: string)
    requires Inv(policy, s)
    ensures Handle(policy, s, Request(ctx, Respond(path, text))) ==
      if ctx.principal.role != ClientSubmitter || !Reaches(ctx, path.clientId) then Reply(s, Some(Forbidden))
      else if !NamesTask(s, ctx, path) then Reply(s, Some(NotFound))
      else
        var t := s.tasks[path.taskId];
        if t.status != TaskStatus.InformationRequested then Reply(s, Some(InformationNotRequested))
        else if Strip(text) == "" then Reply(s, Some(ReviewCommentRequired))
        else
          Reply(Moved(s, path.taskId, t.(status := if t.escalation == SeniorReview then Escalated else Open),
            Comment(path.taskId, ctx.principal.membershipId, InformationResponse, Strip(text), None, s.clock + 1)),
            None)
  {
    hide Inv, Strip, Handle;
    var r := Request(ctx, Respond(path, text));
    Answered(policy, s, r);
  }

  /** A submitter with access is shown the newest request while the task awaits information, and
      a request is always there. */
  lemma InformationRequestAnswer(policy: Policy, s: Store, ctx: Context, path: TaskPath)
    requires Inv(policy, s)
    ensures var reply := GetInformationRequest(s, ctx, path);
      && reply.Raised() ==
        (if ctx.principal.role != ClientSubmitter || !Reaches(ctx, path.clientId) then Some(Forbidden)
         else if !NamesTask(s, ctx, path) then Some(NotFound)
         else if s.tasks[path.taskId].status != TaskStatus.InformationRequested then Some(InformationNotRequested)
         else None)
      && (reply.Ok? ==>
            reply.value in s.comments && reply.value.taskId == path.taskId && reply.value.kind == InformationRequest)
  {
    hide Inv, CommentsFor, LatestRequest;
    var k := PendingRequestFound(policy, s, ctx, path);
    if GetInformationRequest(s, ctx, path).Ok? {
      CommentLogged(s.comments, path.taskId, GetInformationRequest(s, ctx, path).value);
    }
  }

  lemma {:induction false} CommentLogged(comments: seq<Comment>, taskId: Id, c: Comment)
    requires c in CommentsFor(comments, taskId)
    ensures c in comments && c.taskId == taskId
  {
    var n := |comments| - 1;
    if c in CommentsFor(comments[..n], taskId) {
      CommentLogged(comments[..n], taskId, c);
    }
  }

  // ----- approve and reject

  predicate NeedsMore(ctx: Context, t: ReviewTask) {
    t.risk == SeniorRequired &&
    !(ctx.principal.role == SeniorReviewer && ApproveHighRiskTransaction in ctx.principal.permissions &&
      t.status == Escalated)
  }

  lemma StaleExact(s: Store, t: ReviewTask)
    requires t.decisionRunId < |s.decisions|
    ensures IsStale(s.corrections, t.extractionRunId, s.decisions[t.decisionRunId].createdAt) <==> CorrectedSince(s, t)
  {
    var decidedAt := s.decisions[t.decisionRunId].createdAt;
    if IsStale(s.corrections, t.extractionRunId, decidedAt) {
      var k :| 0 <= k < |s.corrections| && s.corrections[k].runId == t.extractionRunId &&
               s.corrections[k].createdAt > decidedAt;
      assert s.corrections[k] in s.corrections;
    }
    if CorrectedSince(s, t) {
      var c :| c in s.corrections && c.runId == t.extractionRunId && c.createdAt > decidedAt;
      var k :| 0 <= k < |s.corrections| && s.corrections[k] == c;
      assert s.corrections[k].runId == t.extractionRunId;
    }
  }

  /** The refusals of approve that are left in a reachable state, in their order. */
  lemma ApproveGuarded(policy: Policy, s: Store, ctx: Context, path: TaskPath)
    requires Inv(policy, s)
    ensures ApproveGuard(s, ctx, path) ==
      if !Reviews(ctx, path.clientId) then Some(Forbidden)
      else if !NamesTask(s, ctx, path) then Some(NotFound)
      else
        var t := s.tasks[path.taskId];
        if t.status in {Approved, Rejected} then Some(ReviewTaskTerminal)
        else if t.owner != ctx.principal.membershipId then Some(ReviewTaskNotOwned)
        else if t.status == TaskStatus.InformationRequested then Some(InformationResponseRequired)
        else if t.decisionRunId >= |s.decisions| then Some(NotFound)
        else
          var journal := s.decisions[t.decisionRunId].Journal();
          if journal.None? || !journal.value.isBalanced then Some(ReviewApprovalBlocked)
          else if CorrectedSince(s, t) then Some(DecisionStaleAfterCorrection)
          else if ApproveOrdinaryTransaction !in ctx.principal.permissions then Some(Forbidden)
          else if t.risk == Blocked then Some(ReviewApprovalBlocked)
          else if NeedsMore(ctx, t) then Some(ErrorCode.SeniorReviewRequired)
          else None
  {
    hide Inv, OutcomeOf, IsStale, CorrectedSince, ClassifyReviewRisk;
    if ActiveTaskGuard(s, ctx, path).None? {
      ActiveTaskFacts(policy, s, path.taskId);
      StaleExact(s, s.tasks[path.taskId]);
    }
  }

  /** What approval comes down to, row by row. */
  ghost predicate MayBeApproved(s: Store, ctx: Context, path: TaskPath) {
    Reviews(ctx, path.clientId) && NamesTask(s, ctx, path) && path.decisionRunId < |s.decisions| &&
    var t := s.tasks[path.taskId];
    t.status in {Open, Escalated} && t.owner == ctx.principal.membershipId && t.risk != Blocked &&
    !CorrectedSince(s, t) && ApproveOrdinaryTransaction in ctx.principal.permissions && !NeedsMore(ctx, t)
  }

  /** The tables after an approval: the outcome counts the run's corrections. */
  function WithApproval(s: Store, ctx: Context, path: TaskPath, note: Option<string>): Store
    requires path.taskId < |s.tasks|
  {
    var count := |CorrectionsFor(s.corrections, path.extractionRunId)|;
    s.(clock := s.clock + 1,
       tasks := s.tasks[path.taskId := s.tasks[path.taskId].(status := Approved, updatedAt := s.clock + 1)],
       outcomes := s.outcomes + [ReviewOutcome(
         path.taskId, ctx.principal.firmId, path.clientId, path.documentId, path.extractionRunId,
         path.decisionRunId, ctx.principal.membershipId, ctx.principal.role,
         if count > 0 then CorrectedAndApproved else PlainApproval, Some(path.decisionRunId), count,
         if note.Some? && Strip(note.value) != "" then Some(Strip(note.value)) else None, s.clock + 1)])
  }

  lemma ApproveAccepts(policy: Policy, s: Store, ctx: Context, path: TaskPath)
    requires Inv(policy, s)
    ensures ApproveGuard(s, ctx, path).None? <==> MayBeApproved(s, ctx, path)
    ensures MayBeApproved(s, ctx, path) ==> NamesTask(s, ctx, path)
  {
    hide Inv, ApproveGuard, CorrectedSince;
    ApproveGuarded(policy, s, ctx, path);
    if NamesTask(s, ctx, path) && s.tasks[path.taskId].status in {Open, Escalated} {
      RiskOfTask(policy, s, path.taskId);
    }
  }

  lemma ApproveCommits(s: Store, ctx: Context, path: TaskPath, note: Option<string>)
    requires NamesTask(s, ctx, path)
    ensures ApproveNext(s, ctx, path, note) == WithApproval(s, ctx, path, note)
  {
    hide Strip;
  }

  /** Approve commits exactly then, with one outcome and the approved task; any refusal leaves
      the tables alone. */
  lemma ApproveAnswer(policy: Policy, s: Store, ctx: Context, path: TaskPath, note: Option<string>)
    requires Inv(policy, s)
    ensures var reply := Handle(policy, s, Request(ctx, Approve(path, note)));
      if MayBeApproved(s, ctx, path) then reply == Reply(WithApproval(s, ctx, path, note), None)
      else reply.next == s && reply.error.Some?
  {
    hide Inv, ApproveGuard, ApproveNext, MayBeApproved, NamesTask, WithApproval, Handle;
    var r := Request(ctx, Approve(path, note));
    ApproveAccepts(policy, s, ctx, path);
    Answered(policy, s, r);
    if ApproveGuard(s, ctx, path).None? {
      ApproveCommits(s, ctx, path, note);
    }
  }

  lemma RiskOfTask(policy: Policy, s: Store, taskId: nat)
    requires Inv(policy, s) && taskId < |s.tasks| && s.tasks[taskId].status in {Open, Escalated}
    ensures var t := s.tasks[taskId];
      && t.decisionRunId < |s.decisions|
      && (t.risk != Blocked ==>
          s.decisions[t.decisionRunId].Journal().Some? && s.decisions[t.decisionRunId].Journal().value.isBalanced)
  {
    hide Inv, ClassifyReviewRisk;
    ActiveTaskFacts(policy, s, taskId);
  }

  function WithRejection(s: Store, ctx: Context, path: TaskPath, text: string): Store
    requires path.taskId < |s.tasks|
  {
    s.(clock := s.clock + 1,
       tasks := s.tasks[path.taskId := s.tasks[path.taskId].(status := Rejected, updatedAt := s.clock + 1)],
       outcomes := s.outcomes + [ReviewOutcome(
         path.taskId, ctx.principal.firmId, path.clientId, path.documentId, path.extractionRunId,
         path.decisionRunId, ctx.principal.membershipId, ctx.principal.role, Rejection, None, 0, Some(Strip(text)),
         s.clock + 1)])
  }

  lemma RejectCommits(s: Store, ctx: Context, path: TaskPath, text: string)
    requires NamesTask(s, ctx, path)
    ensures RejectNext(s, ctx, path, text) == WithRejection(s, ctx, path, text)
  {
    hide Strip;
  }

  lemma RejectAnswer(policy: Policy, s: Store, ctx: Context, path: TaskPath, text: string)
    requires Inv(policy, s)
    ensures Handle(policy, s, Request(ctx, Reject(path, text))) ==
      if !Reviews(ctx, path.clientId) then Reply(s, Some(Forbidden))
      else if !NamesTask(s, ctx, path) then Reply(s, Some(NotFound))
      else if s.tasks[path.taskId].status in {Approved, Rejected} then Reply(s, Some(ReviewTaskTerminal))
      else if s.tasks[path.taskId].owner != ctx.principal.membershipId then Reply(s, Some(ReviewTaskNotOwned))
      else if Strip(text) == "" then Reply(s, Some(RejectionReasonRequired))
      else Reply(WithRejection(s, ctx, path, text), None)
  {
    hide Inv, RejectGuard, RejectNext, WithRejection, Strip, Handle;
    var r := Request(ctx, Reject(path, text));
    RejectGuarded(policy, s, ctx, path, text);
    Answered(policy, s, r);
    if RejectGuard(s, ctx, path, text).None? {
      RejectCommits(s, ctx, path, text);
    }
  }

  lemma RejectGuarded(policy: Policy, s: Store, ctx: Context, path: TaskPath, text: string)
    requires Inv(policy, s)
    ensures RejectGuard(s, ctx, path, text) ==
      if !Reviews(ctx, path.clientId) then Some(Forbidden)
      else if !NamesTask(s, ctx, path) then Some(NotFound)
      else if s.tasks[path.taskId].status in {Approved, Rejected} then Some(ReviewTaskTerminal)
      else if s.tasks[path.taskId].owner != ctx.principal.membershipId then Some(ReviewTaskNotOwned)
      else if Strip(text) == "" then Some(RejectionReasonRequired)
      else None
  {
    hide Inv, OutcomeOf, Strip, CanTransition;
    UnreachableReviewGuards(policy, s, ctx, path, 0, text);
  }
}
