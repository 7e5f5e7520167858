/** The front end's action gates, against what the services accept. */
module ActionPolicy {
  import opened Prelude
  import opened Text
  import opened Engine
  import opened ReviewPolicy
  import opened Identity
  import opened Store
  import opened Targets
  import opened EvidenceCalls
  import opened ReviewCalls
  import opened EvidenceInvariant
  import opened ReviewInvariant
  import opened ReconciliationInvariant
  import opened System
  import opened Reachability
  import opened TaskHistories

  // ----- the gates

  predicate IsTerminalTask(task: Option<ReviewTask>) {
    task.Some? && (task.value.status == Approved || task.value.status == Rejected)
  }

  predicate CanApproveOrdinary(
      principal: Option<Principal>, task: Option<ReviewTask>, journal: Option<Journal>, isStale: bool)
  {
    principal.Some? && task.Some? && !IsTerminalTask(task) && !isStale &&
    (principal.value.role == Accountant || principal.value.role == SeniorReviewer) &&
    ApproveOrdinaryTransaction in principal.value.permissions &&
    task.value.owner == principal.value.membershipId && task.value.status == Open &&
    task.value.risk == Ordinary && journal.Some? && journal.value.isBalanced
  }

  predicate CanApproveSenior(
      principal: Option<Principal>, task: Option<ReviewTask>, journal: Option<Journal>, isStale: bool)
  {
    principal.Some? && task.Some? && !IsTerminalTask(task) && !isStale &&
    principal.value.role == SeniorReviewer && ApproveHighRiskTransaction in principal.value.permissions &&
    task.value.owner == principal.value.membershipId && task.value.status == Escalated &&
    task.value.escalation == SeniorReview && task.value.risk == SeniorRequired &&
    journal.Some? && journal.value.isBalanced
  }

  predicate CanEscalate(principal: Option<Principal>, task: Option<ReviewTask>) {
    principal.Some? && task.Some? && !IsTerminalTask(task) &&
    (principal.value.role == Accountant || principal.value.role == SeniorReviewer) &&
    EscalateTransaction in principal.value.permissions &&
    task.value.owner == principal.value.membershipId && task.value.status == Open
  }

  predicate CanRequestInformation(principal: Option<Principal>, task: Option<ReviewTask>) {
    principal.Some? && task.Some? && !IsTerminalTask(task) &&
    (principal.value.role == Accountant || principal.value.role == SeniorReviewer) &&
    Permission.RequestInformation in principal.value.permissions &&
    task.value.owner == principal.value.membershipId &&
    (task.value.status == Open || task.value.status == Escalated)
  }

  predicate CanReject(principal: Option<Principal>, task: Option<ReviewTask>) {
    principal.Some? && task.Some? && !IsTerminalTask(task) &&
    (principal.value.role == Accountant || principal.value.role == SeniorReviewer) &&
    RejectTransaction in principal.value.permissions &&
    task.value.owner == principal.value.membershipId &&
    (task.value.status == Open || task.value.status == Escalated ||
     task.value.status == TaskStatus.InformationRequested)
  }

  predicate CanComment(principal: Option<Principal>, task: Option<ReviewTask>) {
    principal.Some? && task.Some? && !IsTerminalTask(task) &&
    (principal.value.role == Accountant || principal.value.role == SeniorReviewer) &&
    AddReviewComment in principal.value.permissions &&
    (task.value.status == Open || task.value.status == Escalated ||
     task.value.status == TaskStatus.InformationRequested)
  }

  // ----- what the browser shows

  /** A principal from the role table, with access, looking at a task. */
  predicate OnScreen(s: Store, ctx: Context, path: TaskPath) {
    ctx.principal.permissions == PermissionsForRole(ctx.principal.role) &&
    ctx.HasAccess(path.clientId) && IsTaskFor(s, ctx.principal.firmId, path)
  }

  ghost predicate Shown(policy: Policy, s: Store, ctx: Context, path: TaskPath) {
    Inv(policy, s) && OnScreen(s, ctx, path)
  }

  /** The task and journal on screen, and a truthful stale flag. */
  function ShownTask(s: Store, path: TaskPath): Option<ReviewTask> {
    if path.taskId < |s.tasks| then Some(s.tasks[path.taskId]) else None
  }

  function ShownJournal(s: Store, path: TaskPath): Option<Journal> {
    JournalOf(s.decisions, path.decisionRunId)
  }

  predicate ShownStale(s: Store, path: TaskPath) {
    path.decisionRunId < |s.decisions| &&
    IsStale(s.corrections, path.extractionRunId, s.decisions[path.decisionRunId].createdAt)
  }

  /** The one case the browser withholds and approve accepts: an escalated ordinary task. */
  predicate EscalatedOrdinary(s: Store, principal: Principal, path: TaskPath) {
    path.taskId < |s.tasks| && IsReviewer(principal.role) && !ShownStale(s, path) &&
    s.tasks[path.taskId].status == Escalated && s.tasks[path.taskId].risk == Ordinary &&
    s.tasks[path.taskId].owner == principal.membershipId
  }

  // ----- agreement

  lemma TaskFacts(policy: Policy, s: Store, path: TaskPath)
    requires Inv(policy, s) && path.taskId < |s.tasks| && s.tasks[path.taskId].decisionRunId == path.decisionRunId
    ensures var t := s.tasks[path.taskId];
      && path.decisionRunId < |s.decisions| && ConsistentTask(t)
      && (t.risk != Blocked ==>
          ShownJournal(s, path).Some? && ShownJournal(s, path).value.isBalanced)
  {
    hide EvidenceInv, ReconciliationInv, LogReplays, HasError, HasSeniorCode;
    assert ValidTask(s.decisions, s.tasks[path.taskId]);
  }

  /** The ordinary button is offered exactly when approve accepts an open ordinary task, the senior
      one exactly when it accepts a task at senior risk; and it accepts in exactly one other case. */
  lemma ApprovalGate(policy: Policy, s: Store, ctx: Context, path: TaskPath)
    requires Shown(policy, s, ctx, path)
    ensures var principal, task, journal, stale :=
        Some(ctx.principal), ShownTask(s, path), ShownJournal(s, path), ShownStale(s, path);
      && (ApproveGuard(s, ctx, path).None? <==>
          || CanApproveOrdinary(principal, task, journal, stale)
          || CanApproveSenior(principal, task, journal, stale)
          || EscalatedOrdinary(s, ctx.principal, path))
      && (CanApproveOrdinary(principal, task, journal, stale) <==>
            ApproveGuard(s, ctx, path).None? && s.tasks[path.taskId].status == Open &&
            s.tasks[path.taskId].risk == Ordinary)
      && (CanApproveSenior(principal, task, journal, stale) <==>
            ApproveGuard(s, ctx, path).None? && s.tasks[path.taskId].risk == SeniorRequired)
  {
    hide Inv, ApproveGuard, IsStale, JournalOf;
    ApprovalExact(policy, s, ctx, path);
    TaskFacts(policy, s, path);
  }

  lemma RejectGate(s: Store, ctx: Context, path: TaskPath, text: string)
    requires OnScreen(s, ctx, path)
    requires RejectGuard(s, ctx, path, text) !in {Some(InvalidReviewTaskTransition), Some(ReviewOutcomeExists)}
    ensures RejectGuard(s, ctx, path, text).None? <==>
      CanReject(Some(ctx.principal), ShownTask(s, path)) && Strip(text) != ""
  {
    hide OutcomeOf, Strip, CanTransition;
  }

  lemma CommentGate(s: Store, ctx: Context, path: TaskPath, text: string)
    requires OnScreen(s, ctx, path)
    ensures AddCommentGuard(s, ctx, path, text).None? <==>
      CanComment(Some(ctx.principal), ShownTask(s, path)) && Strip(text) != ""
  {
    hide Strip;
  }

  lemma RequestGate(s: Store, ctx: Context, path: TaskPath, text: string)
    requires OnScreen(s, ctx, path)
    requires RequestInformationGuard(s, ctx, path, text) != Some(InvalidReviewTaskTransition)
    ensures RequestInformationGuard(s, ctx, path, text).None? <==>
      CanRequestInformation(Some(ctx.principal), ShownTask(s, path)) && Strip(text) != ""
  {
    hide Strip, CanTransition;
  }

  lemma EscalateGate(s: Store, ctx: Context, path: TaskPath, senior: Id, text: string)
    requires OnScreen(s, ctx, path)
    requires EscalateGuard(s, ctx, path, senior, text) != Some(InvalidReviewTaskTransition)
    ensures EscalateGuard(s, ctx, path, senior, text).None? <==>
      CanEscalate(Some(ctx.principal), ShownTask(s, path)) && Strip(text) != "" &&
      CanOwn(ctx.directory, ctx.principal.firmId, path.clientId, senior, true)
  {
    hide Strip, CanTransition, CanOwn;
  }

  /** The other gates agree with the services exactly, given the text and senior they ask for. */
  lemma ActionGates(policy: Policy, s: Store, ctx: Context, path: TaskPath, senior: Id, text: string)
    requires Shown(policy, s, ctx, path)
    ensures var principal, task := Some(ctx.principal), ShownTask(s, path);
      && (RejectGuard(s, ctx, path, text).None? <==> CanReject(principal, task) && Strip(text) != "")
      && (AddCommentGuard(s, ctx, path, text).None? <==> CanComment(principal, task) && Strip(text) != "")
      && (RequestInformationGuard(s, ctx, path, text).None? <==>
            CanRequestInformation(principal, task) && Strip(text) != "")
      && (EscalateGuard(s, ctx, path, senior, text).None? <==>
            CanEscalate(principal, task) && Strip(text) != "" &&
            CanOwn(ctx.directory, ctx.principal.firmId, path.clientId, senior, true))
  {
    hide Inv, IsTaskFor, RejectGuard, AddCommentGuard, RequestInformationGuard, EscalateGuard, CanReject, CanComment,
      CanRequestInformation, CanEscalate, CanOwn, ShownTask, Strip;
    UnreachableReviewGuards(policy, s, ctx, path, senior, text);
    RejectGate(s, ctx, path, text);
    CommentGate(s, ctx, path, text);
    RequestGate(s, ctx, path, text);
    EscalateGate(s, ctx, path, senior, text);
  }

  /** An action the browser offers on a task, with the text and senior it asks for. */
  predicate Offered(s: Store, ctx: Context, path: TaskPath, call: Call) {
    var principal, task := Some(ctx.principal), ShownTask(s, path);
    var journal, stale := ShownJournal(s, path), ShownStale(s, path);
    match call
    case Approve(on, _) => on == path &&
      (CanApproveOrdinary(principal, task, journal, stale) || CanApproveSenior(principal, task, journal, stale))
    case Reject(on, text) => on == path && CanReject(principal, task) && Strip(text) != ""
    case AddComment(on, text) => on == path && CanComment(principal, task) && Strip(text) != ""
    case RequestInformation(on, text) => on == path && CanRequestInformation(principal, task) && Strip(text) != ""
    case Escalate(on, senior, text) => on == path && CanEscalate(principal, task) && Strip(text) != "" &&
      CanOwn(ctx.directory, ctx.principal.firmId, path.clientId, senior, true)
    case _ => false
  }

  /** Every offered action, once taken, is committed. */
  lemma OfferedActionsCommit(policy: Policy, s: Store, ctx: Context, path: TaskPath, call: Call)
    requires Shown(policy, s, ctx, path) && Offered(s, ctx, path, call)
    ensures Handle(policy, s, Request(ctx, call)).error.None?
  {
    hide Inv, ApproveGuard, RejectGuard, AddCommentGuard, RequestInformationGuard, EscalateGuard, Handle,
      CanApproveOrdinary, CanApproveSenior, CanReject, CanComment, CanRequestInformation, CanEscalate, CanOwn,
      ShownStale, ShownJournal, ShownTask, Strip;
    match call {
      case Approve(_, _) => ApprovalGate(policy, s, ctx, path);
      case Reject(_, text) => ActionGates(policy, s, ctx, path, 0, text);
      case AddComment(_, text) => ActionGates(policy, s, ctx, path, 0, text);
      case RequestInformation(_, text) => ActionGates(policy, s, ctx, path, 0, text);
      case Escalate(_, senior, text) => ActionGates(policy, s, ctx, path, senior, text);
    }
    GuardsSuffice(policy, s, Request(ctx, call));
  }
}
