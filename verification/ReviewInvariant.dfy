/** What every reachable state keeps about review tasks, comments and outcomes. */
module ReviewInvariant {
  import opened Prelude
  import opened EffectiveValues
  import opened ReviewPolicy
  import opened Identity
  import opened Store
  import opened EvidenceCalls
  import opened ReviewCalls
  import opened ReviewLog

  // ----- tasks

  /** A task reviews one succeeded decision, within its scope, at the risk it classifies to. */
  predicate ValidTask(decisions: seq<DecisionRun>, t: ReviewTask) {
    t.decisionRunId < |decisions| && ConsistentTask(t) &&
    var d := decisions[t.decisionRunId];
    d.Succeeded() && t.firmId == d.firmId && t.clientId == d.clientId && t.documentId == d.documentId &&
    t.extractionRunId == d.extractionRunId && t.risk == ClassifyReviewRisk(d.Findings(), d.Journal())
  }

  predicate Shows(t: ReviewTask, view: TaskView) {
    t.status == view.status && t.escalation == view.escalation &&
    (view.senior.Some? ==> t.owner == view.senior.value)
  }

  /** The task's row is what its comment log and its outcome replay to. */
  predicate LogReplays(comments: seq<Comment>, outcomes: seq<ReviewOutcome>, t: ReviewTask, taskId: Id) {
    LegalLog(CommentsFor(comments, taskId)) &&
    Shows(t, Resolved(Replay(CommentsFor(comments, taskId)), OutcomeOf(outcomes, taskId)))
  }

  // ----- outcomes

  predicate SameScope(o: ReviewOutcome, t: ReviewTask) {
    o.firmId == t.firmId && o.clientId == t.clientId && o.documentId == t.documentId &&
    o.extractionRunId == t.extractionRunId && o.decisionRunId == t.decisionRunId
  }

  /** What approval established and every later step keeps. */
  predicate SoundApproval(
      corrections: seq<Correction>, decisions: seq<DecisionRun>, t: ReviewTask, o: ReviewOutcome)
  {
    t.decisionRunId < |decisions| &&
    var d := decisions[t.decisionRunId];
    d.Journal().Some? && d.Journal().value.isBalanced && t.risk != Blocked &&
    !IsStale(corrections, t.extractionRunId, d.createdAt) &&
    o.journalId == Some(t.decisionRunId) &&
    o.correctionCount == |CorrectionsFor(corrections, t.extractionRunId)| &&
    (o.outcomeType == CorrectedAndApproved <==> o.correctionCount > 0) &&
    (t.risk == SeniorRequired ==> o.actorRole == SeniorReviewer && t.escalation == SeniorReview)
  }

  predicate ValidOutcome(
      corrections: seq<Correction>, decisions: seq<DecisionRun>, tasks: seq<ReviewTask>, o: ReviewOutcome)
  {
    o.taskId < |tasks| && SameScope(o, tasks[o.taskId]) && o.actor == tasks[o.taskId].owner &&
    IsReviewer(o.actorRole) && ResolvedOutcome(o) &&
    (o.IsApproval() ==> SoundApproval(corrections, decisions, tasks[o.taskId], o))
  }

  predicate ValidComment(tasks: seq<ReviewTask>, c: Comment) {
    c.taskId < |tasks| && c.body != ""
  }

  // ----- the invariant

  ghost predicate TasksInv(
      decisions: seq<DecisionRun>, tasks: seq<ReviewTask>, comments: seq<Comment>, outcomes: seq<ReviewOutcome>)
  {
    (forall i | 0 <= i < |tasks| :: ValidTask(decisions, tasks[i])) &&
    (forall i, j | 0 <= i < j < |tasks| :: tasks[i].decisionRunId != tasks[j].decisionRunId) &&
    (forall i | 0 <= i < |tasks| :: LogReplays(comments, outcomes, tasks[i], i)) &&
    (forall k | 0 <= k < |comments| :: ValidComment(tasks, comments[k]))
  }

  ghost predicate OutcomesInv(
      corrections: seq<Correction>, decisions: seq<DecisionRun>, tasks: seq<ReviewTask>,
      outcomes: seq<ReviewOutcome>)
  {
    (forall j | 0 <= j < |outcomes| :: ValidOutcome(corrections, decisions, tasks, outcomes[j])) &&
    (forall i, j | 0 <= i < j < |outcomes| :: outcomes[i].taskId != outcomes[j].taskId)
  }

  ghost predicate ReviewInv(s: Store) {
    TasksInv(s.decisions, s.tasks, s.comments, s.outcomes) &&
    OutcomesInv(s.corrections, s.decisions, s.tasks, s.outcomes)
  }

  // ----- looking up outcomes

  lemma {:induction false} NoOutcome(outcomes: seq<ReviewOutcome>, taskId: Id)
    requires OutcomeOf(outcomes, taskId).None?
    ensures forall j | 0 <= j < |outcomes| :: outcomes[j].taskId != taskId
  {
    if outcomes != [] {
      NoOutcome(outcomes[..|outcomes| - 1], taskId);
    }
  }

  lemma {:induction false} OutcomeAbsent(outcomes: seq<ReviewOutcome>, taskId: Id)
    requires forall j | 0 <= j < |outcomes| :: outcomes[j].taskId != taskId
    ensures OutcomeOf(outcomes, taskId).None?
  {
    if outcomes != [] {
      OutcomeAbsent(outcomes[..|outcomes| - 1], taskId);
    }
  }

  lemma OutcomeAppend(outcomes: seq<ReviewOutcome>, o: ReviewOutcome, taskId: Id)
    ensures OutcomeOf(outcomes + [o], taskId) == if o.taskId == taskId then Some(o) else OutcomeOf(outcomes, taskId)
  {
    assert (outcomes + [o])[..|outcomes|] == outcomes;
  }

  /** A task is terminal exactly when it has an outcome. */
  lemma TerminalIffResolved(s: Store, taskId: Id)
    requires ReviewInv(s) && taskId < |s.tasks|
    ensures IsTerminal(s.tasks[taskId].status) <==> OutcomeOf(s.outcomes, taskId).Some?
  {
    assert LogReplays(s.comments, s.outcomes, s.tasks[taskId], taskId);
    LogCounts(CommentsFor(s.comments, taskId));
  }

  // ----- corrections and decisions growing

  lemma CorrectionsAppend(corrections: seq<Correction>, c: Correction, runId: Id)
    ensures CorrectionsFor(corrections + [c], runId) ==
      CorrectionsFor(corrections, runId) + if c.runId == runId then [c] else []
  {
    assert (corrections + [c])[..|corrections|] == corrections;
  }

  lemma CorrectKeepsReview(s: Store, next: Store, c: Correction)
    requires ReviewInv(s) && !HasApprovedOutcome(s.outcomes, c.runId)
    requires next.corrections == s.corrections + [c] && next.decisions == s.decisions
    requires next.tasks == s.tasks && next.comments == s.comments && next.outcomes == s.outcomes
    ensures ReviewInv(next)
  {
    forall j | 0 <= j < |s.outcomes|
      ensures ValidOutcome(next.corrections, s.decisions, s.tasks, s.outcomes[j])
    {
      var o := s.outcomes[j];
      assert ValidOutcome(s.corrections, s.decisions, s.tasks, o);
      if o.IsApproval() {
        assert !IsApprovalOf(o, c.runId);
        CorrectionsAppend(s.corrections, c, o.extractionRunId);
        StaleAppend(s.corrections, c, o.extractionRunId, s.decisions[o.decisionRunId].createdAt);
      }
    }
  }

  lemma StaleAppend(corrections: seq<Correction>, c: Correction, runId: Id, decidedAt: nat)
    requires c.runId != runId && !IsStale(corrections, runId, decidedAt)
    ensures !IsStale(corrections + [c], runId, decidedAt)
  {
  }

  lemma DecideKeepsReview(s: Store, next: Store)
    requires ReviewInv(s) && s.decisions <= next.decisions
    requires next.corrections == s.corrections
    requires next.tasks == s.tasks && next.comments == s.comments && next.outcomes == s.outcomes
    ensures ReviewInv(next)
  {
    forall i | 0 <= i < |s.tasks|
      ensures ValidTask(next.decisions, s.tasks[i])
    {
      assert ValidTask(s.decisions, s.tasks[i]);
    }
    forall j | 0 <= j < |s.outcomes|
      ensures ValidOutcome(next.corrections, next.decisions, s.tasks, s.outcomes[j])
    {
      assert ValidOutcome(s.corrections, s.decisions, s.tasks, s.outcomes[j]);
    }
  }

  // ----- new tasks

  lemma CreateKeepsReview(s: Store, next: Store, t: ReviewTask)
    requires ReviewInv(s) && !HasTaskFor(s.tasks, t.decisionRunId)
    requires ValidTask(s.decisions, t) && t.status == Open && t.escalation == NotEscalated
    requires next.tasks == s.tasks + [t] && next.decisions == s.decisions && next.corrections == s.corrections
    requires next.comments == s.comments && next.outcomes == s.outcomes
    ensures ReviewInv(next)
  {
    hide SoundApproval, ConsistentTask, ClassifyReviewRisk, LogReplays;
    var n := |s.tasks|;
    forall k | 0 <= k < |s.comments|
      ensures ValidComment(next.tasks, s.comments[k])
    {
      assert ValidComment(s.tasks, s.comments[k]);
    }
    forall j | 0 <= j < |s.outcomes|
      ensures ValidOutcome(s.corrections, s.decisions, next.tasks, s.outcomes[j])
    {
      assert ValidOutcome(s.corrections, s.decisions, s.tasks, s.outcomes[j]);
    }
    FreshTaskReplays(s, t);
    forall i, j | 0 <= i < j < |next.tasks|
      ensures next.tasks[i].decisionRunId != next.tasks[j].decisionRunId
    {
      assert s.tasks[i].decisionRunId != t.decisionRunId;
    }
  }

  lemma FreshTaskReplays(s: Store, t: ReviewTask)
    requires ReviewInv(s) && t.status == Open && t.escalation == NotEscalated
    ensures LogReplays(s.comments, s.outcomes, t, |s.tasks|)
  {
    var n := |s.tasks|;
    forall k | 0 <= k < |s.comments|
      ensures s.comments[k].taskId != n
    {
      assert ValidComment(s.tasks, s.comments[k]);
    }
    forall j | 0 <= j < |s.outcomes|
      ensures s.outcomes[j].taskId != n
    {
      assert ValidOutcome(s.corrections, s.decisions, s.tasks, s.outcomes[j]);
    }
    NoComments(s.comments, n);
    OutcomeAbsent(s.outcomes, n);
  }

  // ----- comments and outcomes

  /** The columns no review call changes. */
  predicate SameSubject(t: ReviewTask, u: ReviewTask) {
    t.firmId == u.firmId && t.clientId == u.clientId && t.documentId == u.documentId &&
    t.extractionRunId == u.extractionRunId && t.decisionRunId == u.decisionRunId && t.risk == u.risk
  }

  lemma CommentKeepsLogs(s: Store, next: Store, taskId: Id, c: Comment, t: ReviewTask)
    requires ReviewInv(s) && taskId < |s.tasks| && !IsTerminal(s.tasks[taskId].status) && c.taskId == taskId
    requires var view := Replay(CommentsFor(s.comments, taskId));
      Shows(s.tasks[taskId], view) && LegalLog(CommentsFor(s.comments, taskId)) ==>
        MayFollow(view, c) && Shows(t, AfterComment(view, c))
    requires next.tasks == s.tasks[taskId := t] && next.comments == s.comments + [c] && next.outcomes == s.outcomes
    ensures forall i | 0 <= i < |next.tasks| :: LogReplays(next.comments, next.outcomes, next.tasks[i], i)
  {
    hide ClassifyReviewRisk, ValidOutcome, ValidTask, MayFollow, AfterComment, Replay, LegalLog, CommentsFor, OutcomeOf;
    TerminalIffResolved(s, taskId);
    forall i | 0 <= i < |s.tasks|
      ensures LogReplays(next.comments, s.outcomes, next.tasks[i], i)
    {
      assert LogReplays(s.comments, s.outcomes, s.tasks[i], i);
      CommentsAppend(s.comments, c, i);
      LogAppend(CommentsFor(s.comments, i), c);
    }
  }

  lemma UpdatedTasksValid(s: Store, tasks: seq<ReviewTask>, taskId: Id, t: ReviewTask)
    requires ReviewInv(s) && taskId < |s.tasks| && tasks == s.tasks[taskId := t]
    requires SameSubject(s.tasks[taskId], t) && ConsistentTask(t)
    ensures forall i | 0 <= i < |tasks| :: ValidTask(s.decisions, tasks[i])
    ensures forall i, j | 0 <= i < j < |tasks| :: tasks[i].decisionRunId != tasks[j].decisionRunId
  {
    hide ClassifyReviewRisk, LogReplays, ValidOutcome, ValidComment, ConsistentTask;
    forall i | 0 <= i < |tasks|
      ensures ValidTask(s.decisions, tasks[i]) && tasks[i].decisionRunId == s.tasks[i].decisionRunId
    {
      assert ValidTask(s.decisions, s.tasks[i]);
    }
  }

  lemma UpdatedCommentsValid(s: Store, tasks: seq<ReviewTask>)
    requires ReviewInv(s) && |tasks| == |s.tasks|
    ensures forall k | 0 <= k < |s.comments| :: ValidComment(tasks, s.comments[k])
  {
    hide ValidTask, LogReplays, ValidOutcome;
    forall k | 0 <= k < |s.comments|
      ensures ValidComment(tasks, s.comments[k])
    {
      assert ValidComment(s.tasks, s.comments[k]);
    }
  }

  lemma UpdatedOutcomesValid(s: Store, tasks: seq<ReviewTask>, taskId: Id, t: ReviewTask)
    requires ReviewInv(s) && taskId < |s.tasks| && tasks == s.tasks[taskId := t]
    requires OutcomeOf(s.outcomes, taskId).None?
    ensures OutcomesInv(s.corrections, s.decisions, tasks, s.outcomes)
  {
    hide ValidTask, LogReplays, ValidComment, SoundApproval, OutcomeOf;
    NoOutcome(s.outcomes, taskId);
    forall j | 0 <= j < |s.outcomes|
      ensures ValidOutcome(s.corrections, s.decisions, tasks, s.outcomes[j])
    {
      assert ValidOutcome(s.corrections, s.decisions, s.tasks, s.outcomes[j]);
    }
  }

  lemma TasksAssembled(
      decisions: seq<DecisionRun>, tasks: seq<ReviewTask>, comments: seq<Comment>, c: Comment,
      outcomes: seq<ReviewOutcome>)
    requires forall i | 0 <= i < |tasks| :: ValidTask(decisions, tasks[i])
    requires forall i, j | 0 <= i < j < |tasks| :: tasks[i].decisionRunId != tasks[j].decisionRunId
    requires forall i | 0 <= i < |tasks| :: LogReplays(comments + [c], outcomes, tasks[i], i)
    requires forall k | 0 <= k < |comments| :: ValidComment(tasks, comments[k])
    requires ValidComment(tasks, c)
    ensures TasksInv(decisions, tasks, comments + [c], outcomes)
  {
    hide ValidTask, LogReplays;
  }

  /** A call that logs a comment moves the task exactly as replaying the comment does. */
  lemma CommentKeepsReview(s: Store, next: Store, taskId: Id, c: Comment, t: ReviewTask)
    requires ReviewInv(s) && taskId < |s.tasks| && !IsTerminal(s.tasks[taskId].status)
    requires c.taskId == taskId && c.body != ""
    requires SameSubject(s.tasks[taskId], t) && ConsistentTask(t)
    requires var view := Replay(CommentsFor(s.comments, taskId));
      Shows(s.tasks[taskId], view) && LegalLog(CommentsFor(s.comments, taskId)) ==>
        MayFollow(view, c) && Shows(t, AfterComment(view, c))
    requires next.tasks == s.tasks[taskId := t] && next.comments == s.comments + [c]
    requires next.decisions == s.decisions && next.corrections == s.corrections && next.outcomes == s.outcomes
    ensures ReviewInv(next)
  {
    hide TasksInv, OutcomesInv, ValidTask, LogReplays, OutcomeOf, MayFollow, AfterComment;
    CommentKeepsLogs(s, next, taskId, c, t);
    TerminalIffResolved(s, taskId);
    UpdatedTasksValid(s, next.tasks, taskId, t);
    UpdatedCommentsValid(s, next.tasks);
    UpdatedOutcomesValid(s, next.tasks, taskId, t);
    TasksAssembled(s.decisions, next.tasks, s.comments, c, s.outcomes);
  }

  lemma ResolveKeepsLogs(s: Store, next: Store, taskId: Id, o: ReviewOutcome, t: ReviewTask)
    requires ReviewInv(s) && taskId < |s.tasks| && OutcomeOf(s.outcomes, taskId).None?
    requires t == s.tasks[taskId].(status := t.status, updatedAt := t.updatedAt) && o.taskId == taskId
    requires t.status == if o.IsApproval() then Approved else Rejected
    requires next.tasks == s.tasks[taskId := t] && next.outcomes == s.outcomes + [o] && next.comments == s.comments
    ensures forall i | 0 <= i < |next.tasks| :: LogReplays(next.comments, next.outcomes, next.tasks[i], i)
  {
    hide ValidTask, ValidOutcome, ValidComment, Replay, LegalLog, CommentsFor, OutcomeOf;
    forall i | 0 <= i < |s.tasks|
      ensures LogReplays(s.comments, next.outcomes, next.tasks[i], i)
    {
      assert LogReplays(s.comments, s.outcomes, s.tasks[i], i);
      OutcomeAppend(s.outcomes, o, i);
    }
  }

  lemma ResolveKeepsReview(s: Store, next: Store, taskId: Id, o: ReviewOutcome, t: ReviewTask)
    requires ReviewInv(s) && taskId < |s.tasks| && !IsTerminal(s.tasks[taskId].status)
    requires t == s.tasks[taskId].(status := t.status, updatedAt := t.updatedAt)
    requires t.status == if o.IsApproval() then Approved else Rejected
    requires o.taskId == taskId && ValidOutcome(s.corrections, s.decisions, next.tasks, o)
    requires next.tasks == s.tasks[taskId := t] && next.outcomes == s.outcomes + [o]
    requires next.decisions == s.decisions && next.corrections == s.corrections && next.comments == s.comments
    ensures ReviewInv(next)
  {
    TerminalIffResolved(s, taskId);
    NoOutcome(s.outcomes, taskId);
    ResolveKeepsLogs(s, next, taskId, o, t);
    assert ValidTask(s.decisions, s.tasks[taskId]);
    UpdatedTasksValid(s, next.tasks, taskId, t);
    UpdatedCommentsValid(s, next.tasks);
    UpdatedOutcomesValid(s, next.tasks, taskId, t);
    hide ReviewInv, ValidTask, LogReplays, ValidOutcome, ValidComment, OutcomeOf;
    OutcomesAssembled(s.corrections, s.decisions, next.tasks, s.outcomes, o);
    assert TasksInv(s.decisions, next.tasks, s.comments, next.outcomes);
    ReviewHolds(next);
  }

  lemma ReviewHolds(s: Store)
    requires TasksInv(s.decisions, s.tasks, s.comments, s.outcomes)
    requires OutcomesInv(s.corrections, s.decisions, s.tasks, s.outcomes)
    ensures ReviewInv(s)
  {
  }

  lemma OutcomesAssembled(
      corrections: seq<Correction>, decisions: seq<DecisionRun>, tasks: seq<ReviewTask>,
      outcomes: seq<ReviewOutcome>, o: ReviewOutcome)
    requires OutcomesInv(corrections, decisions, tasks, outcomes) && ValidOutcome(corrections, decisions, tasks, o)
    requires forall j | 0 <= j < |outcomes| :: outcomes[j].taskId != o.taskId
    ensures OutcomesInv(corrections, decisions, tasks, outcomes + [o])
  {
    hide ValidOutcome;
  }

  // ----- the review calls

  lemma CreateTaskKeeps(s: Store, ctx: Context, path: DecisionPath, owner: Option<Id>)
    requires ReviewInv(s) && CreateTaskGuard(s, ctx, path, owner).None?
    ensures ReviewInv(CreateTaskNext(s, ctx, path, owner))
  {
    hide ClassifyReviewRisk, ReviewInv;
    var next := CreateTaskNext(s, ctx, path, owner);
    CreateKeepsReview(s, next, next.tasks[|s.tasks|]);
  }

  lemma EscalateKeeps(s: Store, ctx: Context, path: TaskPath, senior: Id, reason: string)
    requires ReviewInv(s) && EscalateGuard(s, ctx, path, senior, reason).None?
    ensures ReviewInv(EscalateNext(s, ctx, path, senior, reason))
  {
    var next := EscalateNext(s, ctx, path, senior, reason);
    assert ValidTask(s.decisions, s.tasks[path.taskId]);
    CommentKeepsReview(s, next, path.taskId, next.comments[|s.comments|], next.tasks[path.taskId]);
  }

  lemma AddCommentKeeps(s: Store, ctx: Context, path: TaskPath, body: string)
    requires ReviewInv(s) && AddCommentGuard(s, ctx, path, body).None?
    ensures ReviewInv(AddCommentNext(s, ctx, path, body))
  {
    var next := AddCommentNext(s, ctx, path, body);
    assert ValidTask(s.decisions, s.tasks[path.taskId]);
    CommentKeepsReview(s, next, path.taskId, next.comments[|s.comments|], s.tasks[path.taskId]);
  }

  lemma RequestInformationKeeps(s: Store, ctx: Context, path: TaskPath, body: string)
    requires ReviewInv(s) && RequestInformationGuard(s, ctx, path, body).None?
    ensures ReviewInv(RequestInformationNext(s, ctx, path, body))
  {
    var next := RequestInformationNext(s, ctx, path, body);
    assert ValidTask(s.decisions, s.tasks[path.taskId]);
    CommentKeepsReview(s, next, path.taskId, next.comments[|s.comments|], next.tasks[path.taskId]);
  }

  lemma RespondKeeps(s: Store, ctx: Context, path: TaskPath, body: string)
    requires ReviewInv(s) && RespondGuard(s, ctx, path, body).None?
    ensures ReviewInv(RespondNext(s, ctx, path, body))
  {
    var next := RespondNext(s, ctx, path, body);
    assert ValidTask(s.decisions, s.tasks[path.taskId]);
    CommentKeepsReview(s, next, path.taskId, next.comments[|s.comments|], next.tasks[path.taskId]);
  }

  lemma ApproveKeeps(s: Store, ctx: Context, path: TaskPath, note: Option<string>)
    requires ReviewInv(s) && ApproveGuard(s, ctx, path).None?
    ensures ReviewInv(ApproveNext(s, ctx, path, note))
  {
    hide ClassifyReviewRisk;
    var next := ApproveNext(s, ctx, path, note);
    assert ValidTask(s.decisions, s.tasks[path.taskId]);
    ResolveKeepsReview(s, next, path.taskId, next.outcomes[|s.outcomes|], next.tasks[path.taskId]);
  }

  lemma RejectKeeps(s: Store, ctx: Context, path: TaskPath, reason: string)
    requires ReviewInv(s) && RejectGuard(s, ctx, path, reason).None?
    ensures ReviewInv(RejectNext(s, ctx, path, reason))
  {
    var next := RejectNext(s, ctx, path, reason);
    ResolveKeepsReview(s, next, path.taskId, next.outcomes[|s.outcomes|], next.tasks[path.taskId]);
  }
}
