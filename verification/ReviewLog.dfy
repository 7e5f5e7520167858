/** A review task's comment log, and the task state it replays to. */
module ReviewLog {
  import opened Prelude
  import opened ReviewPolicy
  import opened Store
  import opened ReviewCalls

  /** What the log determines of a task; senior is the owner its escalation named. */
  datatype TaskView = TaskView(status: TaskStatus, escalation: EscalationState, senior: Option<Id>)

  const NEW_TASK := TaskView(Open, NotEscalated, None)

  function Resumed(escalation: EscalationState): TaskStatus {
    if escalation == SeniorReview then Escalated else Open
  }

  function AfterComment(view: TaskView, c: Comment): TaskView {
    match c.kind
    case PlainComment => view
    case EscalationReason => TaskView(Escalated, SeniorReview, c.assignedSenior)
    case InformationRequest => view.(status := InformationRequested)
    case InformationResponse => view.(status := Resumed(view.escalation))
  }

  function Replay(log: seq<Comment>): TaskView {
    if log == [] then NEW_TASK else AfterComment(Replay(log[..|log| - 1]), log[|log| - 1])
  }

  /** Which comment may come next. */
  predicate MayFollow(view: TaskView, c: Comment) {
    match c.kind
    case PlainComment => true
    case EscalationReason => view.status == Open && view.escalation == NotEscalated && c.assignedSenior.Some?
    case InformationRequest => view.status == Open || view.status == Escalated
    case InformationResponse => view.status == InformationRequested
  }

  predicate LegalLog(log: seq<Comment>) {
    log == [] ||
    (LegalLog(log[..|log| - 1]) && MayFollow(Replay(log[..|log| - 1]), log[|log| - 1]))
  }

  function Resolved(view: TaskView, outcome: Option<ReviewOutcome>): TaskView {
    match outcome
    case None => view
    case Some(o) => view.(status := if o.IsApproval() then Approved else Rejected)
  }

  function Count(log: seq<Comment>, kind: CommentKind): nat {
    if log == [] then 0
    else Count(log[..|log| - 1], kind) + if log[|log| - 1].kind == kind then 1 else 0
  }

  lemma LogAppend(log: seq<Comment>, c: Comment)
    ensures Replay(log + [c]) == AfterComment(Replay(log), c)
    ensures LegalLog(log + [c]) <==> LegalLog(log) && MayFollow(Replay(log), c)
  {
    assert (log + [c])[..|log|] == log;
  }

  /** In a legal log: escalation happens at most once and is what the escalation state
      records; requests lead responses by one exactly while information is awaited. */
  lemma {:induction false} LogCounts(log: seq<Comment>)
    requires LegalLog(log)
    ensures !IsTerminal(Replay(log).status)
    ensures Count(log, EscalationReason) == if Replay(log).escalation == SeniorReview then 1 else 0
    ensures Replay(log).escalation == SeniorReview <==> Replay(log).senior.Some?
    ensures Replay(log).status == Open ==> Replay(log).escalation == NotEscalated
    ensures Replay(log).status == Escalated ==> Replay(log).escalation == SeniorReview
    ensures Count(log, InformationRequest) ==
      Count(log, InformationResponse) + if Replay(log).status == InformationRequested then 1 else 0
  {
    if log != [] {
      LogCounts(log[..|log| - 1]);
    }
  }

  /** Every prefix of a legal log is legal, so the counts hold all along the log. */
  lemma {:induction false} LegalPrefix(log: seq<Comment>, n: nat)
    requires LegalLog(log) && n <= |log|
    ensures LegalLog(log[..n])
  {
    if n < |log| {
      LegalPrefix(log[..|log| - 1], n);
      assert log[..|log| - 1][..n] == log[..n];
    } else {
      assert log[..n] == log;
    }
  }

  /** The request at position k is the newest and nothing but plain comments follow it. */
  ghost predicate IsUnanswered(log: seq<Comment>, k: nat) {
    k < |log| && log[k].kind == InformationRequest &&
    forall j | k < j < |log| :: log[j].kind == PlainComment
  }

  /** While information is awaited, the newest request exists and is the one unanswered request. */
  lemma {:induction false} AwaitedRequest(log: seq<Comment>) returns (k: nat)
    requires LegalLog(log) && Replay(log).status == InformationRequested
    ensures IsUnanswered(log, k) && LatestRequest(log) == Some(log[k])
  {
    var n := |log| - 1;
    if log[n].kind == InformationRequest {
      k := n;
    } else {
      LogCounts(log[..n]);
      k := AwaitedRequest(log[..n]);
    }
  }

  /** Strict alternation: before any request, as many responses as requests; before any
      response, exactly one request more. */
  lemma Alternation(log: seq<Comment>, k: nat)
    requires LegalLog(log) && k < |log|
    ensures log[k].kind == InformationRequest ==>
      Count(log[..k], InformationRequest) == Count(log[..k], InformationResponse)
    ensures log[k].kind == InformationResponse ==>
      Count(log[..k], InformationRequest) == Count(log[..k], InformationResponse) + 1
  {
    LegalPrefix(log, k + 1);
    assert log[..k + 1][..k] == log[..k];
    LogCounts(log[..k]);
  }

  lemma {:induction false} NoComments(comments: seq<Comment>, taskId: Id)
    requires forall k | 0 <= k < |comments| :: comments[k].taskId != taskId
    ensures CommentsFor(comments, taskId) == []
  {
    if comments != [] {
      NoComments(comments[..|comments| - 1], taskId);
    }
  }

  lemma CommentsAppend(comments: seq<Comment>, c: Comment, taskId: Id)
    ensures CommentsFor(comments + [c], taskId) ==
      if c.taskId == taskId then CommentsFor(comments, taskId) + [c] else CommentsFor(comments, taskId)
  {
    assert (comments + [c])[..|comments|] == comments;
  }
}
