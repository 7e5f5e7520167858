/** The services as one state machine: every call, its refusal or the tables it commits. */
module System {
  import opened Prelude
  import opened EffectiveValues
  import opened Engine
  import opened Store
  import opened EvidenceCalls
  import opened ReviewCalls
  import opened ReconciliationCalls

  datatype Call =
    | RecordExtraction(
        clientId: Id, documentId: Id, sourceSha: Sha256, succeeded: bool, fields: seq<ExtractedField>)
    | CorrectField(fieldPath: FieldPath, request: CorrectionRequest)
    | StartDecision(runPath: RunPath, engineRaises: bool)
    | CreateTask(decisionPath: DecisionPath, owner: Option<Id>)
    | Escalate(path: TaskPath, senior: Id, text: string)
    | AddComment(path: TaskPath, text: string)
    | RequestInformation(path: TaskPath, text: string)
    | Respond(path: TaskPath, text: string)
    | Approve(path: TaskPath, note: Option<string>)
    | Reject(path: TaskPath, text: string)
    | Import(batch: ImportBatch)
    | GenerateMatch(clientId: Id, transactionId: Id)
    | CreateReview(clientId: Id, transactionId: Id, matchRunId: Id)
    | Select(reviewPath: ReviewPath, outcomeId: Id)
    | Dispute(reviewPath: ReviewPath, text: string)
    | Reopen(reviewPath: ReviewPath, text: string)
    | ApproveMatch(reviewPath: ReviewPath, note: Option<string>)
    | MarkUnmatched(reviewPath: ReviewPath, text: string)

  /** A call together with the principal who makes it and the directory it sees. */
  datatype Request = Request(ctx: Context, call: Call)

  /** The tables after a call, and the error its caller sees, if any. */
  datatype Reply = Reply(next: Store, error: Option<ErrorCode>)

  function Guard(policy: Policy, s: Store, r: Request): Option<ErrorCode> {
    match r.call
    case RecordExtraction(clientId, _, _, succeeded, fields) =>
      RecordExtractionGuard(r.ctx, clientId, succeeded, fields)
    case CorrectField(path, request) => CorrectFieldGuard(policy.lexicon, s, r.ctx, path, request)
    case StartDecision(path, _) => StartDecisionGuard(s, r.ctx, path)
    case CreateTask(path, owner) => CreateTaskGuard(s, r.ctx, path, owner)
    case Escalate(path, senior, reason) => EscalateGuard(s, r.ctx, path, senior, reason)
    case AddComment(path, body) => AddCommentGuard(s, r.ctx, path, body)
    case RequestInformation(path, body) => RequestInformationGuard(s, r.ctx, path, body)
    case Respond(path, body) => RespondGuard(s, r.ctx, path, body)
    case Approve(path, _) => ApproveGuard(s, r.ctx, path)
    case Reject(path, reason) => RejectGuard(s, r.ctx, path, reason)
    case Import(batch) => ImportGuard(s, r.ctx, batch)
    case GenerateMatch(clientId, transactionId) => GenerateMatchGuard(s, r.ctx, clientId, transactionId)
    case CreateReview(clientId, transactionId, runId) =>
      CreateReviewGuard(s, r.ctx, clientId, transactionId, runId)
    case Select(path, outcomeId) => SelectGuard(s, r.ctx, path, outcomeId)
    case Dispute(path, reason) => DisputeGuard(s, r.ctx, path, reason)
    case Reopen(path, reason) => ReopenGuard(s, r.ctx, path, reason)
    case ApproveMatch(path, _) => ApproveMatchGuard(s, r.ctx, path)
    case MarkUnmatched(path, reason) => MarkUnmatchedGuard(s, r.ctx, path, reason)
  }

  /** The tables an unrefused call is about to commit. */
  function Next(policy: Policy, s: Store, r: Request): Store
    requires Guard(policy, s, r).None?
  {
    match r.call
    case RecordExtraction(clientId, documentId, sha, succeeded, fields) =>
      RecordExtractionNext(s, r.ctx, clientId, documentId, sha, succeeded, fields)
    case CorrectField(path, request) => CorrectFieldNext(s, r.ctx, path, request)
    case StartDecision(path, engineRaises) => StartDecisionNext(policy, s, path, engineRaises)
    case CreateTask(path, owner) => CreateTaskNext(s, r.ctx, path, owner)
    case Escalate(path, senior, reason) => EscalateNext(s, r.ctx, path, senior, reason)
    case AddComment(path, body) => AddCommentNext(s, r.ctx, path, body)
    case RequestInformation(path, body) => RequestInformationNext(s, r.ctx, path, body)
    case Respond(path, body) => RespondNext(s, r.ctx, path, body)
    case Approve(path, note) => ApproveNext(s, r.ctx, path, note)
    case Reject(path, reason) => RejectNext(s, r.ctx, path, reason)
    case Import(batch) => ImportNext(s, batch)
    case GenerateMatch(clientId, transactionId) =>
      GenerateMatchNext(policy.lexicon, s, r.ctx, clientId, transactionId)
    case CreateReview(clientId, transactionId, runId) => CreateReviewNext(s, r.ctx, clientId, transactionId, runId)
    case Select(path, outcomeId) => SelectNext(s, r.ctx, path, outcomeId)
    case Dispute(path, reason) => DisputeNext(s, r.ctx, path, reason)
    case Reopen(path, reason) => ReopenNext(s, r.ctx, path, reason)
    case ApproveMatch(path, note) => ApproveMatchNext(s, r.ctx, path, note)
    case MarkUnmatched(path, reason) => MarkUnmatchedNext(s, r.ctx, path, reason)
  }

  /** The error a call reports when its commit breaks a constraint. */
  function CommitError(call: Call): ErrorCode {
    match call
    case RecordExtraction(_, _, _, _, _) => ExtractionCommitFailed
    case CorrectField(_, _) => ExtractionCommitFailed
    case StartDecision(_, _) => DecisionPersistenceFailed
    case Import(_) => BankImportConflict
    case GenerateMatch(_, _) => ReconciliationPersistenceFailed
    case CreateReview(_, _, _) => ReconciliationReviewConflict
    case Select(_, _) => ReconciliationPersistenceConflict
    case Dispute(_, _) => ReconciliationPersistenceConflict
    case Reopen(_, _) => ReconciliationPersistenceConflict
    case ApproveMatch(_, _) => ReconciliationTerminalConflict
    case MarkUnmatched(_, _) => ReconciliationTerminalConflict
    case _ => ReviewPersistenceFailed
  }

  /** A call that got through: only a raising engine still reports an error. */
  function Outcome(call: Call): Option<ErrorCode> {
    if call.StartDecision? && call.engineRaises then Some(DecisionEngineFailed) else None
  }

  /** One call: refused by a guard, rolled back by a constraint, or committed. */
  function Handle(policy: Policy, s: Store, r: Request): Reply {
    var refused := Guard(policy, s, r);
    if refused.Some? then Reply(s, refused)
    else
      var next := Next(policy, s, r);
      if next != s && !Constraints(next) then Reply(s, Some(CommitError(r.call)))
      else Reply(next, Outcome(r.call))
  }

  /** The tables after a sequence of calls. */
  function Run(policy: Policy, s: Store, requests: seq<Request>): Store {
    if requests == [] then s
    else Handle(policy, Run(policy, s, requests[..|requests| - 1]), requests[|requests| - 1]).next
  }

  lemma {:induction false} RunConcat(policy: Policy, s: Store, first: seq<Request>, rest: seq<Request>)
    ensures Run(policy, s, first + rest) == Run(policy, Run(policy, s, first), rest)
  {
    hide Handle;
    if rest == [] {
      assert first + rest == first;
    } else {
      var n := |rest| - 1;
      assert (first + rest)[..|first + rest| - 1] == first + rest[..n];
      RunConcat(policy, s, first, rest[..n]);
    }
  }
}
