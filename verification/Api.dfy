/** The request boundary: each call gets the session, and any error rolls it back. */
module Api {
  import opened Prelude
  import opened Engine
  import opened Matching
  import opened Store
  import opened Targets
  import opened EvidenceCalls
  import opened ReviewCalls
  import opened ReconciliationCalls
  import opened System
  import opened Session
  import opened EvidenceServices
  import opened ReviewServices
  import opened ReconciliationServices

  class Api {
    const session: Session
    const policy: Policy

    constructor (policy: Policy)
      ensures this.policy == policy && fresh(session) && session.Clean() && session.committed == EMPTY_STORE
    {
      this.policy := policy;
      this.session := new Session();
    }

    /** One request, end to end: the services leave exactly the tables and the error that the
        state machine prescribes, and nothing pending, even where they change rows before they
        raise. */
    method Serve(r: Request) returns (error: Option<ErrorCode>)
      requires session.Clean()
      modifies session
      ensures session.Clean()
      ensures Reply(session.committed, error) == Handle(policy, old(session.committed), r)
    {
      if IsEvidenceCall(r.call) {
        error := ServeEvidence(r);
      } else if IsTaskServiceCall(r.call) {
        error := ServeTasks(r);
      } else if IsInteractionCall(r.call) {
        error := ServeInteractions(r);
      } else if IsOutcomeCall(r.call) {
        error := ServeOutcomes(r);
      } else if IsImportCall(r.call) {
        error := ServeImport(r);
      } else {
        error := ServeReconciliation(r);
      }
      if error.Some? {
        session.Rollback();
      }
    }

    predicate IsEvidenceCall(call: Call) { call.RecordExtraction? || call.CorrectField? || call.StartDecision? }

    predicate IsTaskServiceCall(call: Call) { call.CreateTask? || call.Escalate? }

    predicate IsInteractionCall(call: Call) { call.AddComment? || call.RequestInformation? || call.Respond? }

    predicate IsOutcomeCall(call: Call) { call.Approve? || call.Reject? }

    predicate IsImportCall(call: Call) { call.Import? || call.GenerateMatch? }

    method ServeEvidence(r: Request) returns (error: Option<ErrorCode>)
      requires session.Clean() && IsEvidenceCall(r.call)
      modifies session
      ensures Reply(session.committed, error) == Handle(policy, old(session.committed), r)
      ensures error.None? ==> session.Clean()
    {
      hide Constraints, RecordExtractionGuard, CorrectFieldGuard, StartDecisionGuard, Decide, EngineInputNow;
      match r.call {
        case RecordExtraction(clientId, documentId, sha, succeeded, fields) =>
          var service := new ExtractionService(session, policy.lexicon);
          var result := service.RecordExtraction(r.ctx, clientId, documentId, sha, succeeded, fields);
          error := result.Raised();
        case CorrectField(path, request) =>
          var service := new ExtractionService(session, policy.lexicon);
          var result := service.CorrectField(r.ctx, path, request);
          error := result.Raised();
        case StartDecision(path, engineRaises) =>
          var service := new AccountingDecisionService(session, policy);
          var result := service.StartDecisionRun(r.ctx, path, engineRaises);
          error := result.Raised();
      }
    }

    method ServeTasks(r: Request) returns (error: Option<ErrorCode>)
      requires session.Clean() && IsTaskServiceCall(r.call)
      modifies session
      ensures Reply(session.committed, error) == Handle(policy, old(session.committed), r)
      ensures error.None? ==> session.Clean()
    {
      hide Constraints, CreateTaskGuard, EscalateGuard;
      var support := new ReviewServiceSupport(session);
      var service := new ReviewTaskService(support);
      match r.call {
        case CreateTask(path, owner) =>
          var result := service.CreateTask(r.ctx, path, owner);
          error := result.Raised();
        case Escalate(path, senior, reason) =>
          var result := service.EscalateToSenior(r.ctx, path, senior, reason);
          error := result.Raised();
      }
    }

    method ServeInteractions(r: Request) returns (error: Option<ErrorCode>)
      requires session.Clean() && IsInteractionCall(r.call)
      modifies session
      ensures Reply(session.committed, error) == Handle(policy, old(session.committed), r)
      ensures error.None? ==> session.Clean()
    {
      hide Constraints, AddCommentGuard, RequestInformationGuard, RespondGuard;
      var support := new ReviewServiceSupport(session);
      var service := new ReviewInteractionService(support);
      match r.call {
        case AddComment(path, body) =>
          var result := service.AddComment(r.ctx, path, body);
          error := result.Raised();
        case RequestInformation(path, body) =>
          var result := service.RequestInformation(r.ctx, path, body);
          error := result.Raised();
        case Respond(path, body) =>
          var result := service.RespondToInformationRequest(r.ctx, path, body);
          error := result.Raised();
      }
    }

    method ServeOutcomes(r: Request) returns (error: Option<ErrorCode>)
      requires session.Clean() && IsOutcomeCall(r.call)
      modifies session
      ensures Reply(session.committed, error) == Handle(policy, old(session.committed), r)
      ensures error.None? ==> session.Clean()
    {
      hide Constraints, ApproveGuard, RejectGuard;
      var support := new ReviewServiceSupport(session);
      var service := new ReviewOutcomeService(support);
      match r.call {
        case Approve(path, note) =>
          var result := service.Approve(r.ctx, path, note);
          error := result.Raised();
        case Reject(path, reason) =>
          var result := service.Reject(r.ctx, path, reason);
          error := result.Raised();
      }
    }

    method ServeImport(r: Request) returns (error: Option<ErrorCode>)
      requires session.Clean() && IsImportCall(r.call)
      modifies session
      ensures Reply(session.committed, error) == Handle(policy, old(session.committed), r)
      ensures error.None? ==> session.Clean()
    {
      hide Constraints, ImportGuard, GenerateMatchGuard, MatchTargets, ApprovedTargets;
      var service := new ReconciliationApiService(session, policy.lexicon);
      match r.call {
        case Import(batch) =>
          var result := service.PersistImportBatch(r.ctx, batch);
          error := result.Raised();
        case GenerateMatch(clientId, transactionId) =>
          var result := service.GenerateMatchRun(r.ctx, clientId, transactionId);
          error := result.Raised();
      }
    }

    method ServeReconciliation(r: Request) returns (error: Option<ErrorCode>)
      requires session.Clean()
      requires !IsEvidenceCall(r.call) && !IsTaskServiceCall(r.call) && !IsInteractionCall(r.call)
      requires !IsOutcomeCall(r.call) && !IsImportCall(r.call)
      modifies session
      ensures Reply(session.committed, error) == Handle(policy, old(session.committed), r)
      ensures error.None? ==> session.Clean()
    {
      hide Constraints, CreateReviewGuard, SelectGuard, DisputeGuard, ReopenGuard, ApproveMatchGuard,
        MarkUnmatchedGuard;
      var service := new ReconciliationReviewService(session);
      match r.call {
        case CreateReview(clientId, transactionId, runId) =>
          var result := service.CreateReview(r.ctx, clientId, transactionId, runId);
          error := result.Raised();
        case Select(path, outcomeId) =>
          var result := service.SelectCandidate(r.ctx, path, outcomeId);
          error := result.Raised();
        case Dispute(path, reason) =>
          var result := service.Dispute(r.ctx, path, reason);
          error := result.Raised();
        case Reopen(path, reason) =>
          var result := service.Reopen(r.ctx, path, reason);
          error := result.Raised();
        case ApproveMatch(path, note) =>
          var result := service.ApproveMatch(r.ctx, path, note);
          error := result.Raised();
        case MarkUnmatched(path, reason) =>
          var result := service.MarkUnmatched(r.ctx, path, reason);
          error := result.Raised();
      }
    }
  }
}
