/** Result and option types, and the codes the services raise. */
module Prelude {

  datatype Option<+T> = None | Some(value: T)

  /** Row identifiers: opaque values with a total order. */
  type Id = nat

  /** The `code` of every ApiError the modelled services raise, plus the uncaught
      exceptions that reach the caller as a server error. */
  datatype ErrorCode =
    | Forbidden
    | NotFound
    | InvalidRequest
    | InvalidLimit
    | InvalidCorrection
    | ApprovedRecordLocked
    | SourceNotEligible
    | DecisionEngineFailed
    | ExtractionCommitFailed
    | DecisionPersistenceFailed
    | ReviewPersistenceFailed
    | ReconciliationPersistenceFailed
    | ReconciliationPersistenceConflict
    | DecisionNotReviewable
    | ReviewTaskExists
    | InvalidReviewOwner
    | ReviewTaskTerminal
    | ReviewTaskNotOwned
    | InvalidReviewTaskState
    | InvalidReviewTaskTransition
    | ReviewCommentRequired
    | InformationNotRequested
    | InformationRequestMissing
    | InformationResponseRequired
    | ReviewOutcomeExists
    | ReviewRiskChanged
    | ReviewApprovalBlocked
    | DecisionStaleAfterCorrection
    | SeniorReviewRequired
    | RejectionReasonRequired
    | InvalidImportBatch
    | BankImportBatchConflict
    | BankTransactionAlreadyImported
    | BankImportConflict
    | ReconciliationReviewStarted
    | ReconciliationReviewExists
    | DisputeReasonRequired
    | ReopenReasonRequired
    | UnmatchedReasonRequired
    | CandidateNotInReviewMatchRun
    | ReconciliationDisputed
    | ReconciliationReviewTerminal
    | InvalidReconciliationReviewState
    | ReconciliationReviewNotDisputed
    | ReconciliationCandidateRequired
    | ReconciliationOutcomeExists
    | ReconciliationCandidateMissing
    | ReconciliationTargetAlreadyMatched
    | ReconciliationReviewConflict
    | ReconciliationTerminalConflict

  /** What a service call hands back to its caller: a value, or the error it raised. */
  datatype Result<+T> = Ok(value: T) | Err(error: ErrorCode)
  {
    predicate IsFailure() { Err? }

    function PropagateFailure<U>(): Result<U>
      requires Err?
    {
      Err(error)
    }

    function Extract(): T
      requires Ok?
    {
      value
    }

    function Raised(): Option<ErrorCode> {
      if Err? then Some(error) else None
    }
  }

  /** What a guard hands back: nothing, or the error it raised. */
  datatype Check = Pass | Fail(error: ErrorCode)
  {
    predicate IsFailure() { Fail? }

    function PropagateFailure<U>(): Result<U>
      requires Fail?
    {
      Err(error)
    }
  }
}
