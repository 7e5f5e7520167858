/** Roles, the permission table, principals and the membership directory. */
module Identity {
  import opened Prelude

  datatype Role = FirmAdmin | Accountant | SeniorReviewer | ClientSubmitter | Auditor

  datatype Permission =
    | ViewContext
    | UploadDocuments
    | ViewDocuments
    | RunExtraction
    | CorrectExtractedInformation
    | RunAccountingDecision
    | ReviewRecommendations
    | CreateReviewTask
    | ViewReviewTask
    | AddReviewComment
    | ViewReviewHistory
    | ViewInformationRequest
    | RespondToInformationRequest
    | ApproveOrdinaryTransaction
    | ApproveHighRiskTransaction
    | RejectTransaction
    | EscalateTransaction
    | RequestInformation
    | ViewAuditHistory
    | ImportBankTransactions
    | ViewBankTransactions
    | RunReconciliationMatching
    | ViewReconciliationMatches
    | CreateReconciliationReview
    | ReviewReconciliation
    | ApproveReconciliation
    | ViewReconciliationHistory
    | ManageUsers
    | ManageConfiguration
    | ManageIntegrations
    | ExportApprovedEntries
    | CorrectApprovedRecords

  const ACCOUNTANT_PERMISSIONS: set<Permission> := {
    ViewContext, UploadDocuments, ViewDocuments, RunExtraction, CorrectExtractedInformation,
    RunAccountingDecision, ReviewRecommendations, CreateReviewTask, ViewReviewTask, AddReviewComment,
    ViewReviewHistory, ApproveOrdinaryTransaction, RejectTransaction, EscalateTransaction,
    RequestInformation, ViewAuditHistory, ImportBankTransactions, ViewBankTransactions,
    RunReconciliationMatching, ViewReconciliationMatches, CreateReconciliationReview,
    ReviewReconciliation, ApproveReconciliation, ViewReconciliationHistory, ExportApprovedEntries}

  function PermissionsForRole(role: Role): set<Permission> {
    match role
    case FirmAdmin =>
      {ViewContext, ManageUsers, ManageConfiguration, ManageIntegrations, ViewAuditHistory}
    case Accountant => ACCOUNTANT_PERMISSIONS
    case SeniorReviewer =>
      ACCOUNTANT_PERMISSIONS + {ApproveHighRiskTransaction, CorrectApprovedRecords}
    case ClientSubmitter =>
      {ViewContext, UploadDocuments, ViewDocuments, ViewInformationRequest, RespondToInformationRequest}
    case Auditor =>
      {ViewContext, ViewDocuments, ReviewRecommendations, ViewReviewTask, ViewReviewHistory, ViewAuditHistory,
       ViewBankTransactions, ViewReconciliationMatches, ViewReconciliationHistory}
  }

  datatype Principal = Principal(
    userId: Id,
    firmId: Id,
    membershipId: Id,
    role: Role,
    permissions: set<Permission>)

  datatype Membership = Membership(userId: Id, firmId: Id, role: Role, isActive: bool)

  /** Memberships, and the active (membership, firm, client) grants. Administrators change
      both, so every call sees a directory of its own. */
  datatype Directory = Directory(memberships: map<Id, Membership>, access: set<(Id, Id, Id)>)

  predicate HasClientAccess(directory: Directory, membershipId: Id, firmId: Id, clientId: Id) {
    (membershipId, firmId, clientId) in directory.access
  }

  predicate IsReviewer(role: Role) { role == Accountant || role == SeniorReviewer }

  /** _resolve_owner: an active member of the firm with a fitting role and client access. */
  predicate CanOwn(directory: Directory, firmId: Id, clientId: Id, membershipId: Id, requireSenior: bool) {
    membershipId in directory.memberships &&
    directory.memberships[membershipId].firmId == firmId &&
    directory.memberships[membershipId].isActive &&
    (if requireSenior then directory.memberships[membershipId].role == SeniorReviewer
     else IsReviewer(directory.memberships[membershipId].role)) &&
    HasClientAccess(directory, membershipId, firmId, clientId)
  }
}
