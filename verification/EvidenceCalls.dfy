/** Extraction and accounting calls: when each is refused, and the tables it commits. */
module EvidenceCalls {
  import opened Prelude
  import opened Text
  import opened EffectiveValues
  import opened Engine
  import opened Identity
  import opened Store

  /** The authenticated principal and the directory as one call sees it. */
  datatype Context = Context(directory: Directory, principal: Principal)
  {
    predicate HasAccess(clientId: Id) {
      HasClientAccess(directory, principal.membershipId, principal.firmId, clientId)
    }
  }

  const PRIOR_RUN_LIMIT: nat := 50

  // ----- start_extraction, as far as the tables go

  function RecordExtractionGuard(
      ctx: Context, clientId: Id, succeeded: bool, fields: seq<ExtractedField>)
    : Option<ErrorCode>
  {
    if !ctx.HasAccess(clientId) then Some(Forbidden)
    else if !UniquePaths(fields) || (!succeeded && fields != []) then Some(InvalidRequest)
    else None
  }

  function RecordExtractionNext(
      s: Store, ctx: Context, clientId: Id, documentId: Id, sourceSha: Sha256, succeeded: bool,
      fields: seq<ExtractedField>)
    : Store
  {
    s.(clock := s.clock + 1,
       extractions := s.extractions +
         [ExtractionRun(ctx.principal.firmId, clientId, documentId, sourceSha, succeeded, fields)])
  }

  // ----- correct_field

  datatype FieldPath = FieldPath(clientId: Id, documentId: Id, runId: Id, fieldId: Id)

  datatype CorrectionRequest = CorrectionRequest(
    rawValue: string, normalizedValue: Option<string>, valueType: ValueType, reason: string)

  function CorrectFieldGuard(
      lexicon: Lexicon, s: Store, ctx: Context, path: FieldPath, request: CorrectionRequest)
    : Option<ErrorCode>
  {
    if !ctx.HasAccess(path.clientId) then Some(Forbidden)
    else if !IsExtractionFor(s, ctx.principal.firmId, path.clientId, path.documentId, path.runId) ||
            path.fieldId >= |s.extractions[path.runId].fields| then Some(NotFound)
    else if Strip(request.reason) == "" then Some(InvalidRequest)
    else if !lexicon.acceptsValue(request.rawValue, request.normalizedValue, request.valueType)
      then Some(InvalidCorrection)
    else if HasApprovedOutcome(s.outcomes, path.runId) then Some(ApprovedRecordLocked)
    else None
  }

  function CorrectFieldNext(s: Store, ctx: Context, path: FieldPath, request: CorrectionRequest): Store {
    s.(clock := s.clock + 1,
       corrections := s.corrections +
         [Correction(path.runId, path.fieldId, NextRevision(s.corrections, path.runId, path.fieldId),
                     request.rawValue, request.normalizedValue, request.valueType,
                     ctx.principal.membershipId, Strip(request.reason), s.clock + 1)])
  }

  // ----- start_decision_run

  datatype RunPath = RunPath(clientId: Id, documentId: Id, runId: Id)

  function StartDecisionGuard(s: Store, ctx: Context, path: RunPath): Option<ErrorCode> {
    if !ctx.HasAccess(path.clientId) then Some(Forbidden)
    else if !IsExtractionFor(s, ctx.principal.firmId, path.clientId, path.documentId, path.runId)
      then Some(NotFound)
    else if !s.extractions[path.runId].succeeded then Some(SourceNotEligible)
    else None
  }

  function SnapshotNow(
      extractions: seq<ExtractionRun>, corrections: seq<Correction>, decisions: seq<DecisionRun>, i: Id)
    : PriorSnapshot
    requires i < |decisions|
  {
    PriorSnapshot(i, decisions[i].documentId, decisions[i].extractionRunId, decisions[i].sourceSha,
                  EffectiveNow(extractions, corrections, decisions[i].extractionRunId))
  }

  function SnapshotsNow(
      extractions: seq<ExtractionRun>, corrections: seq<Correction>, decisions: seq<DecisionRun>, ids: seq<Id>)
    : seq<PriorSnapshot>
    requires forall k | 0 <= k < |ids| :: ids[k] < |decisions|
  {
    if ids == [] then []
    else
      var n := |ids| - 1;
      SnapshotsNow(extractions, corrections, decisions, ids[..n]) +
      [SnapshotNow(extractions, corrections, decisions, ids[n])]
  }

  lemma {:induction false} RecentRunsInRange(decisions: seq<DecisionRun>, firmId: Id, clientId: Id, limit: nat)
    ensures var ids := RecentRuns(decisions, firmId, clientId, limit);
      && |ids| <= limit
      && forall k | 0 <= k < |ids| :: ids[k] < |decisions| && IsSucceededFor(decisions[ids[k]], firmId, clientId)
  {
    if decisions != [] && limit != 0 {
      var n := |decisions| - 1;
      RecentRunsInRange(decisions[..n], firmId, clientId, limit);
      RecentRunsInRange(decisions[..n], firmId, clientId, limit - 1);
    }
  }

  function PriorSnapshotsNow(
      extractions: seq<ExtractionRun>, corrections: seq<Correction>, decisions: seq<DecisionRun>,
      firmId: Id, clientId: Id)
    : seq<PriorSnapshot>
  {
    RecentRunsInRange(decisions, firmId, clientId, PRIOR_RUN_LIMIT);
    SnapshotsNow(extractions, corrections, decisions, RecentRuns(decisions, firmId, clientId, PRIOR_RUN_LIMIT))
  }

  function EngineInputNow(s: Store, runId: Id): EngineInput
    requires runId < |s.extractions|
  {
    var e := s.extractions[runId];
    EngineInput(e.firmId, e.clientId, e.documentId, e.sourceSha,
                EffectiveNow(s.extractions, s.corrections, runId),
                PriorSnapshotsNow(s.extractions, s.corrections, s.decisions, e.firmId, e.clientId))
  }

  /** When the engine raises, the run is committed without output, as failed. */
  function StartDecisionNext(policy: Policy, s: Store, path: RunPath, engineRaises: bool): Store
    requires path.runId < |s.extractions|
  {
    var e := s.extractions[path.runId];
    var output := if engineRaises then None else Some(Decide(policy, EngineInputNow(s, path.runId)));
    s.(clock := s.clock + 1,
       decisions := s.decisions +
         [DecisionRun(e.firmId, e.clientId, e.documentId, path.runId, e.sourceSha, output, s.clock + 1)])
  }
}
