/** The extraction and accounting decision services, step by step over a session. */
module EvidenceServices {
  import opened Prelude
  import opened Text
  import opened EffectiveValues
  import opened Engine
  import opened Store
  import opened EvidenceCalls
  import opened Session
  import opened DecisionEngine

  class ExtractionService {
    const session: Session
    const lexicon: Lexicon

    constructor (session: Session, lexicon: Lexicon)
      ensures this.session == session && this.lexicon == lexicon
    {
      this.session := session;
      this.lexicon := lexicon;
    }

    /** Stores the run a provider produced; the provider itself is not modelled. */
    method RecordExtraction(
        ctx: Context, clientId: Id, documentId: Id, sourceSha: Sha256, succeeded: bool, fields: seq<ExtractedField>)
      returns (result: Result<ExtractionRun>)
      requires session.Clean()
      modifies session
      ensures result.Ok? ==> session.Clean()
      ensures var s := old(session.committed);
        Ended(s, session.committed, RecordExtractionGuard(ctx, clientId, succeeded, fields),
              RecordExtractionNext(s, ctx, clientId, documentId, sourceSha, succeeded, fields), ExtractionCommitFailed,
              result.Raised())
      ensures result.Ok? ==> session.committed.extractions == old(session.committed).extractions + [result.value]
    {
      if !ctx.HasAccess(clientId) { return Err(Forbidden); }
      if !UniquePaths(fields) || (!succeeded && fields != []) { return Err(InvalidRequest); }
      var run := ExtractionRun(ctx.principal.firmId, clientId, documentId, sourceSha, succeeded, fields);
      session.AddExtraction(run);
      :- session.CommitOrRaise(ExtractionCommitFailed);
      return Ok(run);
    }

    method CorrectField(ctx: Context, path: FieldPath, request: CorrectionRequest)
      returns (result: Result<Correction>)
      requires session.Clean()
      modifies session
      ensures result.Ok? ==> session.Clean()
      ensures var s := old(session.committed);
        Ended(s, session.committed, CorrectFieldGuard(lexicon, s, ctx, path, request),
              CorrectFieldNext(s, ctx, path, request), ExtractionCommitFailed, result.Raised())
      ensures result.Ok? ==> session.committed.corrections == old(session.committed).corrections + [result.value]
    {
      hide Constraints, Strip, NextRevision;
      if !ctx.HasAccess(path.clientId) { return Err(Forbidden); }
      if !IsExtractionFor(session.tables, ctx.principal.firmId, path.clientId, path.documentId, path.runId) ||
         path.fieldId >= |session.tables.extractions[path.runId].fields| {
        return Err(NotFound);
      }
      if Strip(request.reason) == "" { return Err(InvalidRequest); }
      if !lexicon.acceptsValue(request.rawValue, request.normalizedValue, request.valueType) {
        return Err(InvalidCorrection);
      }
      if HasApprovedOutcome(session.tables.outcomes, path.runId) { return Err(ApprovedRecordLocked); }
      var revision := NextRevision(session.tables.corrections, path.runId, path.fieldId);
      var correction := Correction(
        path.runId, path.fieldId, revision, request.rawValue, request.normalizedValue, request.valueType,
        ctx.principal.membershipId, Strip(request.reason), session.Now());
      session.AddCorrection(correction);
      :- session.CommitOrRaise(ExtractionCommitFailed);
      return Ok(correction);
    }
  }

  class AccountingDecisionService {
    const session: Session
    const policy: Policy

    constructor (session: Session, policy: Policy)
      ensures this.session == session && this.policy == policy
    {
      this.session := session;
      this.policy := policy;
    }

    /** _prior_decision_snapshots: the client's recent succeeded runs with their values now. */
    method PriorDecisionSnapshots(firmId: Id, clientId: Id) returns (snapshots: seq<PriorSnapshot>)
      ensures snapshots == PriorSnapshotsNow(
        session.tables.extractions, session.tables.corrections, session.tables.decisions, firmId, clientId)
    {
      hide RecentRuns, IsSucceededFor;
      var s := session.tables;
      var ids := RecentRuns(s.decisions, firmId, clientId, PRIOR_RUN_LIMIT);
      RecentRunsInRange(s.decisions, firmId, clientId, PRIOR_RUN_LIMIT);
      snapshots := [];
      for k := 0 to |ids|
        invariant snapshots == SnapshotsNow(s.extractions, s.corrections, s.decisions, ids[..k])
      {
        assert ids[..k + 1][..k] == ids[..k];
        var run := s.decisions[ids[k]];
        var values := BuildEffectiveValues(
          FieldsOf(s.extractions, run.extractionRunId), CorrectionsFor(s.corrections, run.extractionRunId));
        snapshots := snapshots +
          [PriorSnapshot(ids[k], run.documentId, run.extractionRunId, run.sourceSha, values)];
      }
      assert ids[..|ids|] == ids;
    }

    /** _run_engine, on the evidence as the open transaction sees it. */
    method RunEngine(runId: Id) returns (output: Decision)
      requires runId < |session.tables.extractions|
      ensures output == Decide(policy, EngineInputNow(session.tables, runId))
    {
      var run := session.tables.extractions[runId];
      var values := BuildEffectiveValues(
        FieldsOf(session.tables.extractions, runId), CorrectionsFor(session.tables.corrections, runId));
      var priors := PriorDecisionSnapshots(run.firmId, run.clientId);
      var engine := new AccountingDecisionEngine(policy);
      output := engine.Decide(
        EngineInput(run.firmId, run.clientId, run.documentId, run.sourceSha, values, priors));
    }

    /** The run row is added before the engine runs and completed after; if the engine raises,
        the failed run is committed and the error reported. */
    method StartDecisionRun(ctx: Context, path: RunPath, engineRaises: bool) returns (result: Result<DecisionRun>)
      requires session.Clean()
      modifies session
      ensures result.Ok? ==> session.Clean()
      ensures var s := old(session.committed);
        var refused := StartDecisionGuard(s, ctx, path);
        if refused.Some? then session.committed == s && result == Err(refused.value)
        else
          var next := StartDecisionNext(policy, s, path, engineRaises);
          if !Constraints(next) then session.committed == s && result == Err(DecisionPersistenceFailed)
          else
            session.committed == next &&
            result == if engineRaises then Err(DecisionEngineFailed) else Ok(next.decisions[|s.decisions|])
    {
      hide Constraints, Decide, PriorSnapshotsNow, EffectiveNow;
      if !ctx.HasAccess(path.clientId) { return Err(Forbidden); }
      if !IsExtractionFor(session.tables, ctx.principal.firmId, path.clientId, path.documentId, path.runId) {
        return Err(NotFound);
      }
      var source := session.tables.extractions[path.runId];
      if !source.succeeded { return Err(SourceNotEligible); }
      ghost var s := session.tables;
      var id := |session.tables.decisions|;
      session.AddDecision(DecisionRun(
        source.firmId, source.clientId, source.documentId, path.runId, source.sourceSha, None, session.Now()));
      if engineRaises {
        :- session.CommitOrRaise(DecisionPersistenceFailed);
        return Err(DecisionEngineFailed);
      }
      var output := RunEngine(path.runId);
      PendingRunUnseen(s, session.tables.decisions[id], source.firmId, source.clientId);
      session.PutDecision(id, session.tables.decisions[id].(output := Some(output)));
      assert session.tables.decisions == StartDecisionNext(policy, s, path, false).decisions;
      :- session.CommitOrRaise(DecisionPersistenceFailed);
      return Ok(session.tables.decisions[id]);
    }
  }

  /** A run still in progress is not among the prior decisions. */
  lemma PendingRunUnseen(s: Store, pending: DecisionRun, firmId: Id, clientId: Id)
    requires !pending.Succeeded()
    ensures PriorSnapshotsNow(s.extractions, s.corrections, s.decisions + [pending], firmId, clientId) ==
            PriorSnapshotsNow(s.extractions, s.corrections, s.decisions, firmId, clientId)
  {
    var grown := s.decisions + [pending];
    assert grown[..|s.decisions|] == s.decisions;
    var ids := RecentRuns(s.decisions, firmId, clientId, PRIOR_RUN_LIMIT);
    assert RecentRuns(grown, firmId, clientId, PRIOR_RUN_LIMIT) == ids;
    RecentRunsInRange(s.decisions, firmId, clientId, PRIOR_RUN_LIMIT);
    RecentRunsInRange(grown, firmId, clientId, PRIOR_RUN_LIMIT);
    SnapshotsIgnoreLater(s.extractions, s.corrections, s.decisions, grown, ids);
  }

  lemma {:induction false} SnapshotsIgnoreLater(
      extractions: seq<ExtractionRun>, corrections: seq<Correction>, decisions: seq<DecisionRun>,
      grown: seq<DecisionRun>, ids: seq<Id>)
    requires decisions <= grown && forall k | 0 <= k < |ids| :: ids[k] < |decisions|
    ensures SnapshotsNow(extractions, corrections, grown, ids) ==
            SnapshotsNow(extractions, corrections, decisions, ids)
  {
    if ids != [] {
      SnapshotsIgnoreLater(extractions, corrections, decisions, grown, ids[..|ids| - 1]);
    }
  }
}
