/** What a committed correction does to the values both readers show. */
module CorrectionEffects {
  import opened Prelude
  import opened Text
  import opened EffectiveValues
  import opened Engine
  import opened Store
  import opened EvidenceCalls
  import opened EvidenceInvariant
  import opened ReviewInvariant
  import opened System
  import opened Reachability
  import opened CorrectionHistories
  import opened EvidenceAnswers

  // ----- one more correction in a run's log

  ghost predicate NewestOf(log: seq<Correction>, c: Correction) {
    forall d | d in log && d.fieldId == c.fieldId :: d.revision < c.revision
  }

  lemma LatestAppended(log: seq<Correction>, c: Correction, i: Id)
    requires NewestOf(log, c)
    ensures LatestCorrection(log + [c], i) == if i == c.fieldId then Some(c) else LatestCorrection(log, i)
  {
    assert (log + [c])[..|log|] == log;
    LatestIsHighestRevision(log, i);
    HighestIsMember(log, i);
  }

  lemma GroupAppended(log: seq<Correction>, c: Correction, i: Id)
    ensures LastOf(Grouped(log + [c], i)) == if i == c.fieldId then Some(c) else LastOf(Grouped(log, i))
  {
    assert (log + [c])[..|log|] == log;
  }

  /** Only the corrected field's value moves. */
  ghost predicate MovesOnly(
      before: map<string, EffectiveValue>, after: map<string, EffectiveValue>, path: string)
  {
    after.Keys == before.Keys && forall p | p in before && p != path :: after[p] == before[p]
  }

  lemma ValuesAfter(fields: seq<ExtractedField>, log: seq<Correction>, c: Correction)
    requires UniquePaths(fields) && c.fieldId < |fields| && NewestOf(log, c)
    ensures var path := fields[c.fieldId].path;
      var before, after := Effective(fields, log), Effective(fields, log + [c]);
      && MovesOnly(before, after, path)
      && path in after && ShowsCorrection(after[path], fields[c.fieldId], c.fieldId, c)
  {
    hide Effective, LatestCorrection, NewestOf;
    var before, after := Effective(fields, log), Effective(fields, log + [c]);
    forall i | 0 <= i < |fields|
      ensures fields[i].path in before && fields[i].path in after
      ensures i != c.fieldId ==> after[fields[i].path] == before[fields[i].path]
    {
      EffectiveAt(fields, log, i);
      EffectiveAt(fields, log + [c], i);
      LatestAppended(log, c, i);
    }
    EffectiveAt(fields, log + [c], c.fieldId);
    LatestAppended(log, c, c.fieldId);
    EffectivePaths(fields, log);
    EffectivePaths(fields, log + [c]);
    assert forall p :: p in after ==> p in before;
    assert forall p :: p in before ==> p in after;
  }

  lemma ResponsesAfter(fields: seq<ExtractedField>, log: seq<Correction>, c: Correction)
    requires c.fieldId < |fields|
    ensures var before, after := Responses(fields, log), Responses(fields, log + [c]);
      && ShowsCorrection(after[c.fieldId], fields[c.fieldId], c.fieldId, c)
      && forall i | 0 <= i < |fields| && i != c.fieldId :: after[i] == before[i]
  {
    hide Grouped, LastOf;
    forall i | 0 <= i < |fields|
      ensures LastOf(Grouped(log + [c], i)) == if i == c.fieldId then Some(c) else LastOf(Grouped(log, i))
    {
      GroupAppended(log, c, i);
    }
  }

  // ----- the call

  /** The value carries the requested texts and type, as one more revision, with the confidence
      the provider observed; its text is the normalized one, or the raw one when there is none. */
  predicate ShowsRequest(v: EffectiveValue, field: ExtractedField, fieldId: Id, revision: nat, q: CorrectionRequest) {
    v.fieldId == fieldId && v.path == field.path && v.confidence == field.confidence &&
    v.rawValue == q.rawValue && v.normalizedValue == q.normalizedValue && v.valueType == q.valueType &&
    v.latestRevision == Some(revision) &&
    v.Value() == match q.normalizedValue case Some(text) => text case None => q.rawValue
  }

  /** The API's fields of a run as the tables stand. */
  function ResponsesNow(s: Store, runId: Id): seq<EffectiveValue> {
    Responses(FieldsOf(s.extractions, runId), CorrectionsFor(s.corrections, runId))
  }

  predicate CorrectsField(policy: Policy, s: Store, ctx: Context, path: FieldPath, q: CorrectionRequest) {
    Handle(policy, s, Request(ctx, CorrectField(path, q))).error.None?
  }

  lemma CorrectionCommitted(policy: Policy, s: Store, ctx: Context, path: FieldPath, q: CorrectionRequest)
    returns (c: Correction)
    requires Inv(policy, s) && CorrectsField(policy, s, ctx, path, q)
    ensures path.runId < |s.extractions| && path.fieldId < |s.extractions[path.runId].fields|
    ensures var next := Handle(policy, s, Request(ctx, CorrectField(path, q))).next;
      && next == s.(clock := s.clock + 1, corrections := s.corrections + [c])
      && c.runId == path.runId && c.fieldId == path.fieldId && c.createdAt == s.clock + 1
      && c.revision == 1 + RevisionCount(s.corrections, path.runId, path.fieldId)
      && c.rawValue == q.rawValue && c.normalizedValue == q.normalizedValue && c.valueType == q.valueType
      && c.correctedBy == ctx.principal.membershipId && c.reason == Strip(q.reason) != ""
  {
    hide Inv, Handle, RevisionCount, Strip, IsLocked;
    CorrectFieldAnswer(policy, s, ctx, path, q);
    var next := Handle(policy, s, Request(ctx, CorrectField(path, q))).next;
    c := next.corrections[|s.corrections|];
  }

  lemma RevisionIsNewest(policy: Policy, s: Store, c: Correction)
    requires Inv(policy, s) && c.revision == 1 + RevisionCount(s.corrections, c.runId, c.fieldId)
    ensures NewestOf(CorrectionsFor(s.corrections, c.runId), c)
  {
    var log := CorrectionsFor(s.corrections, c.runId);
    forall d | d in log && d.fieldId == c.fieldId
      ensures d.revision < c.revision
    {
      RevisionBounded(s.corrections, c.runId, d);
    }
  }

  lemma HasUniquePaths(policy: Policy, s: Store, runId: Id)
    requires Inv(policy, s) && runId < |s.extractions|
    ensures UniquePaths(s.extractions[runId].fields)
  {
    hide ReviewInv, ReconciliationInvariant.ReconciliationInv;
  }

  /** In every reachable state, a correction that is accepted is what both the engine and the API
      read from then on: at the field's path stands the requested value, under the next revision,
      and every other path of the run, and every other run, reads as before. */
  lemma CorrectionTakesEffect(
      policy: Policy, requests: seq<Request>, ctx: Context, path: FieldPath, q: CorrectionRequest)
    requires CorrectsField(policy, Reached(policy, requests), ctx, path, q)
    ensures var s := Reached(policy, requests);
      var next := Handle(policy, s, Request(ctx, CorrectField(path, q))).next;
      && path.runId < |s.extractions| && path.fieldId < |s.extractions[path.runId].fields|
      && var fields, i := s.extractions[path.runId].fields, path.fieldId;
      var revision := 1 + RevisionCount(s.corrections, path.runId, i);
      var before, after :=
        EffectiveNow(s.extractions, s.corrections, path.runId),
        EffectiveNow(next.extractions, next.corrections, path.runId);
      && next.extractions == s.extractions
      && fields[i].path in after && ShowsRequest(after[fields[i].path], fields[i], i, revision, q)
      && MovesOnly(before, after, fields[i].path)
      && |ResponsesNow(next, path.runId)| == |ResponsesNow(s, path.runId)| == |fields|
      && ShowsRequest(ResponsesNow(next, path.runId)[i], fields[i], i, revision, q)
      && (forall j | 0 <= j < |fields| && j != i ::
            ResponsesNow(next, path.runId)[j] == ResponsesNow(s, path.runId)[j])
      && forall runId: Id | runId != path.runId ::
        && EffectiveNow(next.extractions, next.corrections, runId) ==
           EffectiveNow(s.extractions, s.corrections, runId)
        && ResponsesNow(next, runId) == ResponsesNow(s, runId)
  {
    hide Run, Handle, Inv, Effective, Responses, CorrectionsFor, RevisionCount, NewestOf, Strip;
    var s := Reached(policy, requests);
    ReachedKeeps(policy, requests);
    var c := CorrectionCommitted(policy, s, ctx, path, q);
    var fields, log := s.extractions[path.runId].fields, CorrectionsFor(s.corrections, path.runId);
    HasUniquePaths(policy, s, path.runId);
    RevisionIsNewest(policy, s, c);
    ValuesAfter(fields, log, c);
    ResponsesAfter(fields, log, c);
    var next := Handle(policy, s, Request(ctx, CorrectField(path, q))).next;
    forall runId: Id
      ensures CorrectionsFor(next.corrections, runId) ==
        CorrectionsFor(s.corrections, runId) + if runId == path.runId then [c] else []
      ensures runId != path.runId ==>
        && EffectiveNow(next.extractions, next.corrections, runId) ==
           EffectiveNow(s.extractions, s.corrections, runId)
        && ResponsesNow(next, runId) == ResponsesNow(s, runId)
    {
      CorrectionsAppend(s.corrections, c, runId);
      assert CorrectionsFor(s.corrections, runId) + [] == CorrectionsFor(s.corrections, runId);
    }
    assert CorrectionsFor(next.corrections, path.runId) == log + [c];
  }

  /** And after any run a field that no correction names reads as observed, by both readers. */
  lemma UncorrectedReadsObserved(policy: Policy, requests: seq<Request>, runId: nat, i: nat)
    requires runId < |Reached(policy, requests).extractions|
    requires i < |Reached(policy, requests).extractions[runId].fields|
    requires forall c | c in Reached(policy, requests).corrections :: !(c.runId == runId && c.fieldId == i)
    ensures var s := Reached(policy, requests);
      var field, values := s.extractions[runId].fields[i], EffectiveNow(s.extractions, s.corrections, runId);
      && field.path in values && ShowsObservation(values[field.path], field, i)
      && |ResponsesNow(s, runId)| == |s.extractions[runId].fields|
      && ShowsObservation(ResponsesNow(s, runId)[i], field, i)
      && values[field.path].Value() == match field.normalizedValue case Some(text) => text case None => field.rawValue
  {
    hide Run, Inv, Effective, Grouped;
    var s := Reached(policy, requests);
    ReachedKeeps(policy, requests);
    HasUniquePaths(policy, s, runId);
    var log := CorrectionsFor(s.corrections, runId);
    forall c | c in log
      ensures c.fieldId != i
    {
      LoggedCorrection(s.corrections, runId, c);
    }
    HighestRead(s.extractions[runId].fields, log);
    LastRead(s.extractions[runId].fields, log, i);
  }

  lemma {:induction false} LoggedCorrection(corrections: seq<Correction>, runId: Id, c: Correction)
    requires c in CorrectionsFor(corrections, runId)
    ensures c in corrections && c.runId == runId
  {
    var n := |corrections| - 1;
    if c in CorrectionsFor(corrections[..n], runId) {
      LoggedCorrection(corrections[..n], runId, c);
    }
  }
}
