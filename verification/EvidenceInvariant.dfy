/** What every reachable state keeps about extraction runs, corrections and decision runs. */
module EvidenceInvariant {
  import opened Prelude
  import opened EffectiveValues
  import opened Engine
  import opened Store
  import opened EvidenceCalls

  // ----- the correction log

  /** How many corrections a field has. */
  function RevisionCount(corrections: seq<Correction>, runId: Id, fieldId: Id): nat {
    if corrections == [] then 0
    else
      var n := |corrections| - 1;
      RevisionCount(corrections[..n], runId, fieldId) +
      if corrections[n].runId == runId && corrections[n].fieldId == fieldId then 1 else 0
  }

  /** Each correction's revision is its rank within its field, counting from 1. */
  ghost predicate Numbered(corrections: seq<Correction>) {
    forall k | 0 <= k < |corrections| ::
      corrections[k].revision == 1 + RevisionCount(corrections[..k], corrections[k].runId, corrections[k].fieldId)
  }

  lemma {:induction false} NextRevisionCounts(corrections: seq<Correction>, runId: Id, fieldId: Id)
    requires Numbered(corrections)
    ensures NextRevision(corrections, runId, fieldId) == 1 + RevisionCount(corrections, runId, fieldId)
  {
    if corrections != [] {
      var n := |corrections| - 1;
      forall k | 0 <= k < n
        ensures corrections[..n][k].revision ==
          1 + RevisionCount(corrections[..n][..k], corrections[k].runId, corrections[k].fieldId)
      {
        assert corrections[..n][..k] == corrections[..k];
      }
      NextRevisionCounts(corrections[..n], runId, fieldId);
    }
  }

  lemma {:induction false} CountGrows(corrections: seq<Correction>, i: nat, runId: Id, fieldId: Id)
    requires i <= |corrections|
    ensures RevisionCount(corrections[..i], runId, fieldId) <= RevisionCount(corrections, runId, fieldId)
  {
    if i < |corrections| {
      CountGrows(corrections[..|corrections| - 1], i, runId, fieldId);
      assert corrections[..|corrections| - 1][..i] == corrections[..i];
    } else {
      assert corrections[..i] == corrections;
    }
  }

  /** Within a field, a later correction has a larger revision. */
  lemma NumberedRises(corrections: seq<Correction>, i: nat, j: nat)
    requires Numbered(corrections) && i < j < |corrections|
    requires corrections[i].runId == corrections[j].runId && corrections[i].fieldId == corrections[j].fieldId
    ensures corrections[i].revision < corrections[j].revision
  {
    var runId, fieldId := corrections[j].runId, corrections[j].fieldId;
    assert corrections[..j][..i + 1] == corrections[..i + 1];
    assert corrections[..i + 1][..i] == corrections[..i];
    CountGrows(corrections[..j], i + 1, runId, fieldId);
    assert RevisionCount(corrections[..i + 1], runId, fieldId) == RevisionCount(corrections[..i], runId, fieldId) + 1;
  }

  /** The corrections known at an instant. */
  function AsOf(corrections: seq<Correction>, instant: nat): seq<Correction> {
    if corrections == [] then []
    else
      var n := |corrections| - 1;
      AsOf(corrections[..n], instant) + if corrections[n].createdAt <= instant then [corrections[n]] else []
  }

  lemma AsOfAppend(corrections: seq<Correction>, c: Correction, instant: nat)
    ensures AsOf(corrections + [c], instant) ==
      AsOf(corrections, instant) + if c.createdAt <= instant then [c] else []
  {
    assert (corrections + [c])[..|corrections|] == corrections;
  }

  lemma {:induction false} AsOfEverything(corrections: seq<Correction>, instant: nat)
    requires forall k | 0 <= k < |corrections| :: corrections[k].createdAt <= instant
    ensures AsOf(corrections, instant) == corrections
  {
    if corrections != [] {
      AsOfEverything(corrections[..|corrections| - 1], instant);
    }
  }

  // ----- reproducible decisions

  /** What the engine was given for decision i: the evidence as it stood at that instant. */
  function EngineInputAt(
      extractions: seq<ExtractionRun>, corrections: seq<Correction>, decisions: seq<DecisionRun>, i: Id)
    : EngineInput
    requires i < |decisions|
  {
    var d := decisions[i];
    var known := AsOf(corrections, d.createdAt);
    EngineInput(d.firmId, d.clientId, d.documentId, d.sourceSha,
                EffectiveNow(extractions, known, d.extractionRunId),
                PriorSnapshotsNow(extractions, known, decisions[..i], d.firmId, d.clientId))
  }

  // ----- the invariant

  predicate ValidCorrection(extractions: seq<ExtractionRun>, clock: nat, c: Correction) {
    c.runId < |extractions| && c.fieldId < |extractions[c.runId].fields| && c.createdAt <= clock && c.reason != ""
  }

  ghost predicate CorrectionsInv(clock: nat, extractions: seq<ExtractionRun>, corrections: seq<Correction>) {
    (forall k | 0 <= k < |corrections| :: ValidCorrection(extractions, clock, corrections[k])) &&
    (forall i, j | 0 <= i < j < |corrections| :: corrections[i].createdAt < corrections[j].createdAt) &&
    Numbered(corrections)
  }

  predicate ValidDecision(extractions: seq<ExtractionRun>, clock: nat, d: DecisionRun) {
    d.extractionRunId < |extractions| && d.createdAt <= clock &&
    var e := extractions[d.extractionRunId];
    e.succeeded && d.firmId == e.firmId && d.clientId == e.clientId && d.documentId == e.documentId &&
    d.sourceSha == e.sourceSha
  }

  ghost predicate Reproducible(
      policy: Policy, extractions: seq<ExtractionRun>, corrections: seq<Correction>, decisions: seq<DecisionRun>,
      i: nat)
    requires i < |decisions|
  {
    decisions[i].Succeeded() ==>
      decisions[i].output.value == Decide(policy, EngineInputAt(extractions, corrections, decisions, i))
  }

  ghost predicate DecisionsInv(
      policy: Policy, clock: nat, extractions: seq<ExtractionRun>, corrections: seq<Correction>,
      decisions: seq<DecisionRun>)
  {
    (forall i | 0 <= i < |decisions| :: ValidDecision(extractions, clock, decisions[i])) &&
    (forall i, j | 0 <= i < j < |decisions| :: decisions[i].createdAt < decisions[j].createdAt) &&
    (forall i | 0 <= i < |decisions| :: Reproducible(policy, extractions, corrections, decisions, i)) &&
    DecisionsPersist(decisions)
  }

  predicate ExtractionsInv(extractions: seq<ExtractionRun>) {
    forall i | 0 <= i < |extractions| :: UniquePaths(extractions[i].fields)
  }

  ghost predicate EvidenceInv(policy: Policy, s: Store) {
    ExtractionsInv(s.extractions) && CorrectionsInv(s.clock, s.extractions, s.corrections) &&
    DecisionsInv(policy, s.clock, s.extractions, s.corrections, s.decisions)
  }

  // ----- what reading an older decision's input depends on

  lemma {:induction false} SnapshotsSame(
      extractions: seq<ExtractionRun>, grown: seq<ExtractionRun>, corrections: seq<Correction>,
      decisions: seq<DecisionRun>, ids: seq<Id>)
    requires extractions <= grown
    requires forall k | 0 <= k < |ids| ::
      ids[k] < |decisions| && decisions[ids[k]].extractionRunId < |extractions|
    ensures SnapshotsNow(grown, corrections, decisions, ids) ==
            SnapshotsNow(extractions, corrections, decisions, ids)
  {
    if ids != [] {
      SnapshotsSame(extractions, grown, corrections, decisions, ids[..|ids| - 1]);
    }
  }

  lemma InputSameGrown(
      extractions: seq<ExtractionRun>, grown: seq<ExtractionRun>, corrections: seq<Correction>,
      decisions: seq<DecisionRun>, i: nat)
    requires extractions <= grown && i < |decisions|
    requires forall k | 0 <= k < |decisions| :: decisions[k].extractionRunId < |extractions|
    ensures EngineInputAt(grown, corrections, decisions, i) == EngineInputAt(extractions, corrections, decisions, i)
  {
    var d := decisions[i];
    RecentRunsInRange(decisions[..i], d.firmId, d.clientId, PRIOR_RUN_LIMIT);
    SnapshotsSame(extractions, grown, AsOf(corrections, d.createdAt), decisions[..i],
                  RecentRuns(decisions[..i], d.firmId, d.clientId, PRIOR_RUN_LIMIT));
  }

  // ----- each call keeps it

  lemma RecordKeepsEvidence(policy: Policy, s: Store, next: Store, e: ExtractionRun)
    requires EvidenceInv(policy, s) && UniquePaths(e.fields)
    requires next.extractions == s.extractions + [e] && next.clock == s.clock + 1
    requires next.corrections == s.corrections && next.decisions == s.decisions
    ensures EvidenceInv(policy, next)
  {
    hide Decide, EngineInputAt;
    forall i | 0 <= i < |s.decisions|
      ensures ValidDecision(next.extractions, next.clock, s.decisions[i])
      ensures Reproducible(policy, next.extractions, s.corrections, s.decisions, i)
    {
      assert forall k | 0 <= k < |s.decisions| :: ValidDecision(s.extractions, s.clock, s.decisions[k]);
      assert Reproducible(policy, s.extractions, s.corrections, s.decisions, i);
      InputSameGrown(s.extractions, next.extractions, s.corrections, s.decisions, i);
    }
    forall k | 0 <= k < |s.corrections|
      ensures ValidCorrection(next.extractions, next.clock, s.corrections[k])
    {
      assert ValidCorrection(s.extractions, s.clock, s.corrections[k]);
    }
  }

  lemma NumberedAppend(corrections: seq<Correction>, c: Correction)
    requires Numbered(corrections) && c.revision == NextRevision(corrections, c.runId, c.fieldId)
    ensures Numbered(corrections + [c])
  {
    NextRevisionCounts(corrections, c.runId, c.fieldId);
    var grown := corrections + [c];
    forall k | 0 <= k < |grown|
      ensures grown[k].revision == 1 + RevisionCount(grown[..k], grown[k].runId, grown[k].fieldId)
    {
      assert grown[..k] == corrections[..k];
      assert corrections[..|corrections|] == corrections;
    }
  }

  lemma AppendKeepsCorrections(clock: nat, extractions: seq<ExtractionRun>, corrections: seq<Correction>, c: Correction)
    requires CorrectionsInv(clock, extractions, corrections)
    requires ValidCorrection(extractions, clock + 1, c) && c.createdAt == clock + 1
    requires c.revision == NextRevision(corrections, c.runId, c.fieldId)
    ensures CorrectionsInv(clock + 1, extractions, corrections + [c])
  {
    hide Numbered, NextRevision;
    NumberedAppend(corrections, c);
    var grown := corrections + [c];
    forall k | 0 <= k < |corrections|
      ensures ValidCorrection(extractions, clock + 1, corrections[k]) && corrections[k].createdAt < c.createdAt
    {
      assert ValidCorrection(extractions, clock, corrections[k]);
    }
  }

  /** A correction that comes later changes no input of an earlier decision. */
  lemma LaterCorrectionUnseen(
      extractions: seq<ExtractionRun>, corrections: seq<Correction>, c: Correction, decisions: seq<DecisionRun>,
      i: nat)
    requires i < |decisions| && decisions[i].createdAt < c.createdAt
    ensures EngineInputAt(extractions, corrections + [c], decisions, i) ==
            EngineInputAt(extractions, corrections, decisions, i)
  {
    hide PriorSnapshotsNow, EffectiveNow, AsOf;
    AsOfAppend(corrections, c, decisions[i].createdAt);
    assert AsOf(corrections + [c], decisions[i].createdAt) == AsOf(corrections, decisions[i].createdAt);
  }

  lemma CorrectKeepsDecisions(policy: Policy, s: Store, c: Correction)
    requires DecisionsInv(policy, s.clock, s.extractions, s.corrections, s.decisions) && c.createdAt == s.clock + 1
    ensures DecisionsInv(policy, s.clock + 1, s.extractions, s.corrections + [c], s.decisions)
  {
    hide Decide, EngineInputAt, DecisionsPersist;
    forall i | 0 <= i < |s.decisions|
      ensures ValidDecision(s.extractions, s.clock + 1, s.decisions[i])
      ensures Reproducible(policy, s.extractions, s.corrections + [c], s.decisions, i)
    {
      assert ValidDecision(s.extractions, s.clock, s.decisions[i]);
      assert Reproducible(policy, s.extractions, s.corrections, s.decisions, i);
      LaterCorrectionUnseen(s.extractions, s.corrections, c, s.decisions, i);
    }
  }

  lemma CorrectKeepsEvidence(policy: Policy, s: Store, next: Store, c: Correction)
    requires EvidenceInv(policy, s) && ValidCorrection(s.extractions, s.clock + 1, c) && c.createdAt == s.clock + 1
    requires c.revision == NextRevision(s.corrections, c.runId, c.fieldId)
    requires next.corrections == s.corrections + [c] && next.clock == s.clock + 1
    requires next.extractions == s.extractions && next.decisions == s.decisions
    ensures EvidenceInv(policy, next)
  {
    hide CorrectionsInv, DecisionsInv, ExtractionsInv;
    AppendKeepsCorrections(s.clock, s.extractions, s.corrections, c);
    CorrectKeepsDecisions(policy, s, c);
  }

  lemma AppendKeepsDecisions(policy: Policy, s: Store, d: DecisionRun)
    requires EvidenceInv(policy, s) && DecisionsPersist(s.decisions + [d])
    requires ValidDecision(s.extractions, s.clock + 1, d) && d.createdAt == s.clock + 1
    requires Reproducible(policy, s.extractions, s.corrections, s.decisions + [d], |s.decisions|)
    ensures DecisionsInv(policy, s.clock + 1, s.extractions, s.corrections, s.decisions + [d])
  {
    hide Decide, EngineInputAt, DecisionsPersist, CorrectionsInv, ExtractionsInv;
    var n, grown := |s.decisions|, s.decisions + [d];
    forall i | 0 <= i < |grown|
      ensures ValidDecision(s.extractions, s.clock + 1, grown[i])
      ensures Reproducible(policy, s.extractions, s.corrections, grown, i)
      ensures i < n ==> grown[i].createdAt < d.createdAt
    {
      if i < n {
        assert ValidDecision(s.extractions, s.clock, s.decisions[i]);
        assert Reproducible(policy, s.extractions, s.corrections, s.decisions, i);
        EarlierInputSame(s.extractions, s.corrections, s.decisions, grown, i);
      }
    }
  }

  lemma DecideKeepsEvidence(policy: Policy, s: Store, next: Store, d: DecisionRun)
    requires EvidenceInv(policy, s) && DecisionsPersist(next.decisions)
    requires ValidDecision(s.extractions, s.clock + 1, d) && d.createdAt == s.clock + 1
    requires Reproducible(policy, s.extractions, s.corrections, s.decisions + [d], |s.decisions|)
    requires next.decisions == s.decisions + [d] && next.clock == s.clock + 1
    requires next.extractions == s.extractions && next.corrections == s.corrections
    ensures EvidenceInv(policy, next)
  {
    hide DecisionsPersist, Numbered, DecisionsInv, Reproducible;
    AppendKeepsDecisions(policy, s, d);
    forall k | 0 <= k < |next.corrections|
      ensures ValidCorrection(next.extractions, next.clock, next.corrections[k])
    {
      assert ValidCorrection(s.extractions, s.clock, s.corrections[k]);
    }
  }

  lemma EarlierInputSame(
      extractions: seq<ExtractionRun>, corrections: seq<Correction>, decisions: seq<DecisionRun>,
      grown: seq<DecisionRun>, i: nat)
    requires i < |decisions| && decisions <= grown
    ensures EngineInputAt(extractions, corrections, grown, i) == EngineInputAt(extractions, corrections, decisions, i)
  {
    assert grown[..i] == decisions[..i];
  }

  lemma NewDecisionReproducible(policy: Policy, s: Store, path: RunPath, engineRaises: bool)
    requires EvidenceInv(policy, s) && path.runId < |s.extractions| && s.extractions[path.runId].succeeded
    ensures var next, n := StartDecisionNext(policy, s, path, engineRaises), |s.decisions|;
      && next.decisions == s.decisions + [next.decisions[n]] && next.decisions[n].createdAt == s.clock + 1
      && ValidDecision(s.extractions, s.clock + 1, next.decisions[n])
      && Reproducible(policy, s.extractions, s.corrections, next.decisions, n)
  {
    hide Decide, PriorSnapshotsNow, EffectiveNow, DecisionsInv;
    var next, n := StartDecisionNext(policy, s, path, engineRaises), |s.decisions|;
    assert next.decisions[..n] == s.decisions;
    AllKnown(s, next.clock);
    AsOfEverything(s.corrections, next.clock);
  }

  lemma AllKnown(s: Store, instant: nat)
    requires CorrectionsInv(s.clock, s.extractions, s.corrections) && s.clock <= instant
    ensures forall k | 0 <= k < |s.corrections| :: s.corrections[k].createdAt <= instant
  {
    assert forall k | 0 <= k < |s.corrections| :: ValidCorrection(s.extractions, s.clock, s.corrections[k]);
  }

  /** Steps that only move the clock forward. */
  lemma ClockKeepsEvidence(policy: Policy, s: Store, next: Store)
    requires EvidenceInv(policy, s) && s.clock <= next.clock
    requires next.extractions == s.extractions && next.corrections == s.corrections && next.decisions == s.decisions
    ensures EvidenceInv(policy, next)
  {
    hide Reproducible;
    forall k | 0 <= k < |s.corrections|
      ensures ValidCorrection(next.extractions, next.clock, next.corrections[k])
    {
      assert ValidCorrection(s.extractions, s.clock, s.corrections[k]);
    }
    forall i | 0 <= i < |s.decisions|
      ensures ValidDecision(next.extractions, next.clock, next.decisions[i])
    {
      assert ValidDecision(s.extractions, s.clock, s.decisions[i]);
    }
  }

  /** The constraints on corrections never fire. */
  lemma CorrectionsStorable(clock: nat, extractions: seq<ExtractionRun>, corrections: seq<Correction>)
    requires CorrectionsInv(clock, extractions, corrections)
    ensures CorrectionsPersist(corrections)
  {
    forall i | 0 <= i < |corrections|
      ensures corrections[i].revision >= 1 && corrections[i].reason != ""
    {
      assert ValidCorrection(extractions, clock, corrections[i]);
    }
    forall i, j | 0 <= i < j < |corrections| && corrections[i].runId == corrections[j].runId &&
                  corrections[i].fieldId == corrections[j].fieldId
      ensures corrections[i].revision != corrections[j].revision
    {
      NumberedRises(corrections, i, j);
    }
  }
}
