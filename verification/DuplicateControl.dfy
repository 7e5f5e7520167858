/** Which approved duplicates the detector saw, exactly, and who approved them. */
module DuplicateControl {
  import opened Prelude
  import opened EffectiveValues
  import opened Engine
  import opened ReviewPolicy
  import opened Identity
  import opened Store
  import opened EvidenceCalls
  import opened EvidenceInvariant
  import opened ReviewLog
  import opened ReviewInvariant
  import opened Evolution
  import opened Reachability
  import opened ApprovedEvidence

  // ----- the window of prior decisions

  /** A decision that produced an output for the client. */
  predicate IsPeer(d: DecisionRun, firmId: Id, clientId: Id) {
    d.output.Some? && d.firmId == firmId && d.clientId == clientId
  }

  /** How many succeeded decisions of a client come after the first n. */
  function SucceededFrom(decisions: seq<DecisionRun>, n: nat, firmId: Id, clientId: Id): nat {
    if |decisions| <= n then 0
    else
      var last := |decisions| - 1;
      SucceededFrom(decisions[..last], n, firmId, clientId) +
      if IsPeer(decisions[last], firmId, clientId) then 1 else 0
  }

  /** A decision is among the most recent ones exactly when it succeeded for the client and
      fewer than the limit did so after it. */
  lemma {:induction false} RecentExact(decisions: seq<DecisionRun>, firmId: Id, clientId: Id, limit: nat, i: nat)
    ensures i in RecentRuns(decisions, firmId, clientId, limit) <==>
      && i < |decisions| && IsPeer(decisions[i], firmId, clientId)
      && SucceededFrom(decisions, i + 1, firmId, clientId) < limit
  {
    if decisions != [] && limit > 0 {
      var last := |decisions| - 1;
      if IsSucceededFor(decisions[last], firmId, clientId) {
        RecentExact(decisions[..last], firmId, clientId, limit - 1, i);
      } else {
        RecentExact(decisions[..last], firmId, clientId, limit, i);
      }
    }
  }

  /** Fewer than fifty succeeded decisions of the client lie between two decisions. */
  ghost predicate InWindow(decisions: seq<DecisionRun>, earlier: nat, later: nat)
    requires earlier < later < |decisions|
  {
    SucceededFrom(decisions[..later], earlier + 1, decisions[later].firmId, decisions[later].clientId) < 50
  }

  lemma {:induction false} SnapshotsAre(
      extractions: seq<ExtractionRun>, corrections: seq<Correction>, decisions: seq<DecisionRun>, ids: seq<Id>)
    requires forall k | 0 <= k < |ids| :: ids[k] < |decisions|
    ensures var snapshots := SnapshotsNow(extractions, corrections, decisions, ids);
      && |snapshots| == |ids|
      && forall k | 0 <= k < |ids| :: snapshots[k] == SnapshotNow(extractions, corrections, decisions, ids[k])
  {
    hide SnapshotNow;
    if ids != [] {
      SnapshotsAre(extractions, corrections, decisions, ids[..|ids| - 1]);
    }
  }

  /** The engine was shown decision i exactly when it is in the window, and as it then stood. */
  lemma PriorShown(
      extractions: seq<ExtractionRun>, known: seq<Correction>, decisions: seq<DecisionRun>, firmId: Id, clientId: Id,
      i: nat)
    ensures var priors := PriorSnapshotsNow(extractions, known, decisions, firmId, clientId);
      var shown := i < |decisions| && IsPeer(decisions[i], firmId, clientId) &&
                   SucceededFrom(decisions, i + 1, firmId, clientId) < PRIOR_RUN_LIMIT;
      && (shown ==> SnapshotNow(extractions, known, decisions, i) in priors)
      && (forall p | p in priors && p.decisionRunId == i :: shown && p == SnapshotNow(extractions, known, decisions, i))
  {
    hide RecentRuns, SnapshotsNow, PriorSnapshotsNow, SucceededFrom, IsPeer, EffectiveNow;
    var ids := RecentRuns(decisions, firmId, clientId, PRIOR_RUN_LIMIT);
    var priors := PriorSnapshotsNow(extractions, known, decisions, firmId, clientId);
    RecentRunsInRange(decisions, firmId, clientId, PRIOR_RUN_LIMIT);
    SnapshotsAre(extractions, known, decisions, ids);
    RecentExact(decisions, firmId, clientId, PRIOR_RUN_LIMIT, i);
    assert priors == SnapshotsNow(extractions, known, decisions, ids) by {
      SnapshotsUnfold(extractions, known, decisions, firmId, clientId);
    }
    if i in ids {
      var k :| 0 <= k < |ids| && ids[k] == i;
      assert priors[k] == SnapshotNow(extractions, known, decisions, i);
    }
    forall p | p in priors && p.decisionRunId == i
      ensures i in ids && p == SnapshotNow(extractions, known, decisions, i)
    {
      var k :| 0 <= k < |priors| && priors[k] == p;
      assert p == SnapshotNow(extractions, known, decisions, ids[k]);
    }
  }

  lemma SnapshotsUnfold(
      extractions: seq<ExtractionRun>, known: seq<Correction>, decisions: seq<DecisionRun>, firmId: Id, clientId: Id)
    requires var ids := RecentRuns(decisions, firmId, clientId, PRIOR_RUN_LIMIT);
      forall k | 0 <= k < |ids| :: ids[k] < |decisions|
    ensures PriorSnapshotsNow(extractions, known, decisions, firmId, clientId) ==
      SnapshotsNow(extractions, known, decisions, RecentRuns(decisions, firmId, clientId, PRIOR_RUN_LIMIT))
  {
  }

  // ----- what one decision reports

  /** An engine run reports prior decision i exactly when it was shown a resembling
      decision i of another document. */
  lemma ReportsExact(policy: Policy, input: EngineInput, i: nat)
    requires IsSupported(FieldText(input.values, DOCUMENT_TYPE))
    ensures Reports(Decide(policy, input).duplicates, i) <==>
      exists k | 0 <= k < |input.priors| :: input.priors[k].decisionRunId == i && IsDuplicateOf(input, input.priors[k])
  {
    hide Decide, IsDuplicateOf, DuplicateOf;
    DecisionDuplicates(policy, input);
    var duplicates := DuplicateCandidates(input, input.priors);
    if Reports(duplicates, i) {
      var j :| 0 <= j < |duplicates| && duplicates[j].decisionRunId == i;
      var k := ReportedIsDuplicate(input, input.priors, j);
    }
    if k :| 0 <= k < |input.priors| && input.priors[k].decisionRunId == i && IsDuplicateOf(input, input.priors[k]) {
      DuplicateReported(input, input.priors, k);
    }
  }

  lemma DecisionDuplicates(policy: Policy, input: EngineInput)
    requires IsSupported(FieldText(input.values, DOCUMENT_TYPE))
    ensures Decide(policy, input).duplicates == DuplicateCandidates(input, input.priors)
  {
    hide DuplicateCandidates, ExtractionFindings, MatchSupplier, MatchedEntry, JournalFor, FieldText;
  }

  // ----- two approved outcomes

  /** Two approved outcomes of one client, the second decided later. */
  ghost predicate DecidedInOrder(s: Store, a: nat, b: nat) {
    IsApproved(s, a) && IsApproved(s, b) &&
    s.outcomes[a].firmId == s.outcomes[b].firmId && s.outcomes[a].clientId == s.outcomes[b].clientId &&
    s.outcomes[a].decisionRunId < s.outcomes[b].decisionRunId < |s.decisions|
  }

  /** Their documents differ and their current evidence is alike. */
  ghost predicate Resemble(s: Store, a: nat, b: nat)
    requires DecidedInOrder(s, a, b)
  {
    s.outcomes[a].documentId != s.outcomes[b].documentId &&
    Similar(s.decisions[s.outcomes[b].decisionRunId].sourceSha, ValuesUnder(s, b),
            s.decisions[s.outcomes[a].decisionRunId].sourceSha, ValuesUnder(s, a))
  }

  /** How the later decision saw the two: each with the values it has today. */
  lemma SeenAsToday(policy: Policy, s: Store, a: nat, b: nat)
    requires Inv(policy, s) && DecidedInOrder(s, a, b)
    ensures var i, j := s.outcomes[a].decisionRunId, s.outcomes[b].decisionRunId;
      var d, input := s.decisions[j], EngineInputAt(s.extractions, s.corrections, s.decisions, j);
      && input.documentId == s.outcomes[b].documentId && input.sourceSha == d.sourceSha
      && input.values == ValuesUnder(s, b)
      && SnapshotNow(s.extractions, AsOf(s.corrections, d.createdAt), s.decisions[..j], i) ==
         PriorSnapshot(i, s.outcomes[a].documentId, s.outcomes[a].extractionRunId, s.decisions[i].sourceSha,
                       ValuesUnder(s, a))
  {
    hide EvidenceInv, ReviewInv, EffectiveNow, AsOf, PriorSnapshotsNow;
    var i, j := s.outcomes[a].decisionRunId, s.outcomes[b].decisionRunId;
    OutcomeInScope(policy, s, a);
    OutcomeInScope(policy, s, b);
    ApprovedValuesAt(policy, s, b, s.decisions[j].createdAt);
    DecidedEarlier(policy, s, i, j);
    ApprovedValuesAt(policy, s, a, s.decisions[j].createdAt);
  }

  /** The later decision reports the earlier one exactly when the two resemble each other as
      the evidence stands today and fewer than fifty decisions lie between them. */
  lemma DuplicateExact(policy: Policy, s: Store, a: nat, b: nat)
    requires Inv(policy, s) && DecidedInOrder(s, a, b)
    ensures s.decisions[s.outcomes[b].decisionRunId].Succeeded()
    ensures Reports(s.decisions[s.outcomes[b].decisionRunId].output.value.duplicates, s.outcomes[a].decisionRunId)
      <==> Resemble(s, a, b) && InWindow(s.decisions, s.outcomes[a].decisionRunId, s.outcomes[b].decisionRunId)
  {
    hide Inv, EvidenceInv, Similar, Decide, SnapshotNow, EffectiveNow, AsOf, PriorSnapshotsNow, IsPeer,
      ValuesUnder, Reports, SucceededFrom;
    var i, j := s.outcomes[a].decisionRunId, s.outcomes[b].decisionRunId;
    var d, input := s.decisions[j], EngineInputAt(s.extractions, s.corrections, s.decisions, j);
    var known := AsOf(s.corrections, d.createdAt);
    BothInScope(policy, s, a, b);
    SeenAsToday(policy, s, a, b);
    ReportsExact(policy, input, i);
    PriorShown(s.extractions, known, s.decisions[..j], d.firmId, d.clientId, i);
    SucceededForClient(s.decisions[i], d);
    var snapshot := SnapshotNow(s.extractions, known, s.decisions[..j], i);
    assert IsDuplicateOf(input, snapshot) <==> Resemble(s, a, b);
    if snapshot in input.priors {
      var k :| 0 <= k < |input.priors| && input.priors[k] == snapshot;
    }
  }

  lemma BothInScope(policy: Policy, s: Store, a: nat, b: nat)
    requires Inv(policy, s) && DecidedInOrder(s, a, b)
    ensures var i, j := s.outcomes[a].decisionRunId, s.outcomes[b].decisionRunId;
      var input := EngineInputAt(s.extractions, s.corrections, s.decisions, j);
      && s.decisions[i].Succeeded() && s.decisions[j].Succeeded()
      && s.decisions[i].firmId == s.decisions[j].firmId && s.decisions[i].clientId == s.decisions[j].clientId
      && s.decisions[j].output.value == Decide(policy, input)
      && IsSupported(FieldText(input.values, DOCUMENT_TYPE))
  {
    hide EvidenceInv, ReviewInv, Decide, EngineInputAt, FieldText;
    OutcomeInScope(policy, s, a);
    OutcomeInScope(policy, s, b);
    DecisionReproducible(policy, s, s.outcomes[b].decisionRunId);
    ApprovedIsSupported(policy, s, b);
    SeenAsToday(policy, s, a, b);
  }

  lemma SucceededForClient(d: DecisionRun, later: DecisionRun)
    requires d.Succeeded() && d.firmId == later.firmId && d.clientId == later.clientId
    ensures IsPeer(d, later.firmId, later.clientId)
  {
  }

  lemma DecidedEarlier(policy: Policy, s: Store, i: nat, j: nat)
    requires EvidenceInv(policy, s) && i < j < |s.decisions|
    ensures s.decisions[i].createdAt < s.decisions[j].createdAt
  {
    hide Reproducible;
  }

  lemma ApprovedIsSupported(policy: Policy, s: Store, k: nat)
    requires Inv(policy, s) && IsApproved(s, k)
    ensures IsSupported(FieldText(ValuesUnder(s, k), DOCUMENT_TYPE))
  {
    hide Inv, EffectiveNow, MatchSupplier, MatchedEntry, FieldText, MonetaryFindings, ReadCurrency;
    ApprovedJournalIsCurrent(policy, s, k);
  }

  /** A task approved by the very membership that its one escalation named, in the senior role. */
  ghost predicate ApprovedBySenior(s: Store, k: nat)
    requires IsApproved(s, k)
  {
    var o := s.outcomes[k];
    var log := CommentsFor(s.comments, o.taskId);
    o.taskId < |s.tasks| && s.tasks[o.taskId].escalation == SeniorReview && o.actorRole == SeniorReviewer &&
    Count(log, EscalationReason) == 1 &&
    forall i | 0 <= i < |log| && log[i].kind == EscalationReason :: log[i].assignedSenior == Some(o.actor)
  }

  lemma {:induction false} EscalationNames(log: seq<Comment>, i: nat)
    requires LegalLog(log) && i < |log| && log[i].kind == EscalationReason
    ensures Replay(log).senior == log[i].assignedSenior
  {
    var n := |log| - 1;
    if i < n {
      EscalationNames(log[..n], i);
      LegalPrefix(log, i + 1);
      assert log[..i + 1][..i] == log[..i];
      LogCounts(log[..n]);
    }
  }

  /** Every approval of a task at senior risk is a senior approval. */
  lemma SeniorTaskNeedsSenior(s: Store, k: nat)
    requires ReviewInv(s) && IsApproved(s, k)
    requires s.outcomes[k].taskId < |s.tasks| && s.tasks[s.outcomes[k].taskId].risk == SeniorRequired
    ensures ApprovedBySenior(s, k)
  {
    hide ClassifyReviewRisk;
    var o := s.outcomes[k];
    var log := CommentsFor(s.comments, o.taskId);
    assert ValidOutcome(s.corrections, s.decisions, s.tasks, o);
    assert LogReplays(s.comments, s.outcomes, s.tasks[o.taskId], o.taskId);
    LogCounts(log);
    forall i | 0 <= i < |log| && log[i].kind == EscalationReason
      ensures log[i].assignedSenior == Some(o.actor)
    {
      EscalationNames(log, i);
    }
  }

  /** The stored risk of an approved task, in terms of the engine's input: senior exactly when
      it saw a duplicate or a low confidence, and never blocked. */
  lemma ApprovedRiskExact(policy: Policy, s: Store, k: nat)
    requires Inv(policy, s) && IsApproved(s, k)
    ensures var o := s.outcomes[k];
      && o.taskId < |s.tasks| && o.decisionRunId < |s.decisions|
      && var input := EngineInputAt(s.extractions, s.corrections, s.decisions, o.decisionRunId);
      s.tasks[o.taskId].risk ==
        if HasDuplicate(input) || HasLowConfidence(ValuesUnder(s, k)) then SeniorRequired else Ordinary
  {
    hide EvidenceInv, Decide, EffectiveNow, AsOf, PriorSnapshotsNow, ClassifyReviewRisk, HasDuplicate,
      HasLowConfidence, PassesControls;
    var o := s.outcomes[k];
    OutcomeInScope(policy, s, k);
    assert ValidOutcome(s.corrections, s.decisions, s.tasks, o);
    assert ValidTask(s.decisions, s.tasks[o.taskId]);
    DecisionReproducible(policy, s, o.decisionRunId);
    ApprovedValuesAt(policy, s, k, s.decisions[o.decisionRunId].createdAt);
    Verdict(policy, EngineInputAt(s.extractions, s.corrections, s.decisions, o.decisionRunId));
  }

  /** The engine, deciding j, was shown succeeded decision i of the client on another document,
      resembling j's evidence as i's then stood. */
  ghost predicate SawDuplicate(s: Store, i: nat, j: nat)
    requires i < j < |s.decisions|
  {
    var e, d := s.decisions[i], s.decisions[j];
    var known := AsOf(s.corrections, d.createdAt);
    IsPeer(e, d.firmId, d.clientId) && InWindow(s.decisions, i, j) && e.documentId != d.documentId &&
    Similar(d.sourceSha, EffectiveNow(s.extractions, known, d.extractionRunId),
            e.sourceSha, EffectiveNow(s.extractions, known, e.extractionRunId))
  }

  lemma DuplicateShown(s: Store, j: nat)
    requires j < |s.decisions|
    ensures HasDuplicate(EngineInputAt(s.extractions, s.corrections, s.decisions, j)) <==>
      exists i: nat | i < j :: SawDuplicate(s, i, j)
  {
    hide EffectiveNow, AsOf, PriorSnapshotsNow, IsPeer, SucceededFrom, Similar;
    var d, input := s.decisions[j], EngineInputAt(s.extractions, s.corrections, s.decisions, j);
    var known := AsOf(s.corrections, d.createdAt);
    if HasDuplicate(input) {
      var k :| 0 <= k < |input.priors| && IsDuplicateOf(input, input.priors[k]);
      var i := input.priors[k].decisionRunId;
      PriorShown(s.extractions, known, s.decisions[..j], d.firmId, d.clientId, i);
      assert input.priors[k] in input.priors;
      assert SawDuplicate(s, i, j);
    }
    if i: nat :| i < j && SawDuplicate(s, i, j) {
      PriorShown(s.extractions, known, s.decisions[..j], d.firmId, d.clientId, i);
      var snapshot := SnapshotNow(s.extractions, known, s.decisions[..j], i);
      assert snapshot in input.priors;
      var k :| 0 <= k < |input.priors| && input.priors[k] == snapshot;
      assert IsDuplicateOf(input, input.priors[k]);
    }
  }

  /** Exactly when an approval needed a senior: its evidence is of low confidence, or its
      decision was shown a resembling one. Otherwise its task is ordinary. */
  lemma SeniorNeededExactly(policy: Policy, s: Store, k: nat)
    requires Inv(policy, s) && IsApproved(s, k)
    ensures var o := s.outcomes[k];
      && o.taskId < |s.tasks| && o.decisionRunId < |s.decisions|
      && (s.tasks[o.taskId].risk == SeniorRequired <==>
            HasLowConfidence(ValuesUnder(s, k)) ||
            exists i: nat | i < o.decisionRunId :: SawDuplicate(s, i, o.decisionRunId))
      && (s.tasks[o.taskId].risk != SeniorRequired ==> s.tasks[o.taskId].risk == Ordinary)
  {
    hide Inv, HasDuplicate, HasLowConfidence, SawDuplicate, EngineInputAt, ValuesUnder;
    ApprovedRiskExact(policy, s, k);
    DuplicateShown(s, s.outcomes[k].decisionRunId);
  }

  /** Of two approved outcomes whose evidence resembles each other today, the one decided later
      was approved by the senior its escalation named, if fewer than fifty decisions of the
      client lie between the two. */
  lemma DuplicateNeedsSenior(policy: Policy, s: Store, a: nat, b: nat)
    requires Inv(policy, s) && DecidedInOrder(s, a, b) && Resemble(s, a, b)
    requires InWindow(s.decisions, s.outcomes[a].decisionRunId, s.outcomes[b].decisionRunId)
    ensures s.outcomes[b].taskId < |s.tasks| && s.tasks[s.outcomes[b].taskId].risk == SeniorRequired
    ensures ApprovedBySenior(s, b)
  {
    hide EvidenceInv, ReviewInv, Resemble, Decide, EngineInputAt, InWindow, IsDuplicateOf;
    var j := s.outcomes[b].decisionRunId;
    var input := EngineInputAt(s.extractions, s.corrections, s.decisions, j);
    DuplicateExact(policy, s, a, b);
    DecisionReproducible(policy, s, j);
    ApprovedRiskExact(policy, s, b);
    ReportsSomething(policy, input, s.outcomes[a].decisionRunId);
    SeniorTaskNeedsSenior(s, b);
  }

  lemma ReportsSomething(policy: Policy, input: EngineInput, i: nat)
    requires Reports(Decide(policy, input).duplicates, i)
    ensures HasDuplicate(input)
  {
    hide DuplicateCandidates, ExtractionFindings, MatchSupplier, MatchedEntry, JournalFor, FieldText, HasDuplicate;
    DuplicatesFound(input);
  }
}
