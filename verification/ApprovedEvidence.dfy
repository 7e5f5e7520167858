/** Approved evidence is frozen: what that means for journals, projections and later runs. */
module ApprovedEvidence {
  import opened Prelude
  import opened EffectiveValues
  import opened Engine
  import opened ReviewPolicy
  import opened Matching
  import opened Store
  import opened Targets
  import opened EvidenceCalls
  import opened ReviewCalls
  import opened EvidenceInvariant
  import opened ReviewInvariant
  import opened Evolution
  import opened System
  import opened Reachability

  /** The effective values of an outcome's extraction run as the tables stand. */
  function ValuesUnder(s: Store, k: nat): map<string, EffectiveValue>
    requires k < |s.outcomes|
  {
    EffectiveNow(s.extractions, s.corrections, s.outcomes[k].extractionRunId)
  }

  ghost predicate IsApproved(s: Store, k: nat) {
    k < |s.outcomes| && s.outcomes[k].IsApproval()
  }

  // ----- unstale decisions saw today's corrections

  lemma {:induction false} UnstaleSawAll(corrections: seq<Correction>, runId: Id, decidedAt: nat, instant: nat)
    requires !IsStale(corrections, runId, decidedAt) && decidedAt <= instant
    ensures CorrectionsFor(AsOf(corrections, instant), runId) == CorrectionsFor(corrections, runId)
  {
    if corrections != [] {
      var n := |corrections| - 1;
      var front, c := corrections[..n], corrections[n];
      forall k | 0 <= k < n && front[k].runId == runId
        ensures front[k].createdAt <= decidedAt
      {
        assert corrections[k] == front[k];
      }
      UnstaleSawAll(front, runId, decidedAt, instant);
      if c.createdAt <= instant {
        CorrectionsAppend(AsOf(front, instant), c, runId);
      } else {
        assert corrections[n].runId != runId;
        assert AsOf(corrections, instant) == AsOf(front, instant);
      }
    }
  }

  /** At any instant from its decision on, an approved run's values were what they are now. */
  lemma ApprovedValuesAt(policy: Policy, s: Store, k: nat, instant: nat)
    requires Inv(policy, s) && IsApproved(s, k)
    requires s.outcomes[k].decisionRunId < |s.decisions|
    requires s.decisions[s.outcomes[k].decisionRunId].createdAt <= instant
    ensures EffectiveNow(s.extractions, AsOf(s.corrections, instant), s.outcomes[k].extractionRunId) ==
            ValuesUnder(s, k)
  {
    hide EvidenceInv, Effective, AsOf;
    var o := s.outcomes[k];
    assert ValidOutcome(s.corrections, s.decisions, s.tasks, o);
    assert ValidTask(s.decisions, s.tasks[o.taskId]);
    UnstaleSawAll(s.corrections, o.extractionRunId, s.decisions[o.decisionRunId].createdAt, instant);
  }

  // ----- journals

  lemma DecisionJournal(policy: Policy, input: EngineInput)
    ensures Decide(policy, input).journal == JournalFor(policy, input.firmId, input.clientId, input.values)
  {
  }

  /** In every reachable state, an approved journal is the engine's journal for the current
      effective values of its extraction run, and it is balanced. */
  lemma ApprovedJournalIsCurrent(policy: Policy, s: Store, k: nat)
    requires Inv(policy, s) && IsApproved(s, k)
    ensures var o := s.outcomes[k];
      && JournalOf(s.decisions, o.decisionRunId) == JournalFor(policy, o.firmId, o.clientId, ValuesUnder(s, k))
      && JournalOf(s.decisions, o.decisionRunId).Some?
      && JournalOf(s.decisions, o.decisionRunId).value.isBalanced
      && o.journalId == Some(o.decisionRunId)
  {
    hide EvidenceInv, Effective, AsOf, Decide, JournalFor, EffectiveNow, PriorSnapshotsNow, ClassifyReviewRisk;
    var o := s.outcomes[k];
    OutcomeInScope(policy, s, k);
    assert ValidOutcome(s.corrections, s.decisions, s.tasks, o);
    var d := s.decisions[o.decisionRunId];
    ApprovedValuesAt(policy, s, k, d.createdAt);
    var input := EngineInputAt(s.extractions, s.corrections, s.decisions, o.decisionRunId);
    assert d.output.value == Decide(policy, input) by { DecisionReproducible(policy, s, o.decisionRunId); }
    DecisionJournal(policy, input);
  }

  lemma DecisionReproducible(policy: Policy, s: Store, i: nat)
    requires EvidenceInv(policy, s) && i < |s.decisions| && s.decisions[i].Succeeded()
    ensures s.decisions[i].output.value == Decide(policy, EngineInputAt(s.extractions, s.corrections, s.decisions, i))
  {
    hide Decide, EngineInputAt;
    assert Reproducible(policy, s.extractions, s.corrections, s.decisions, i);
  }

  /** All approved decisions on one extraction run carry the same journal. */
  lemma OneJournalPerRun(policy: Policy, s: Store, k: nat, l: nat)
    requires Inv(policy, s) && IsApproved(s, k) && IsApproved(s, l)
    requires s.outcomes[k].extractionRunId == s.outcomes[l].extractionRunId
    ensures JournalOf(s.decisions, s.outcomes[k].decisionRunId) == JournalOf(s.decisions, s.outcomes[l].decisionRunId)
  {
    hide ReviewInv, Reproducible, JournalFor;
    ApprovedJournalIsCurrent(policy, s, k);
    ApprovedJournalIsCurrent(policy, s, l);
    OutcomeInScope(policy, s, k);
    OutcomeInScope(policy, s, l);
    assert ValidDecision(s.extractions, s.clock, s.decisions[s.outcomes[k].decisionRunId]);
    assert ValidDecision(s.extractions, s.clock, s.decisions[s.outcomes[l].decisionRunId]);
  }

  /** Once approved at some point of a run, an outcome's own row, its effective values, its
      journal and its projected target are the same ever after. */
  lemma FrozenForever(policy: Policy, requests: seq<Request>, i: nat, k: nat)
    requires i <= |requests| && IsApproved(Reached(policy, requests[..i]), k)
    ensures var earlier, now := Reached(policy, requests[..i]), Reached(policy, requests);
      && IsApproved(now, k) && now.outcomes[k] == earlier.outcomes[k]
      && ValuesUnder(now, k) == ValuesUnder(earlier, k)
      && JournalOf(now.decisions, now.outcomes[k].decisionRunId) ==
         JournalOf(earlier.decisions, earlier.outcomes[k].decisionRunId)
      && ProjectNow(policy.lexicon, now, k) == ProjectNow(policy.lexicon, earlier, k)
  {
    hide Run, EvidenceInv, ReviewInv, Project, JournalFor;
    var earlier, now := Reached(policy, requests[..i]), Reached(policy, requests);
    ReachedKeeps(policy, requests[..i]);
    ReachedEvolves(policy, requests, i);
    OutcomeInScope(policy, earlier, k);
    ApprovedValuesFrozen(earlier, now, k);
  }

  /** And no caller, whatever their role, can correct a field of the run under it. */
  lemma ApprovedRunLocked(policy: Policy, s: Store, k: nat, ctx: Context, path: FieldPath, request: CorrectionRequest)
    requires IsApproved(s, k) && path.runId == s.outcomes[k].extractionRunId
    ensures Handle(policy, s, Request(ctx, CorrectField(path, request))).next == s
    ensures Handle(policy, s, Request(ctx, CorrectField(path, request))).error.Some?
  {
    assert IsApprovalOf(s.outcomes[k], path.runId);
  }

  // ----- projection

  /** In every reachable state an approved outcome projects to a reconciliation target exactly
      when its invoice date parses, with the approved amount and currency, the invoice's number
      as reference and its supplier as counterparty: the document type, balance, amount and
      currency rejections are unreachable. */
  lemma ProjectionComplete(policy: Policy, s: Store, k: nat)
    requires Inv(policy, s) && IsApproved(s, k)
    ensures var o := s.outcomes[k];
      var target := ProjectNow(policy.lexicon, s, k);
      var journal := JournalOf(s.decisions, o.decisionRunId);
      && (target.Some? <==> EffectiveDate(policy.lexicon, ValuesUnder(s, k)).Some?)
      && (target.Some? ==>
          && ValidTarget(target.value) && journal.Some?
          && target.value.amount == journal.value.totalDebits
          && target.value.currency == journal.value.currency
          && target.value.outcomeId == k && target.value.firmId == o.firmId && target.value.clientId == o.clientId
          && target.value.decisionRunId == o.decisionRunId && target.value.documentId == o.documentId
          && target.value.direction == Debit
          && target.value.reference == FieldText(ValuesUnder(s, k), "invoice.number")
          && target.value.counterparty == FieldText(ValuesUnder(s, k), "supplier.name")
          && FieldText(ValuesUnder(s, k), "invoice.date").Some?
          && policy.lexicon.parseDate(FieldText(ValuesUnder(s, k), "invoice.date").value) == Some(target.value.date)
          && target.value.date == EffectiveDate(policy.lexicon, ValuesUnder(s, k)).value)
  {
    hide Inv, JournalFor, FieldText;
    ApprovedJournalIsCurrent(policy, s, k);
    ProjectionExact(policy, k, s.outcomes[k], ValuesUnder(s, k));
  }
}
