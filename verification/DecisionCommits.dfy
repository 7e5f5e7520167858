/** When a decision run's output can be stored. */
module DecisionCommits {
  import opened Prelude
  import opened Text
  import opened Engine
  import opened ReviewPolicy
  import opened Store
  import opened EvidenceCalls
  import opened EvidenceInvariant
  import opened ReviewInvariant
  import opened ReconciliationInvariant
  import opened System
  import opened Reachability
  import opened DuplicateControl

  predicate CompleteEntry(e: SupplierEntry) {
    e.reference != "" && e.name != "" && e.glAccount != "" && e.category != "" && e.taxCode != "" &&
    (e.costCentre.Some? ==> e.costCentre.value != "")
  }

  predicate DistinctReferences(entries: seq<SupplierEntry>) {
    forall i, j | 0 <= i < j < |entries| :: entries[i].reference != entries[j].reference
  }

  /** A policy whose output the tables accept: complete entries under distinct references, and
      no credit adjustment. */
  predicate StorablePolicy(policy: Policy) {
    (forall i | 0 <= i < |policy.directory| :: CompleteEntry(policy.directory[i])) &&
    DistinctReferences(policy.directory) && policy.creditAdjustment == 0
  }

  lemma {:induction false} ScopedFrom(directory: seq<SupplierEntry>, firmId: Id, clientId: Id)
    requires DistinctReferences(directory)
    requires forall i | 0 <= i < |directory| :: CompleteEntry(directory[i])
    ensures var entries := ScopedDirectory(directory, firmId, clientId);
      && DistinctReferences(entries)
      && forall i | 0 <= i < |entries| :: CompleteEntry(entries[i]) && entries[i] in directory
  {
    if directory != [] {
      ScopedFrom(directory[1..], firmId, clientId);
      var rest := ScopedDirectory(directory[1..], firmId, clientId);
      forall i | 0 <= i < |rest|
        ensures rest[i].reference != directory[0].reference
      {
        var k :| 0 <= k < |directory[1..]| && directory[1..][k] == rest[i];
        assert directory[k + 1] == rest[i];
      }
    }
  }

  lemma {:induction false} CandidatesStorable(
      entries: seq<SupplierEntry>, normalized: string, held: seq<SupplierCandidate>)
    requires DistinctReferences(entries) && SupplierCandidatesPersist(held)
    requires forall i | 0 <= i < |entries| :: CompleteEntry(entries[i])
    requires forall i, k | 0 <= i < |entries| && 0 <= k < |held| :: entries[i].reference != held[k].reference
    ensures SupplierCandidatesPersist(MatchEntries(entries, normalized, held).candidates)
  {
    hide MatchesExactly, MatchesPartially;
    if entries != [] && !MatchesExactly(entries[0], normalized) {
      var next := if MatchesPartially(entries[0], normalized)
        then held + [SupplierCandidate(entries[0].reference, entries[0].name, false)] else held;
      CandidatesStorable(entries[1..], normalized, next);
    }
  }

  ghost predicate DistinctPriors(priors: seq<PriorSnapshot>) {
    forall i, j | 0 <= i < j < |priors| :: priors[i].decisionRunId != priors[j].decisionRunId
  }

  lemma ConfidenceInRange(input: EngineInput, prior: PriorSnapshot)
    ensures DuplicateOf(input, prior).Some? ==> 0 <= DuplicateOf(input, prior).value.confidence <= 10_000
  {
    hide AgreeOn;
    FieldSignalsCount(input.values, prior.values);
    FieldSignalsAmong(input.values, prior.values, SIGNAL_FIELDS);
    ShaIsNoField();
    if input.sourceSha == prior.sourceSha {
      assert DuplicateSignals(input.sourceSha, input.values, prior)[0] == SOURCE_SHA_SIGNAL;
    } else {
      assert DuplicateSignals(input.sourceSha, input.values, prior) ==
             FieldSignals(input.values, prior.values, SIGNAL_FIELDS);
    }
  }

  /** Distinct prior decisions are reported at most once each. */
  lemma {:induction false} DuplicatesStorable(input: EngineInput, priors: seq<PriorSnapshot>)
    requires DistinctPriors(priors)
    ensures DuplicatesPersist(DuplicateCandidates(input, priors))
  {
    hide DuplicateOf, IsDuplicateOf;
    if priors != [] {
      var n := |priors| - 1;
      var front := DuplicateCandidates(input, priors[..n]);
      DuplicatesStorable(input, priors[..n]);
      ConfidenceInRange(input, priors[n]);
      DuplicateOfExact(input, priors[n]);
      forall j | 0 <= j < |front|
        ensures front[j].decisionRunId != priors[n].decisionRunId
      {
        var k := ReportedIsDuplicate(input, priors[..n], j);
        assert priors[..n][k] == priors[k];
      }
    }
  }

  lemma {:induction false} EntryFrom(entries: seq<SupplierEntry>, reference: string)
    ensures EntryByReference(entries, reference).Some? ==> EntryByReference(entries, reference).value in entries
  {
    if entries != [] {
      EntryFrom(entries[1..], reference);
    }
  }

  lemma JournalStorable(policy: Policy, input: EngineInput)
    requires StorablePolicy(policy) && JournalFor(policy, input.firmId, input.clientId, input.values).Some?
    ensures JournalPersists(JournalFor(policy, input.firmId, input.clientId, input.values).value)
  {
    JournalTotals(policy, input);
    JournalLines(policy, input);
    MappedStorable(policy, input);
    hide JournalFor, MatchSupplier, MatchedEntry, ScopedDirectory, SupplierCandidatesPersist, StorablePolicy;
  }

  lemma JournalTotals(policy: Policy, input: EngineInput)
    requires StorablePolicy(policy) && JournalFor(policy, input.firmId, input.clientId, input.values).Some?
    ensures var journal := JournalFor(policy, input.firmId, input.clientId, input.values).value;
      && journal.currency != "" && 0 <= journal.totalDebits <= MAX_MONEY && 0 <= journal.totalCredits <= MAX_MONEY
      && (journal.isBalanced <==> journal.totalDebits == journal.totalCredits)
  {
    hide JournalFor, ReadMoney, KnownSupplier, FieldText;
    JournalExact(policy, input);
  }

  /** The matched entry is a complete one of the policy's. */
  lemma MappedStorable(policy: Policy, input: EngineInput)
    requires StorablePolicy(policy)
    ensures var entries := ScopedDirectory(policy.directory, input.firmId, input.clientId);
      var supplierMatch := MatchSupplier(entries, input.values);
      && SupplierCandidatesPersist(supplierMatch.candidates)
      && (MatchedEntry(entries, supplierMatch).Some? ==> CompleteEntry(MatchedEntry(entries, supplierMatch).value))
  {
    hide FieldText, MatchEntries, CompleteEntry;
    var entries := ScopedDirectory(policy.directory, input.firmId, input.clientId);
    ScopedFrom(policy.directory, input.firmId, input.clientId);
    if FieldText(input.values, SUPPLIER_NAME).Some? {
      CandidatesStorable(entries, NormalizeName(FieldText(input.values, SUPPLIER_NAME).value), []);
    }
    var supplierMatch := MatchSupplier(entries, input.values);
    if supplierMatch.candidates != [] {
      EntryFrom(entries, supplierMatch.candidates[0].reference);
    }
  }

  lemma RecommendationsStorable(entry: Option<SupplierEntry>)
    requires entry.Some? ==> CompleteEntry(entry.value)
    ensures forall i | 0 <= i < |Recommendations(entry)| :: Recommendations(entry)[i].value != ""
  {
  }

  /** Where a decision's parts come from; an unsupported document has none. */
  lemma DecisionParts(policy: Policy, input: EngineInput)
    ensures var output := Decide(policy, input);
      var entries := ScopedDirectory(policy.directory, input.firmId, input.clientId);
      var supplierMatch := MatchSupplier(entries, input.values);
      && output.journal == JournalFor(policy, input.firmId, input.clientId, input.values)
      && output.supplierMatch in {supplierMatch, SupplierMatch(NoMatch, [])}
      && output.duplicates in {DuplicateCandidates(input, input.priors), []}
      && output.recommendations in {Recommendations(MatchedEntry(entries, supplierMatch)), []}
  {
    hide ExtractionFindings, DuplicateCandidates, FieldText, MatchSupplier, MatchedEntry, Recommendations,
      ScopedDirectory, MonetaryFindings, ReadCurrency, ProposedJournal, MonetaryValues;
  }

  /** A storable policy's output meets every constraint, whatever the values. */
  lemma OutputStorable(policy: Policy, input: EngineInput)
    requires StorablePolicy(policy) && DistinctPriors(input.priors)
    ensures OutputPersists(Decide(policy, input))
  {
    hide Decide, DuplicateCandidates, MatchSupplier, MatchedEntry, JournalFor, JournalPersists, ScopedDirectory,
      SupplierCandidatesPersist, DuplicatesPersist, StorablePolicy, CompleteEntry, Recommendations;
    DecisionParts(policy, input);
    MappedStorable(policy, input);
    DuplicatesStorable(input, input.priors);
    EmptyStorable();
    var entries := ScopedDirectory(policy.directory, input.firmId, input.clientId);
    RecommendationsStorable(MatchedEntry(entries, MatchSupplier(entries, input.values)));
    if JournalFor(policy, input.firmId, input.clientId, input.values).Some? {
      JournalStorable(policy, input);
    }
  }

  lemma EmptyStorable()
    ensures SupplierCandidatesPersist([]) && DuplicatesPersist([])
  {
  }

  /** The proposed journal debits the mapped account and credits payables, one line each. */
  lemma JournalLines(policy: Policy, input: EngineInput)
    requires JournalFor(policy, input.firmId, input.clientId, input.values).Some?
    ensures var journal := JournalFor(policy, input.firmId, input.clientId, input.values).value;
      var entries := ScopedDirectory(policy.directory, input.firmId, input.clientId);
      var matched := MatchedEntry(entries, MatchSupplier(entries, input.values));
      && matched.Some? && |journal.lines| == 2
      && journal.lines[0].account == matched.value.glAccount && journal.lines[0].credit == 0
      && journal.lines[0].debit == journal.totalDebits > 0
      && journal.lines[0].taxCode == Some(matched.value.taxCode)
      && journal.lines[0].costCentre == matched.value.costCentre
      && journal.lines[1].account == PAYABLE_ACCOUNT && journal.lines[1].debit == 0
      && journal.lines[1].credit == journal.totalCredits
      && journal.lines[0].number == 1 && journal.lines[1].number == 2
      && journal.lines[1].taxCode.None? && journal.lines[1].costCentre.None?
  {
    hide FieldText, MonetaryFindings, MonetaryValues, MatchSupplier, MatchedEntry, ReadCurrency, Recommendations,
      RecommendedValue;
    assert RecommendedValue(Recommendations(None), GlAccount) == None by { NothingRecommended(); }
    JournalExact(policy, input);
    MonetaryExact(policy.lexicon, input.values);
    var entries := ScopedDirectory(policy.directory, input.firmId, input.clientId);
    var matched := MatchedEntry(entries, MatchSupplier(entries, input.values));
    if matched.Some? {
      RecommendedValues(matched.value);
    }
  }

  lemma NothingRecommended()
    ensures RecommendedValue(Recommendations(None), GlAccount) == None
  {
  }

  lemma RecommendedValues(e: SupplierEntry)
    ensures var recommendations := Recommendations(Some(e));
      && RecommendedValue(recommendations, GlAccount) == Some(e.glAccount)
      && RecommendedValue(recommendations, TaxCode) == Some(e.taxCode)
      && RecommendedValue(recommendations, CostCentre) == e.costCentre
  {
    var all := Recommendations(Some(e));
    var tax := [Recommendation(TaxCode, e.taxCode)];
    var last := if e.costCentre.Some? then [Recommendation(CostCentre, e.costCentre.value)] else [];
    assert all[1..][1..] == tax + last && (tax + last)[1..] == last;
    assert RecommendedValue(tax + last, TaxCode) == Some(e.taxCode);
    assert RecommendedValue(tax + last, CostCentre) == RecommendedValue(last, CostCentre) == e.costCentre;
    assert RecommendedValue(all, TaxCode) == RecommendedValue(all[1..], TaxCode);
    assert RecommendedValue(all, CostCentre) == RecommendedValue(all[1..], CostCentre);
  }

  ghost predicate FallsFrom(ids: seq<Id>, n: nat) {
    (forall i | 0 <= i < |ids| :: ids[i] < n) && forall i, j | 0 <= i < j < |ids| :: ids[i] > ids[j]
  }

  lemma NewestFirst(newest: Id, older: seq<Id>)
    requires FallsFrom(older, newest)
    ensures FallsFrom([newest] + older, newest + 1)
  {
    var ids := [newest] + older;
    assert forall i | 0 < i < |ids| :: ids[i] == older[i - 1];
  }

  /** The recent runs are listed newest first. */
  lemma {:induction false} RecentRunsFall(decisions: seq<DecisionRun>, firmId: Id, clientId: Id, limit: nat)
    ensures FallsFrom(RecentRuns(decisions, firmId, clientId, limit), |decisions|)
  {
    if decisions != [] && limit > 0 {
      var n := |decisions| - 1;
      if IsSucceededFor(decisions[n], firmId, clientId) {
        RecentRunsFall(decisions[..n], firmId, clientId, limit - 1);
        NewestFirst(n, RecentRuns(decisions[..n], firmId, clientId, limit - 1));
      } else {
        RecentRunsFall(decisions[..n], firmId, clientId, limit);
      }
    }
  }

  /** The prior decisions the service hands the engine are distinct. */
  lemma PriorsDistinct(s: Store, runId: Id)
    requires runId < |s.extractions|
    ensures DistinctPriors(EngineInputNow(s, runId).priors)
  {
    hide RecentRuns, IsSucceededFor, EffectiveNow, SnapshotsNow;
    var e := s.extractions[runId];
    var ids := RecentRuns(s.decisions, e.firmId, e.clientId, PRIOR_RUN_LIMIT);
    RecentRunsFall(s.decisions, e.firmId, e.clientId, PRIOR_RUN_LIMIT);
    RecentRunsInRange(s.decisions, e.firmId, e.clientId, PRIOR_RUN_LIMIT);
    SnapshotsAre(s.extractions, s.corrections, s.decisions, ids);
  }

  /** Appending the decision keeps the decision table legal exactly when its output is legal. */
  lemma StoredDecision(policy: Policy, s: Store, path: RunPath, engineRaises: bool)
    requires path.runId < |s.extractions| && DecisionsPersist(s.decisions)
    ensures var next := StartDecisionNext(policy, s, path, engineRaises);
      var stored := next.decisions[|s.decisions|];
      DecisionsPersist(next.decisions) <==> (stored.Succeeded() ==> OutputPersists(stored.output.value))
  {
    hide Decide, EngineInputNow, OutputPersists;
    var next := StartDecisionNext(policy, s, path, engineRaises);
    assert next.decisions == s.decisions + [next.decisions[|s.decisions|]];
  }

  /** A decision its guards let through commits exactly when its output can be stored; otherwise
      the whole call, the run row included, is rolled back. */
  lemma DecisionCommitsExactly(policy: Policy, s: Store, r: Request)
    requires Inv(policy, s) && Guard(policy, s, r).None? && r.call.StartDecision?
    ensures var next := Next(policy, s, r);
      var stored := next.decisions[|s.decisions|];
      Handle(policy, s, r) ==
        if stored.Succeeded() && !OutputPersists(stored.output.value) then Reply(s, Some(DecisionPersistenceFailed))
        else Reply(next, Outcome(r.call))
  {
    hide EvidenceInv, ReviewInv, ReconciliationInv, Decide, EngineInputNow, OutputPersists, DecisionsPersist;
    InvMeetsConstraints(policy, s);
    StoredDecision(policy, s, r.call.runPath, r.call.engineRaises);
    var next := Next(policy, s, r);
    if DecisionsPersist(next.decisions) {
      EvidenceKept(policy, s, r);
      ReviewKept(policy, s, r);
      ReconciliationKept(policy, s, r);
      InvMeetsConstraints(policy, next);
    }
  }
}
