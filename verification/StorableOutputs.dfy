/** When exactly the tables take a decision: in terms of the document and the directory. */
module StorableOutputs {
  import opened Prelude
  import opened Text
  import opened EffectiveValues
  import opened Engine
  import opened Store
  import opened EvidenceCalls
  import opened DecisionCommits
  import opened System
  import opened Reachability
  import opened TaskAnswers
  import opened EvidenceAnswers
  import opened PlainVerdicts
  import opened PlainFindings

  /** An entry with everything that a recommendation is made of. */
  predicate HasMapping(e: SupplierEntry) {
    e.glAccount != "" && e.category != "" && e.taxCode != "" && e.costCentre != Some("")
  }

  /** The entry that carries the supplier's name can be listed, and the one under its reference
      has a mapping. */
  ghost predicate IsMapped(policy: Policy, input: EngineInput) {
    FieldText(input.values, "supplier.name").Some? &&
    exists k: nat, m: nat ::
      IsFirstNamed(policy.directory, input.firmId, input.clientId,
                   FieldText(input.values, "supplier.name").value, k) &&
      IsFirstUnder(policy.directory, input.firmId, input.clientId, policy.directory[k].reference, m) &&
      policy.directory[k].reference != "" && policy.directory[k].name != "" && HasMapping(policy.directory[m])
  }

  /** The overlapping entries have names and references, and no two share a reference. */
  ghost predicate AreApart(candidates: seq<SupplierCandidate>) {
    (forall c | c in candidates :: c.reference != "" && c.name != "") &&
    forall i, j | 0 <= i < j < |candidates| :: candidates[i].reference != candidates[j].reference
  }

  /** A known supplier is mapped, an unknown one's candidates are apart, and the credit line that
      the adjustment leaves is positive and in range. */
  ghost predicate IsStorable(policy: Policy, input: EngineInput) {
    IsInvoice(input.values) ==>
      (IsKnown(policy, input) ==> IsMapped(policy, input)) &&
      (IsUnknown(policy, input) ==>
         AreApart(Resembling(policy.directory, input.firmId, input.clientId,
                             FieldText(input.values, "supplier.name").value))) &&
      (Decide(policy, input).journal.Some? ==>
         0 < Decide(policy, input).journal.value.totalDebits + policy.creditAdjustment <= 999_999_999_999_999_999)
  }

  lemma FirstNamedUnique(directory: seq<SupplierEntry>, firmId: Id, clientId: Id, supplier: string, k: nat, l: nat)
    requires IsFirstNamed(directory, firmId, clientId, supplier, k)
    requires IsFirstNamed(directory, firmId, clientId, supplier, l)
    ensures k == l
  {
    hide Serves, IsNamed;
  }

  lemma FirstUnderUnique(directory: seq<SupplierEntry>, firmId: Id, clientId: Id, reference: string, k: nat, l: nat)
    requires IsFirstUnder(directory, firmId, clientId, reference, k)
    requires IsFirstUnder(directory, firmId, clientId, reference, l)
    ensures k == l
  {
    hide Serves;
  }

  lemma MappedExact(policy: Policy, input: EngineInput, k: nat, m: nat)
    requires FieldText(input.values, "supplier.name").Some?
    requires IsFirstNamed(policy.directory, input.firmId, input.clientId,
                          FieldText(input.values, "supplier.name").value, k)
    requires IsFirstUnder(policy.directory, input.firmId, input.clientId, policy.directory[k].reference, m)
    ensures IsMapped(policy, input) <==>
      policy.directory[k].reference != "" && policy.directory[k].name != "" && HasMapping(policy.directory[m])
  {
    hide Serves, IsNamed, HasMapping, FieldText;
    var supplier := FieldText(input.values, "supplier.name").value;
    if i: nat, j: nat :|
      IsFirstNamed(policy.directory, input.firmId, input.clientId, supplier, i) &&
      IsFirstUnder(policy.directory, input.firmId, input.clientId, policy.directory[i].reference, j) &&
      policy.directory[i].reference != "" && policy.directory[i].name != "" && HasMapping(policy.directory[j])
    {
      FirstNamedUnique(policy.directory, input.firmId, input.clientId, supplier, i, k);
      FirstUnderUnique(policy.directory, input.firmId, input.clientId, policy.directory[k].reference, j, m);
    }
  }

  // ----- part by part

  lemma JournalStored(policy: Policy, input: EngineInput)
    requires Decide(policy, input).journal.Some?
    ensures IsInvoice(input.values) && IsKnown(policy, input)
    ensures JournalPersists(Decide(policy, input).journal.value) && IsMapped(policy, input) <==>
      IsMapped(policy, input) &&
      0 < Decide(policy, input).journal.value.totalDebits + policy.creditAdjustment <= 999_999_999_999_999_999
  {
    hide Decide, FieldText, IsKnown, Serves, IsNamed, IsMapped, IsMoney, HasCurrency, JournalPersists;
    var k, m, total := PlainJournal(policy, input);
    DecisionJournalBalance(policy, input);
    IsKnownOf(policy, input, k);
    MappedExact(policy, input, k, m);
    MoneyInRange(policy.lexicon, input.values, total);
    CurrencyNamed(input.values);
    LinesStored(Decide(policy, input).journal.value, policy.directory[m], total, total + policy.creditAdjustment);
  }

  /** A journal of these two lines is stored exactly when the account is named and the credit is
      positive and in range. */
  lemma LinesStored(journal: Journal, e: SupplierEntry, total: int, credit: int)
    requires journal.lines == [
      JournalLine(1, e.glAccount, total, 0, Some(e.taxCode), e.costCentre),
      JournalLine(2, "liability:accounts_payable", 0, credit, None, None)]
    requires journal.totalDebits == total && journal.totalCredits == credit && journal.currency != ""
    requires (journal.isBalanced <==> total == credit) && 0 < total <= 999_999_999_999_999_999
    ensures JournalPersists(journal) <==> e.glAccount != "" && 0 < credit <= 999_999_999_999_999_999
  {
    assert journal.lines[0].account == e.glAccount && journal.lines[1].credit == credit;
  }

  lemma IsKnownOf(policy: Policy, input: EngineInput, k: nat)
    requires FieldText(input.values, "supplier.name").Some?
    requires IsFirstNamed(policy.directory, input.firmId, input.clientId,
                          FieldText(input.values, "supplier.name").value, k)
    ensures IsKnown(policy, input)
  {
    hide Serves, IsNamed, FieldText;
    assert policy.directory[k] in policy.directory;
  }

  lemma MoneyInRange(lexicon: Lexicon, values: map<string, EffectiveValue>, total: int)
    requires IsMoney(lexicon, values, "invoice.total", total)
    ensures 0 <= total <= 999_999_999_999_999_999
  {
    hide FieldText, Pow10;
  }

  lemma CurrencyNamed(values: map<string, EffectiveValue>)
    requires HasCurrency(values)
    ensures Upper(FieldText(values, "invoice.currency").value) != ""
  {
    hide FieldText;
  }

  lemma MappingStored(e: SupplierEntry, recommendations: seq<Recommendation>)
    requires recommendations ==
      [Recommendation(GlAccount, e.glAccount), Recommendation(Category, e.category),
       Recommendation(TaxCode, e.taxCode)] +
      (match e.costCentre case Some(centre) => [Recommendation(CostCentre, centre)] case None => [])
    ensures (forall i | 0 <= i < |recommendations| :: recommendations[i].value != "") <==> HasMapping(e)
  {
    assert recommendations[0].value == e.glAccount && recommendations[1].value == e.category;
    assert recommendations[2].value == e.taxCode;
    assert e.costCentre.Some? ==> recommendations[3].value == e.costCentre.value;
  }

  lemma CandidatesStored(policy: Policy, input: EngineInput)
    ensures SupplierCandidatesPersist(Decide(policy, input).supplierMatch.candidates) <==>
      (IsInvoice(input.values) && IsKnown(policy, input) ==>
         exists k: nat ::
           IsFirstNamed(policy.directory, input.firmId, input.clientId,
                        FieldText(input.values, "supplier.name").value, k) &&
           policy.directory[k].reference != "" && policy.directory[k].name != "") &&
      (IsInvoice(input.values) && IsUnknown(policy, input) ==>
         AreApart(Resembling(policy.directory, input.firmId, input.clientId,
                             FieldText(input.values, "supplier.name").value)))
  {
    hide Decide, FieldText, Serves, IsNamed, Resembling, IsKnown, SupplierCandidatesPersist, AreApart;
    PlainMatch(policy, input);
    ApartExact(Decide(policy, input).supplierMatch.candidates);
    NoneApart();
    if IsInvoice(input.values) && IsKnown(policy, input) {
      KnownText(policy, input);
      var supplier := FieldText(input.values, "supplier.name").value;
      var k := KnownFirst(policy, input);
      forall l: nat | IsFirstNamed(policy.directory, input.firmId, input.clientId, supplier, l)
        ensures l == k
      {
        FirstNamedUnique(policy.directory, input.firmId, input.clientId, supplier, k, l);
      }
      OneApart(SupplierCandidate(policy.directory[k].reference, policy.directory[k].name, true));
    }
  }

  lemma NoneApart()
    ensures AreApart([])
  {
  }

  lemma OneApart(c: SupplierCandidate)
    ensures AreApart([c]) <==> c.reference != "" && c.name != ""
  {
    assert c in [c];
  }

  lemma ApartExact(candidates: seq<SupplierCandidate>)
    ensures SupplierCandidatesPersist(candidates) <==> AreApart(candidates)
  {
    if SupplierCandidatesPersist(candidates) {
      forall c | c in candidates
        ensures c.reference != "" && c.name != ""
      {
        var i :| 0 <= i < |candidates| && candidates[i] == c;
      }
    }
  }

  lemma DuplicatesStored(policy: Policy, input: EngineInput)
    requires DistinctPriors(input.priors)
    ensures DuplicatesPersist(Decide(policy, input).duplicates)
  {
    hide Decide, DuplicateCandidates, MatchSupplier, MatchedEntry, ScopedDirectory, JournalFor, Recommendations,
      DistinctPriors;
    DecisionParts(policy, input);
    DuplicatesStorable(input, input.priors);
    EmptyStorable();
  }

  /** A decision on distinct prior decisions can be stored if and only if the directory provides
      for its supplier and the credit line is in range. */
  lemma StorableExactly(policy: Policy, input: EngineInput)
    requires DistinctPriors(input.priors)
    ensures OutputPersists(Decide(policy, input)) <==> IsStorable(policy, input)
  {
    hide Decide, FieldText, Serves, IsNamed, IsMapped, IsKnown, Resembling, JournalPersists,
      SupplierCandidatesPersist, DuplicatesPersist, AreApart, HasMapping, DistinctPriors;
    DuplicatesStored(policy, input);
    CandidatesStored(policy, input);
    var k, m := PlainRecommendations(policy, input);
    if Decide(policy, input).journal.Some? {
      JournalStored(policy, input);
    }
    if IsInvoice(input.values) && IsKnown(policy, input) {
      KnownText(policy, input);
      MappingStored(policy.directory[m], Decide(policy, input).recommendations);
      MappedExact(policy, input, k, m);
      var supplier := FieldText(input.values, "supplier.name").value;
      forall l: nat | IsFirstNamed(policy.directory, input.firmId, input.clientId, supplier, l)
        ensures l == k
      {
        FirstNamedUnique(policy.directory, input.firmId, input.clientId, supplier, k, l);
      }
    }
  }

  lemma KnownText(policy: Policy, input: EngineInput)
    requires IsKnown(policy, input)
    ensures FieldText(input.values, "supplier.name").Some?
  {
    hide FieldText, Serves, IsNamed;
  }

  // ----- the call

  /** In every reachable state, a decision call without an engine failure commits if and only if
      the caller reaches a succeeded run of the client and the decision on it can be stored. */
  lemma DecisionStored(policy: Policy, s: Store, ctx: Context, path: RunPath)
    requires Inv(policy, s)
    ensures Handle(policy, s, Request(ctx, StartDecision(path, false))).error.None? <==>
      && Reaches(ctx, path.clientId) && NamesRun(s, ctx, path.clientId, path.documentId, path.runId)
      && s.extractions[path.runId].succeeded && IsStorable(policy, EngineInputNow(s, path.runId))
  {
    hide Inv, Handle, Decide, OutputPersists, EngineInputNow, IsStorable, DistinctPriors, Reaches;
    StartDecisionAnswer(policy, s, ctx, path, false);
    if NamesRun(s, ctx, path.clientId, path.documentId, path.runId) {
      PriorsDistinct(s, path.runId);
      StorableExactly(policy, EngineInputNow(s, path.runId));
    }
  }
}
