/** The decision engine as its methods run: loops that build findings, matches and candidates. */
module DecisionEngine {
  import opened Prelude
  import opened Text
  import opened EffectiveValues
  import opened Engine

  class AccountingDecisionEngine {
    const policy: Policy

    constructor (policy: Policy)
      ensures this.policy == policy
    {
      this.policy := policy;
    }

    method RequiredFieldFindings(values: map<string, EffectiveValue>, required: seq<string>)
      returns (findings: seq<Finding>)
      ensures findings == RequiredFindings(values, required)
    {
      findings := [];
      for k := 0 to |required|
        invariant findings == RequiredFindings(values, required[..k])
      {
        assert required[..k + 1][..k] == required[..k];
        if FieldText(values, required[k]).None? {
          findings := findings + [Finding(MissingRequiredField, Error, Some(required[k]))];
        }
      }
      assert required[..|required|] == required;
    }

    method LowConfidence(values: map<string, EffectiveValue>, paths: seq<string>) returns (findings: seq<Finding>)
      ensures findings == LowConfidenceFindings(values, paths)
    {
      findings := [];
      for k := 0 to |paths|
        invariant findings == LowConfidenceFindings(values, paths[..k])
      {
        assert paths[..k + 1][..k] == paths[..k];
        if paths[k] !in values || values[paths[k]].confidence.None? { continue; }
        if values[paths[k]].confidence.value < LOW_CONFIDENCE_THRESHOLD {
          findings := findings + [Finding(LowExtractionConfidence, Warning, Some(paths[k]))];
        }
      }
      assert paths[..|paths|] == paths;
    }

    method AccountingMonetaryValues(values: map<string, EffectiveValue>)
      returns (money: map<string, int>, findings: seq<Finding>)
      ensures money == MonetaryValues(policy.lexicon, values, MONEY_CHECKS)
      ensures findings == MonetaryFindings(policy.lexicon, values, MONEY_CHECKS)
    {
      hide ReadMoney;
      money, findings := map[], [];
      for k := 0 to |MONEY_CHECKS|
        invariant money == MonetaryValues(policy.lexicon, values, MONEY_CHECKS[..k])
        invariant findings == MonetaryFindings(policy.lexicon, values, MONEY_CHECKS[..k])
      {
        assert MONEY_CHECKS[..k + 1][..k] == MONEY_CHECKS[..k];
        var path := MONEY_CHECKS[k].0;
        var reading := ReadMoney(policy.lexicon, values, path, MONEY_CHECKS[k].1);
        if reading.Amount? {
          money := money[path := reading.value];
        }
        if reading.InvalidMoney? {
          findings := findings + [Finding(InvalidMonetaryValue, Error, Some(path))];
        }
      }
      assert MONEY_CHECKS[..|MONEY_CHECKS|] == MONEY_CHECKS;
    }

    /** _supplier_match: stops at the first exact match, collecting partial ones on the way. */
    method SupplierMatch(entries: seq<SupplierEntry>, values: map<string, EffectiveValue>)
      returns (found: Engine.SupplierMatch)
      ensures found == MatchSupplier(entries, values)
    {
      hide MatchesExactly, MatchesPartially, NormalizeName;
      var name := FieldText(values, SUPPLIER_NAME);
      if name.None? { return Engine.SupplierMatch.SupplierMatch(NoMatch, []); }
      var normalized := NormalizeName(name.value);
      var candidates := [];
      for k := 0 to |entries|
        invariant MatchEntries(entries, normalized, []) == MatchEntries(entries[k..], normalized, candidates)
      {
        var entry := entries[k];
        assert entries[k..][0] == entry && entries[k..][1..] == entries[k + 1..];
        if MatchesExactly(entry, normalized) {
          return Engine.SupplierMatch.SupplierMatch(
              ConfidentMatch, [SupplierCandidate(entry.reference, entry.name, true)]);
        }
        if MatchesPartially(entry, normalized) {
          candidates := candidates + [SupplierCandidate(entry.reference, entry.name, false)];
        }
      }
      assert entries[|entries|..] == [];
      if candidates != [] { return Engine.SupplierMatch.SupplierMatch(CandidateMatches, candidates); }
      return Engine.SupplierMatch.SupplierMatch(NoMatch, []);
    }

    method MatchedSupplierEntry(entries: seq<SupplierEntry>, found: Engine.SupplierMatch)
      returns (entry: Option<SupplierEntry>)
      ensures entry == MatchedEntry(entries, found)
    {
      if found.status != ConfidentMatch || found.candidates == [] { return None; }
      var reference := found.candidates[0].reference;
      for k := 0 to |entries|
        invariant EntryByReference(entries, reference) == EntryByReference(entries[k..], reference)
      {
        assert entries[k..][0] == entries[k] && entries[k..][1..] == entries[k + 1..];
        if entries[k].reference == reference { return Some(entries[k]); }
      }
      assert entries[|entries|..] == [];
      return None;
    }

    method DuplicateSignals(sourceSha: string, values: map<string, EffectiveValue>, prior: PriorSnapshot)
      returns (signals: seq<string>)
      ensures signals == Engine.DuplicateSignals(sourceSha, values, prior)
    {
      hide FieldText, ComparisonValue;
      var shared := if sourceSha == prior.sourceSha then [SOURCE_SHA_SIGNAL] else [];
      signals := shared;
      for k := 0 to |SIGNAL_FIELDS|
        invariant signals == shared + FieldSignals(values, prior.values, SIGNAL_FIELDS[..k])
      {
        var path := SIGNAL_FIELDS[k];
        assert SIGNAL_FIELDS[..k + 1][..k] == SIGNAL_FIELDS[..k];
        var current, previous := FieldText(values, path), FieldText(prior.values, path);
        if current.Some? && previous.Some? &&
           ComparisonValue(path, current.value) == ComparisonValue(path, previous.value) {
          signals := signals + [path];
        }
      }
      assert SIGNAL_FIELDS[..|SIGNAL_FIELDS|] == SIGNAL_FIELDS;
    }

    method DuplicateCandidates(input: EngineInput) returns (candidates: seq<DuplicateCandidate>)
      ensures candidates == Engine.DuplicateCandidates(input, input.priors)
    {
      hide Engine.DuplicateSignals;
      candidates := [];
      for k := 0 to |input.priors|
        invariant candidates == Engine.DuplicateCandidates(input, input.priors[..k])
      {
        var prior := input.priors[k];
        assert input.priors[..k + 1][..k] == input.priors[..k];
        if prior.documentId == input.documentId { continue; }
        var signals := DuplicateSignals(input.sourceSha, input.values, prior);
        if signals == [] { continue; }
        var confidence := if SOURCE_SHA_SIGNAL in signals then SHA_CONFIDENCE else |signals| * SIGNAL_CONFIDENCE;
        if confidence < DUPLICATE_THRESHOLD { continue; }
        candidates := candidates +
          [DuplicateCandidate(prior.documentId, prior.extractionRunId, prior.decisionRunId, confidence, signals)];
      }
      assert input.priors[..|input.priors|] == input.priors;
    }

    /** decide. */
    method Decide(input: EngineInput) returns (output: Decision)
      ensures output == Engine.Decide(policy, input)
    {
      hide FieldText, RequiredFindings, LowConfidenceFindings, MonetaryValues, MonetaryFindings, MatchSupplier,
        MatchedEntry, Engine.DuplicateCandidates, ReadCurrency, ProposedJournal, ScopedDirectory, Recommendations;
      var values := input.values;
      var documentType := FieldText(values, DOCUMENT_TYPE);
      var supported := IsSupported(documentType);
      var findings := RequiredFieldFindings(values, RequiredFields(documentType));
      if documentType.Some? && !supported {
        findings := findings + [Finding(UnsupportedDocumentType, Warning, Some(DOCUMENT_TYPE))];
      }
      var low := LowConfidence(values, RelevantFields(documentType));
      findings := findings + low;
      if !supported {
        assert findings == ExtractionFindings(policy, values);
        return Decision(findings, Engine.SupplierMatch.SupplierMatch(NoMatch, []), [], [], None);
      }
      var money, monetary := AccountingMonetaryValues(values);
      findings := findings + monetary;
      var currency := ReadCurrency(values);
      if currency.MalformedCurrency? {
        findings := findings + [Finding(InvalidCurrency, Error, Some(INVOICE_CURRENCY))];
      }
      findings := findings + ArithmeticFindings(money);
      ghost var extraction := ExtractionFindings(policy, values);
      assert findings == extraction;

      var entries := ScopedDirectory(policy.directory, input.firmId, input.clientId);
      var supplierMatch := SupplierMatch(entries, values);
      var matched := MatchedSupplierEntry(entries, supplierMatch);
      var hasName := FieldText(values, SUPPLIER_NAME).Some?;
      if hasName && supplierMatch.status == NoMatch {
        findings := findings + [Finding(NewSupplier, Warning, Some(SUPPLIER_NAME))];
      }
      assert findings == extraction + SupplierFindings(values, supplierMatch);
      var duplicates := DuplicateCandidates(input);
      if duplicates != [] {
        findings := findings + [Finding(PossibleDuplicate, Warning, None)];
      }
      assert findings == extraction + SupplierFindings(values, supplierMatch) + DuplicateFindings(duplicates);
      if matched.None? && hasName {
        findings := findings + [Finding(UnknownAccountMapping, Warning, Some(SUPPLIER_NAME))];
      }
      assert findings == extraction + SupplierFindings(values, supplierMatch) + DuplicateFindings(duplicates) +
                         MappingFindings(values, matched);
      findings := findings + [Finding(TaxReviewRequired, Warning, None)];
      var journal: Option<Journal> := None;
      if monetary == [] && !currency.MalformedCurrency? {
        journal := ProposedJournal(policy, Recommendations(matched), Lookup(money, INVOICE_TOTAL),
                                   if currency.CurrencyCode? then Some(currency.code) else None);
      }
      assert journal == JournalFor(policy, input.firmId, input.clientId, values);
      if journal.Some? && !journal.value.isBalanced {
        findings := findings + [Finding(UnbalancedJournal, Error, None)];
      }
      return Decision(findings, supplierMatch, duplicates, Recommendations(matched), journal);
    }
  }
}
