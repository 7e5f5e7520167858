/** Review states, the risk classifier, and exactly what its verdict on an engine decision means. */
module ReviewPolicy {
  import opened Prelude
  import opened Text
  import opened EffectiveValues
  import opened Engine

  datatype TaskStatus = Open | Escalated | InformationRequested | Approved | Rejected

  datatype EscalationState = NotEscalated | SeniorReview

  datatype RiskClass = Ordinary | SeniorRequired | Blocked

  datatype CommentKind = PlainComment | EscalationReason | InformationRequest | InformationResponse

  datatype OutcomeType = PlainApproval | CorrectedAndApproved | Rejection

  function AllowedTransitions(current: TaskStatus): set<TaskStatus> {
    match current
    case Open => {Escalated, InformationRequested, Approved, Rejected}
    case Escalated => {InformationRequested, Approved, Rejected}
    case InformationRequested => {Open, Escalated, Rejected}
    case Approved => {}
    case Rejected => {}
  }

  predicate CanTransition(current: TaskStatus, next: TaskStatus) {
    next in AllowedTransitions(current)
  }

  predicate IsTerminal(status: TaskStatus) { status in {Approved, Rejected} }

  const SENIOR_CODES := {PossibleDuplicate, NewSupplier, LowExtractionConfidence, UnknownAccountMapping}

  predicate HasError(findings: seq<Finding>) {
    exists i | 0 <= i < |findings| :: findings[i].severity == Error
  }

  predicate HasSeniorCode(findings: seq<Finding>) {
    exists i | 0 <= i < |findings| :: findings[i].code in SENIOR_CODES
  }

  function ClassifyReviewRisk(findings: seq<Finding>, journal: Option<Journal>): RiskClass {
    if journal.None? || !journal.value.isBalanced then Blocked
    else if HasError(findings) then Blocked
    else if HasSeniorCode(findings) then SeniorRequired
    else Ordinary
  }

  // ----- the conditions in the document's own terms

  /** Some directory entry in scope carries the supplier's normalized name. */
  ghost predicate KnownSupplier(policy: Policy, input: EngineInput) {
    var entries := ScopedDirectory(policy.directory, input.firmId, input.clientId);
    FieldText(input.values, SUPPLIER_NAME).Some? &&
    exists k | 0 <= k < |entries| ::
      MatchesExactly(entries[k], NormalizeName(FieldText(input.values, SUPPLIER_NAME).value))
  }

  ghost predicate ReadableMoney(policy: Policy, values: map<string, EffectiveValue>) {
    var total := ReadMoney(policy.lexicon, values, INVOICE_TOTAL, true);
    var subtotal := ReadMoney(policy.lexicon, values, INVOICE_SUBTOTAL, false);
    var tax := ReadMoney(policy.lexicon, values, INVOICE_TAX, false);
    total.Amount? && !subtotal.InvalidMoney? && !tax.InvalidMoney? &&
    (subtotal.Amount? && tax.Amount? ==> subtotal.value + tax.value == total.value)
  }

  ghost predicate AllPresent(values: map<string, EffectiveValue>, paths: seq<string>) {
    forall i | 0 <= i < |paths| :: FieldText(values, paths[i]).Some?
  }

  /** Everything the deterministic controls ask of a purchase invoice. */
  ghost predicate PassesControls(policy: Policy, input: EngineInput) {
    IsSupported(FieldText(input.values, DOCUMENT_TYPE)) &&
    AllPresent(input.values, INVOICE_FIELDS) &&
    KnownSupplier(policy, input) &&
    ReadableMoney(policy, input.values) &&
    ReadCurrency(input.values).CurrencyCode? &&
    policy.creditAdjustment == 0
  }

  /** Equal source hashes, or at least four of the five signal fields agree. */
  ghost predicate Similar(
      sha: string, values: map<string, EffectiveValue>, otherSha: string, others: map<string, EffectiveValue>)
  {
    sha == otherSha || AgreementCount(values, others) >= 4
  }

  /** Both suppliers are present, with the same words of letters and digits in the same order. */
  predicate SameSupplier(v: map<string, EffectiveValue>, w: map<string, EffectiveValue>) {
    FieldText(v, SUPPLIER_NAME).Some? && FieldText(w, SUPPLIER_NAME).Some? &&
    NameWords(FieldText(v, SUPPLIER_NAME).value) == NameWords(FieldText(w, SUPPLIER_NAME).value)
  }

  /** Both texts are present and equal but for case; punctuation counts. */
  predicate SameText(path: string, v: map<string, EffectiveValue>, w: map<string, EffectiveValue>) {
    FieldText(v, path).Some? && FieldText(w, path).Some? &&
    EqualIgnoringCase(FieldText(v, path).value, FieldText(w, path).value)
  }

  function AgreementCount(v: map<string, EffectiveValue>, w: map<string, EffectiveValue>): nat {
    (if SameSupplier(v, w) then 1 else 0) +
    (if SameText(INVOICE_NUMBER, v, w) then 1 else 0) +
    (if SameText(INVOICE_DATE, v, w) then 1 else 0) +
    (if SameText(INVOICE_CURRENCY, v, w) then 1 else 0) +
    (if SameText(INVOICE_TOTAL, v, w) then 1 else 0)
  }

  ghost predicate IsDuplicateOf(input: EngineInput, prior: PriorSnapshot) {
    prior.documentId != input.documentId &&
    Similar(input.sourceSha, input.values, prior.sourceSha, prior.values)
  }

  ghost predicate HasDuplicate(input: EngineInput) {
    exists k | 0 <= k < |input.priors| :: IsDuplicateOf(input, input.priors[k])
  }

  ghost predicate HasLowConfidence(values: map<string, EffectiveValue>) {
    exists i | 0 <= i < |RelevantFields(Some(PURCHASE_INVOICE))| ::
      IsLowConfidence(values, RelevantFields(Some(PURCHASE_INVOICE))[i])
  }

  // ----- duplicates

  /** Resemblance does not depend on which document is looked at first. */
  lemma SimilarSymmetric(
      sha: string, values: map<string, EffectiveValue>, otherSha: string, others: map<string, EffectiveValue>)
    ensures Similar(sha, values, otherSha, others) <==> Similar(otherSha, others, sha, values)
  {
  }

  lemma FieldTextStripped(values: map<string, EffectiveValue>, path: string)
    ensures FieldText(values, path).Some? ==> Stripped(FieldText(values, path).value)
  {
    if path in values {
      StripIsStripped(values[path].Value());
    }
  }

  /** When the detector lets two values agree, in terms of the two texts. */
  lemma AgreeExact(path: string, v: map<string, EffectiveValue>, w: map<string, EffectiveValue>)
    ensures AgreeOn(path, v, w) <==> if path == SUPPLIER_NAME then SameSupplier(v, w) else SameText(path, v, w)
  {
    hide FieldText, Strip, Lower, EqualIgnoringCase, NormalizeName, NameWords;
    FieldTextStripped(v, path);
    FieldTextStripped(w, path);
    if FieldText(v, path).Some? && FieldText(w, path).Some? {
      var a, b := FieldText(v, path).value, FieldText(w, path).value;
      SameNames(a, b);
      StrippedLower(a);
      StrippedLower(b);
      LowerEqual(a, b);
    }
  }

  lemma SignalPaths()
    ensures SUPPLIER_NAME !in [INVOICE_NUMBER, INVOICE_DATE, INVOICE_CURRENCY, INVOICE_TOTAL]
  {
    assert SUPPLIER_NAME[0] == 's';
    assert INVOICE_NUMBER[0] == 'i' && INVOICE_DATE[0] == 'i' && INVOICE_CURRENCY[0] == 'i' && INVOICE_TOTAL[0] == 'i';
  }

  lemma {:induction false} FieldSignalsAmong(
      v: map<string, EffectiveValue>, w: map<string, EffectiveValue>, paths: seq<string>)
    ensures forall signal | signal in FieldSignals(v, w, paths) :: signal in paths
  {
    hide AgreeOn;
    if paths != [] {
      FieldSignalsAmong(v, w, paths[..|paths| - 1]);
    }
  }

  /** The source hash signal is none of the field signals. */
  lemma ShaIsNoField()
    ensures SOURCE_SHA_SIGNAL !in SIGNAL_FIELDS
  {
    assert SOURCE_SHA_SIGNAL[1] == 'o' && SUPPLIER_NAME[1] == 'u';
    assert INVOICE_NUMBER[0] == 'i' && INVOICE_DATE[0] == 'i' && INVOICE_CURRENCY[0] == 'i' && INVOICE_TOTAL[0] == 'i';
  }

  lemma FieldSignalsCount(v: map<string, EffectiveValue>, w: map<string, EffectiveValue>)
    ensures |FieldSignals(v, w, SIGNAL_FIELDS)| == AgreementCount(v, w)
  {
    hide AgreeOn, SameSupplier, SameText;
    SignalPaths();
    AgreeExact(SUPPLIER_NAME, v, w);
    AgreeExact(INVOICE_NUMBER, v, w);
    AgreeExact(INVOICE_DATE, v, w);
    AgreeExact(INVOICE_CURRENCY, v, w);
    AgreeExact(INVOICE_TOTAL, v, w);
    var f1 := [SUPPLIER_NAME];
    var f2 := [SUPPLIER_NAME, INVOICE_NUMBER];
    var f3 := [SUPPLIER_NAME, INVOICE_NUMBER, INVOICE_DATE];
    var f4 := [SUPPLIER_NAME, INVOICE_NUMBER, INVOICE_DATE, INVOICE_CURRENCY];
    assert f1[..0] == [] && f2[..1] == f1 && f3[..2] == f2 && f4[..3] == f3 && SIGNAL_FIELDS[..4] == f4;
    var c1 := if AgreeOn(SUPPLIER_NAME, v, w) then 1 else 0;
    var c2 := c1 + if AgreeOn(INVOICE_NUMBER, v, w) then 1 else 0;
    var c3 := c2 + if AgreeOn(INVOICE_DATE, v, w) then 1 else 0;
    var c4 := c3 + if AgreeOn(INVOICE_CURRENCY, v, w) then 1 else 0;
    assert |FieldSignals(v, w, f1)| == c1;
    assert |FieldSignals(v, w, f2)| == c2;
    assert |FieldSignals(v, w, f3)| == c3;
    assert |FieldSignals(v, w, f4)| == c4;
  }

  /** The detector reports a prior decision exactly when it is a duplicate in the sense above,
      with a confidence that tells by how many signals. */
  lemma DuplicateOfExact(input: EngineInput, prior: PriorSnapshot)
    ensures DuplicateOf(input, prior).Some? <==> IsDuplicateOf(input, prior)
    ensures DuplicateOf(input, prior).Some? ==>
      var c := DuplicateOf(input, prior).value;
      && c.decisionRunId == prior.decisionRunId && c.documentId == prior.documentId
      && c.extractionRunId == prior.extractionRunId
      && c.confidence == (if input.sourceSha == prior.sourceSha then 9_900
                          else 2_000 * AgreementCount(input.values, prior.values))
  {
    hide AgreeOn, AgreementCount;
    ShaIsNoField();
    FieldSignalsAmong(input.values, prior.values, SIGNAL_FIELDS);
    FieldSignalsCount(input.values, prior.values);
    var signals := DuplicateSignals(input.sourceSha, input.values, prior);
    if input.sourceSha == prior.sourceSha {
      assert signals[0] == SOURCE_SHA_SIGNAL;
    } else {
      assert signals == FieldSignals(input.values, prior.values, SIGNAL_FIELDS);
    }
  }

  ghost predicate Reports(duplicates: seq<DuplicateCandidate>, decisionRunId: Id) {
    exists k | 0 <= k < |duplicates| :: duplicates[k].decisionRunId == decisionRunId
  }

  lemma {:induction false} DuplicateReported(input: EngineInput, priors: seq<PriorSnapshot>, k: nat)
    requires k < |priors| && IsDuplicateOf(input, priors[k])
    ensures Reports(DuplicateCandidates(input, priors), priors[k].decisionRunId)
  {
    hide DuplicateOf, IsDuplicateOf;
    var n := |priors| - 1;
    var front, all := DuplicateCandidates(input, priors[..n]), DuplicateCandidates(input, priors);
    if k < n {
      DuplicateReported(input, priors[..n], k);
      var j :| 0 <= j < |front| && front[j].decisionRunId == priors[k].decisionRunId;
      assert all[j] == front[j];
    } else {
      DuplicateOfExact(input, priors[n]);
      assert all[|front|] == DuplicateOf(input, priors[n]).value;
    }
  }

  lemma {:induction false} ReportedIsDuplicate(input: EngineInput, priors: seq<PriorSnapshot>, j: nat)
    returns (k: nat)
    requires j < |DuplicateCandidates(input, priors)|
    ensures k < |priors| && IsDuplicateOf(input, priors[k])
    ensures priors[k].decisionRunId == DuplicateCandidates(input, priors)[j].decisionRunId
  {
    hide DuplicateOf, IsDuplicateOf;
    var n := |priors| - 1;
    if j < |DuplicateCandidates(input, priors[..n])| {
      k := ReportedIsDuplicate(input, priors[..n], j);
    } else {
      DuplicateOfExact(input, priors[n]);
      k := n;
    }
  }

  /** Some candidate is reported exactly when some prior decision is a duplicate. */
  lemma DuplicatesFound(input: EngineInput)
    ensures DuplicateCandidates(input, input.priors) != [] <==> HasDuplicate(input)
  {
    hide DuplicateOf, IsDuplicateOf;
    if DuplicateCandidates(input, input.priors) != [] {
      var k := ReportedIsDuplicate(input, input.priors, 0);
    }
    if HasDuplicate(input) {
      var k :| 0 <= k < |input.priors| && IsDuplicateOf(input, input.priors[k]);
      DuplicateReported(input, input.priors, k);
    }
  }

  // ----- findings, group by group

  ghost predicate AllOf(findings: seq<Finding>, code: FindingCode, severity: Severity) {
    forall i | 0 <= i < |findings| :: findings[i].code == code && findings[i].severity == severity
  }

  lemma {:induction false} RequiredFindingsExact(values: map<string, EffectiveValue>, paths: seq<string>)
    ensures AllOf(RequiredFindings(values, paths), MissingRequiredField, Error)
    ensures RequiredFindings(values, paths) == [] <==> AllPresent(values, paths)
  {
    hide FieldText;
    if paths != [] {
      var n := |paths| - 1;
      RequiredFindingsExact(values, paths[..n]);
      assert AllPresent(values, paths) <==> AllPresent(values, paths[..n]) && FieldText(values, paths[n]).Some? by {
        assert forall i | 0 <= i < n :: paths[..n][i] == paths[i];
      }
    }
  }

  lemma {:induction false} LowConfidenceFindingsExact(values: map<string, EffectiveValue>, paths: seq<string>)
    ensures AllOf(LowConfidenceFindings(values, paths), LowExtractionConfidence, Warning)
    ensures LowConfidenceFindings(values, paths) == [] <==>
      forall i | 0 <= i < |paths| :: !IsLowConfidence(values, paths[i])
  {
    hide IsLowConfidence;
    if paths != [] {
      var n := |paths| - 1;
      LowConfidenceFindingsExact(values, paths[..n]);
      assert forall i | 0 <= i < n :: paths[..n][i] == paths[i];
    }
  }

  lemma MonetaryExact(lexicon: Lexicon, values: map<string, EffectiveValue>)
    ensures AllOf(MonetaryFindings(lexicon, values, MONEY_CHECKS), InvalidMonetaryValue, Error)
    ensures MonetaryFindings(lexicon, values, MONEY_CHECKS) == [] <==>
      !ReadMoney(lexicon, values, INVOICE_TOTAL, true).InvalidMoney? &&
      !ReadMoney(lexicon, values, INVOICE_SUBTOTAL, false).InvalidMoney? &&
      !ReadMoney(lexicon, values, INVOICE_TAX, false).InvalidMoney?
    ensures var money := MonetaryValues(lexicon, values, MONEY_CHECKS);
      && IsReading(ReadMoney(lexicon, values, INVOICE_TOTAL, true), Lookup(money, INVOICE_TOTAL))
      && IsReading(ReadMoney(lexicon, values, INVOICE_SUBTOTAL, false), Lookup(money, INVOICE_SUBTOTAL))
      && IsReading(ReadMoney(lexicon, values, INVOICE_TAX, false), Lookup(money, INVOICE_TAX))
  {
    hide ReadMoney;
    var c1, c2 := MONEY_CHECKS[..1], MONEY_CHECKS[..2];
    assert c1[..0] == [] && c2[..1] == c1;
    assert |INVOICE_TOTAL| == 13 && |INVOICE_SUBTOTAL| == 16 && |INVOICE_TAX| == 11;
    assert MonetaryFindings(lexicon, values, c1) ==
      if ReadMoney(lexicon, values, INVOICE_TOTAL, true).InvalidMoney?
      then [Finding(InvalidMonetaryValue, Error, Some(INVOICE_TOTAL))] else [];
    assert MonetaryFindings(lexicon, values, c2) == MonetaryFindings(lexicon, values, c1) +
      if ReadMoney(lexicon, values, INVOICE_SUBTOTAL, false).InvalidMoney?
      then [Finding(InvalidMonetaryValue, Error, Some(INVOICE_SUBTOTAL))] else [];
    assert MonetaryValues(lexicon, values, c1) ==
      if ReadMoney(lexicon, values, INVOICE_TOTAL, true).Amount?
      then map[INVOICE_TOTAL := ReadMoney(lexicon, values, INVOICE_TOTAL, true).value] else map[];
    assert MonetaryValues(lexicon, values, c2) ==
      var held := MonetaryValues(lexicon, values, c1);
      var reading := ReadMoney(lexicon, values, INVOICE_SUBTOTAL, false);
      if reading.Amount? then held[INVOICE_SUBTOTAL := reading.value] else held;
  }

  ghost predicate IsReading(reading: MoneyReading, held: Option<int>) {
    held == if reading.Amount? then Some(reading.value) else None
  }

  // ----- supplier

  lemma {:induction false} MatchEntriesExact(
      entries: seq<SupplierEntry>, normalized: string, held: seq<SupplierCandidate>)
    ensures var m := MatchEntries(entries, normalized, held);
      && (m.status == ConfidentMatch <==> exists k | 0 <= k < |entries| :: MatchesExactly(entries[k], normalized))
      && (m.status == ConfidentMatch ==>
          && |m.candidates| == 1
          && exists k | 0 <= k < |entries| :: entries[k].reference == m.candidates[0].reference)
  {
    if entries != [] && !MatchesExactly(entries[0], normalized) {
      var partial := MatchesPartially(entries[0], normalized);
      var next := if partial then held + [SupplierCandidate(entries[0].reference, entries[0].name, false)] else held;
      MatchEntriesExact(entries[1..], normalized, next);
      var m := MatchEntries(entries, normalized, held);
      assert m == MatchEntries(entries[1..], normalized, next);
      if m.status == ConfidentMatch {
        var k :| 0 <= k < |entries[1..]| && MatchesExactly(entries[1..][k], normalized);
        assert MatchesExactly(entries[k + 1], normalized);
        var j :| 0 <= j < |entries[1..]| && entries[1..][j].reference == m.candidates[0].reference;
        assert entries[j + 1].reference == m.candidates[0].reference;
      }
      if k :| 0 <= k < |entries| && MatchesExactly(entries[k], normalized) {
        assert MatchesExactly(entries[1..][k - 1], normalized);
      }
    } else if entries != [] {
      assert entries[0].reference == MatchEntries(entries, normalized, held).candidates[0].reference;
    }
  }

  ghost predicate IsFirstExact(entries: seq<SupplierEntry>, normalized: string, k: nat) {
    k < |entries| && MatchesExactly(entries[k], normalized) &&
    forall j | 0 <= j < k :: !MatchesExactly(entries[j], normalized)
  }

  function PartialOf(entries: seq<SupplierEntry>, normalized: string): seq<SupplierCandidate> {
    if entries == [] then []
    else
      (if MatchesPartially(entries[0], normalized)
       then [SupplierCandidate(entries[0].reference, entries[0].name, false)] else []) +
      PartialOf(entries[1..], normalized)
  }

  /** An exact name match wins over any number of partial ones, and the first in the directory
      is the one candidate. */
  lemma {:induction false} FirstExactWins(
      entries: seq<SupplierEntry>, normalized: string, held: seq<SupplierCandidate>, k: nat)
    requires IsFirstExact(entries, normalized, k)
    ensures MatchEntries(entries, normalized, held) ==
      SupplierMatch(ConfidentMatch, [SupplierCandidate(entries[k].reference, entries[k].name, true)])
  {
    hide MatchesExactly, MatchesPartially;
    if k > 0 {
      assert !MatchesExactly(entries[0], normalized);
      assert forall j | 0 <= j < k - 1 :: entries[1..][j] == entries[j + 1];
      var partial := MatchesPartially(entries[0], normalized);
      FirstExactWins(entries[1..], normalized,
        if partial then held + [SupplierCandidate(entries[0].reference, entries[0].name, false)] else held, k - 1);
    }
  }

  /** Without an exact match the candidates are the partial ones, in directory order; a supplier
      with neither is new. */
  lemma {:induction false} PartialsListed(
      entries: seq<SupplierEntry>, normalized: string, held: seq<SupplierCandidate>)
    requires forall k | 0 <= k < |entries| :: !MatchesExactly(entries[k], normalized)
    ensures var all := held + PartialOf(entries, normalized);
      MatchEntries(entries, normalized, held) == SupplierMatch(if all == [] then NoMatch else CandidateMatches, all)
  {
    hide MatchesExactly, MatchesPartially;
    if entries == [] {
      assert held + [] == held;
    } else {
      var partial := MatchesPartially(entries[0], normalized);
      var added := if partial then [SupplierCandidate(entries[0].reference, entries[0].name, false)] else [];
      PartialsListed(entries[1..], normalized, held + added);
      assert PartialOf(entries, normalized) == added + PartialOf(entries[1..], normalized);
      assert held + [] == held;
      assert held + added + PartialOf(entries[1..], normalized) == held + (added + PartialOf(entries[1..], normalized));
    }
  }

  lemma {:induction false} EntryFound(entries: seq<SupplierEntry>, reference: string, k: nat)
    requires k < |entries| && entries[k].reference == reference
    ensures EntryByReference(entries, reference).Some?
  {
    if entries[0].reference != reference {
      EntryFound(entries[1..], reference, k - 1);
    }
  }

  /** An account mapping is found exactly for a known supplier. */
  lemma MappedIffKnown(policy: Policy, input: EngineInput)
    ensures var entries := ScopedDirectory(policy.directory, input.firmId, input.clientId);
      MatchedEntry(entries, MatchSupplier(entries, input.values)).Some? <==> KnownSupplier(policy, input)
  {
    var entries := ScopedDirectory(policy.directory, input.firmId, input.clientId);
    var name := FieldText(input.values, SUPPLIER_NAME);
    if name.Some? {
      MatchEntriesExact(entries, NormalizeName(name.value), []);
      var m := MatchSupplier(entries, input.values);
      if m.status == ConfidentMatch {
        var k :| 0 <= k < |entries| && entries[k].reference == m.candidates[0].reference;
        EntryFound(entries, m.candidates[0].reference, k);
      }
    }
  }

  // ----- journal

  /** When a journal is proposed, and what it says. */
  lemma JournalExact(policy: Policy, input: EngineInput)
    ensures var journal := JournalFor(policy, input.firmId, input.clientId, input.values);
      var total := ReadMoney(policy.lexicon, input.values, INVOICE_TOTAL, true);
      && (journal.Some? <==>
          && IsSupported(FieldText(input.values, DOCUMENT_TYPE))
          && KnownSupplier(policy, input)
          && total.Amount?
          && !ReadMoney(policy.lexicon, input.values, INVOICE_SUBTOTAL, false).InvalidMoney?
          && !ReadMoney(policy.lexicon, input.values, INVOICE_TAX, false).InvalidMoney?
          && ReadCurrency(input.values).CurrencyCode?)
      && (journal.Some? ==>
          && journal.value.totalDebits == total.value
          && journal.value.totalCredits == total.value + policy.creditAdjustment
          && journal.value.currency == ReadCurrency(input.values).code
          && (journal.value.isBalanced <==> policy.creditAdjustment == 0))
  {
    MonetaryExact(policy.lexicon, input.values);
    MappedIffKnown(policy, input);
    var entries := ScopedDirectory(policy.directory, input.firmId, input.clientId);
    var matched := MatchedEntry(entries, MatchSupplier(entries, input.values));
    var recommendations := Recommendations(matched);
    if matched.Some? {
      assert recommendations[0] == Recommendation(GlAccount, matched.value.glAccount);
    }
    var journal := JournalFor(policy, input.firmId, input.clientId, input.values);
    if journal.Some? {
      var lines := journal.value.lines;
      assert lines[..1] == [lines[0]] && lines[..1][..0] == [];
      assert SumDebits(lines[..1]) == lines[0].debit && SumCredits(lines[..1]) == lines[0].credit;
    }
  }

  // ----- the verdict

  lemma HasErrorConcat(a: seq<Finding>, b: seq<Finding>)
    ensures HasError(a + b) <==> HasError(a) || HasError(b)
  {
    var c := a + b;
    if HasError(a) {
      var i :| 0 <= i < |a| && a[i].severity == Error;
      assert c[i].severity == Error;
    }
    if HasError(b) {
      var i :| 0 <= i < |b| && b[i].severity == Error;
      assert c[|a| + i].severity == Error;
    }
  }

  lemma HasSeniorCodeConcat(a: seq<Finding>, b: seq<Finding>)
    ensures HasSeniorCode(a + b) <==> HasSeniorCode(a) || HasSeniorCode(b)
  {
    var c := a + b;
    if HasSeniorCode(a) {
      var i :| 0 <= i < |a| && a[i].code in SENIOR_CODES;
      assert c[i].code in SENIOR_CODES;
    }
    if HasSeniorCode(b) {
      var i :| 0 <= i < |b| && b[i].code in SENIOR_CODES;
      assert c[|a| + i].code in SENIOR_CODES;
    }
  }

  /** Whether two groups together hold an error or a senior-routing code. */
  lemma Combined(a: seq<Finding>, b: seq<Finding>)
    ensures HasError(a + b) <==> HasError(a) || HasError(b)
    ensures HasSeniorCode(a + b) <==> HasSeniorCode(a) || HasSeniorCode(b)
  {
    HasErrorConcat(a, b);
    HasSeniorCodeConcat(a, b);
  }

  /** A group with one code and one severity. */
  lemma Uniform(findings: seq<Finding>, code: FindingCode, severity: Severity)
    requires AllOf(findings, code, severity)
    ensures HasError(findings) <==> findings != [] && severity == Error
    ensures HasSeniorCode(findings) <==> findings != [] && code in SENIOR_CODES
  {
    if findings != [] {
      assert findings[0].severity == severity && findings[0].code == code;
    }
  }

  lemma SupportedExtraction(policy: Policy, values: map<string, EffectiveValue>)
    requires IsSupported(FieldText(values, DOCUMENT_TYPE))
    ensures ExtractionFindings(policy, values) ==
      RequiredFindings(values, INVOICE_FIELDS) +
      LowConfidenceFindings(values, RelevantFields(Some(PURCHASE_INVOICE))) +
      (MonetaryFindings(policy.lexicon, values, MONEY_CHECKS) + CurrencyFindings(values) +
       ArithmeticFindings(MonetaryValues(policy.lexicon, values, MONEY_CHECKS)))
  {
    hide RequiredFindings, LowConfidenceFindings, MonetaryFindings, MonetaryValues, CurrencyFindings,
      ArithmeticFindings, FieldText;
    var required := RequiredFindings(values, INVOICE_FIELDS);
    assert required + [] == required;
  }

  /** Error findings and senior-routing findings that come from the extraction alone. */
  lemma ExtractionFindingsExact(policy: Policy, values: map<string, EffectiveValue>)
    requires IsSupported(FieldText(values, DOCUMENT_TYPE))
    ensures HasError(ExtractionFindings(policy, values)) <==>
      || !AllPresent(values, INVOICE_FIELDS)
      || MonetaryFindings(policy.lexicon, values, MONEY_CHECKS) != []
      || CurrencyFindings(values) != []
      || ArithmeticFindings(MonetaryValues(policy.lexicon, values, MONEY_CHECKS)) != []
    ensures HasSeniorCode(ExtractionFindings(policy, values)) <==> HasLowConfidence(values)
  {
    hide HasError, HasSeniorCode, FieldText, ExtractionFindings, RequiredFindings, LowConfidenceFindings,
      MonetaryFindings, MonetaryValues, IsLowConfidence, ReadCurrency;
    var required := RequiredFindings(values, INVOICE_FIELDS);
    var low := LowConfidenceFindings(values, RelevantFields(Some(PURCHASE_INVOICE)));
    var money := MonetaryFindings(policy.lexicon, values, MONEY_CHECKS);
    var currency := CurrencyFindings(values);
    var arithmetic := ArithmeticFindings(MonetaryValues(policy.lexicon, values, MONEY_CHECKS));
    SupportedExtraction(policy, values);
    RequiredFindingsExact(values, INVOICE_FIELDS);
    LowConfidenceFindingsExact(values, RelevantFields(Some(PURCHASE_INVOICE)));
    MonetaryExact(policy.lexicon, values);
    Uniform(required, MissingRequiredField, Error);
    Uniform(low, LowExtractionConfidence, Warning);
    Uniform(money, InvalidMonetaryValue, Error);
    Uniform(currency, InvalidCurrency, Error);
    Uniform(arithmetic, ArithmeticMismatch, Error);
    Combined(money, currency);
    Combined(money + currency, arithmetic);
    Combined(required, low);
    Combined(required + low, money + currency + arithmetic);
  }

  /** The classifier's verdict on an engine decision, for every policy and every input:
      blocked unless every control passes, then senior exactly for a duplicate or a low
      confidence, and ordinary otherwise. */
  lemma Verdict(policy: Policy, input: EngineInput)
    ensures var decision := Decide(policy, input);
      ClassifyReviewRisk(decision.findings, decision.journal) ==
        if !PassesControls(policy, input) then Blocked
        else if HasDuplicate(input) || HasLowConfidence(input.values) then SeniorRequired
        else Ordinary
  {
    var values := input.values;
    var decision := Decide(policy, input);
    if IsSupported(FieldText(values, DOCUMENT_TYPE)) {
      JournalExact(policy, input);
      if decision.journal.Some? && decision.journal.value.isBalanced {
        BalancedVerdict(policy, input);
      }
    }
  }

  lemma BalancedVerdict(policy: Policy, input: EngineInput)
    requires var journal := JournalFor(policy, input.firmId, input.clientId, input.values);
      journal.Some? && journal.value.isBalanced
    ensures HasError(Decide(policy, input).findings) <==> !PassesControls(policy, input)
    ensures HasSeniorCode(Decide(policy, input).findings) <==>
      HasDuplicate(input) || HasLowConfidence(input.values)
  {
    hide HasError, HasSeniorCode, JournalFor, ExtractionFindings, FieldText, MonetaryFindings, MonetaryValues,
      ReadMoney, DuplicateCandidates, HasDuplicate, HasLowConfidence, AllPresent, MatchSupplier, MatchedEntry,
      KnownSupplier;
    var values := input.values;
    JournalExact(policy, input);
    MappedIffKnown(policy, input);
    MonetaryExact(policy.lexicon, values);
    ExtractionFindingsExact(policy, values);
    DuplicatesFound(input);
    var extraction := ExtractionFindings(policy, values);
    var duplicate := DuplicateFindings(DuplicateCandidates(input, input.priors));
    var tax := [Finding(TaxReviewRequired, Warning, None)];
    BalancedFindings(policy, input);
    Uniform(duplicate, PossibleDuplicate, Warning);
    Uniform(tax, TaxReviewRequired, Warning);
    Combined(extraction, duplicate);
    Combined(extraction + duplicate, tax);
  }

  lemma BalancedFindings(policy: Policy, input: EngineInput)
    requires var journal := JournalFor(policy, input.firmId, input.clientId, input.values);
      journal.Some? && journal.value.isBalanced
    ensures Decide(policy, input).findings ==
      ExtractionFindings(policy, input.values) + DuplicateFindings(DuplicateCandidates(input, input.priors)) +
      [Finding(TaxReviewRequired, Warning, None)]
  {
    hide JournalFor, ExtractionFindings, FieldText, DuplicateCandidates, EntryByReference, MatchEntries, KnownSupplier;
    JournalExact(policy, input);
    MappedIffKnown(policy, input);
    var entries := ScopedDirectory(policy.directory, input.firmId, input.clientId);
    var supplierMatch := MatchSupplier(entries, input.values);
    assert SupplierFindings(input.values, supplierMatch) == [];
    assert MappingFindings(input.values, MatchedEntry(entries, supplierMatch)) == [];
    assert JournalFindings(JournalFor(policy, input.firmId, input.clientId, input.values)) == [];
    var start := ExtractionFindings(policy, input.values);
    var next := DuplicateFindings(DuplicateCandidates(input, input.priors));
    assert start + [] == start && start + next + [] == start + next;
    assert start + next + [Finding(TaxReviewRequired, Warning, None)] + [] ==
           start + next + [Finding(TaxReviewRequired, Warning, None)];
  }

  /** New and unmapped suppliers never reach a senior: without a mapping there is no journal. */
  lemma UnknownSupplierIsBlocked(policy: Policy, input: EngineInput)
    requires !KnownSupplier(policy, input)
    ensures Decide(policy, input).journal.None?
    ensures ClassifyReviewRisk(Decide(policy, input).findings, Decide(policy, input).journal) == Blocked
  {
    JournalExact(policy, input);
  }
}
