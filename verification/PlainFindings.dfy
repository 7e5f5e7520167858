/** Every finding the engine raises, with the condition on the document that justifies it. */
module PlainFindings {
  import opened Prelude
  import opened EffectiveValues
  import opened Engine
  import opened ReviewPolicy
  import opened PlainVerdicts

  predicate IsInvoice(values: map<string, EffectiveValue>) {
    FieldText(values, "document.type") == Some("purchase_invoice")
  }

  /** A text that is no amount; a total must also be positive. */
  ghost predicate IsBadMoney(lexicon: Lexicon, values: map<string, EffectiveValue>, path: string) {
    FieldText(values, path).Some? &&
    forall amount: int :: IsMoney(lexicon, values, path, amount) ==> path == "invoice.total" && amount <= 0
  }

  /** Total, subtotal and tax are all readable, and the last two do not add up to the first. */
  ghost predicate IsMismatch(lexicon: Lexicon, values: map<string, EffectiveValue>) {
    exists total: int, subtotal: int, tax: int ::
      IsMoney(lexicon, values, "invoice.total", total) && IsMoney(lexicon, values, "invoice.subtotal", subtotal) &&
      IsMoney(lexicon, values, "invoice.tax", tax) && total > 0 && subtotal + tax != total
  }

  ghost predicate IsUnknown(policy: Policy, input: EngineInput) {
    FieldText(input.values, "supplier.name").Some? && !IsKnown(policy, input)
  }

  /** What on the document, and under the policy, justifies the finding. */
  ghost predicate Justified(policy: Policy, input: EngineInput, f: Finding) {
    var values, invoice := input.values, IsInvoice(input.values);
    match f.code
    case MissingRequiredField =>
      f.severity == Error && f.fieldPath.Some? &&
      f.fieldPath.value in (if invoice then DEMANDED_FIELDS else ["document.type"]) &&
      FieldText(values, f.fieldPath.value).None?
    case UnsupportedDocumentType =>
      f == Finding(UnsupportedDocumentType, Warning, Some("document.type")) &&
      FieldText(values, "document.type").Some? && !invoice
    case LowExtractionConfidence =>
      f.severity == Warning && f.fieldPath.Some? &&
      f.fieldPath.value in (if invoice then CHECKED_FIELDS else ["document.type"]) && f.fieldPath.value in values &&
      values[f.fieldPath.value].confidence.Some? && values[f.fieldPath.value].confidence.value < 5_000
    case InvalidMonetaryValue =>
      f.severity == Error && f.fieldPath.Some? && invoice &&
      f.fieldPath.value in ["invoice.total", "invoice.subtotal", "invoice.tax"] &&
      IsBadMoney(policy.lexicon, values, f.fieldPath.value)
    case InvalidCurrency =>
      f == Finding(InvalidCurrency, Error, Some("invoice.currency")) && invoice &&
      FieldText(values, "invoice.currency").Some? && !HasCurrency(values)
    case ArithmeticMismatch =>
      f == Finding(ArithmeticMismatch, Error, None) && invoice && IsMismatch(policy.lexicon, values)
    case PossibleDuplicate => f == Finding(PossibleDuplicate, Warning, None) && invoice && HasTwin(input)
    case NewSupplier =>
      f == Finding(NewSupplier, Warning, Some("supplier.name")) && invoice && IsUnknown(policy, input) &&
      Resembling(policy.directory, input.firmId, input.clientId, FieldText(values, "supplier.name").value) == []
    case UnknownAccountMapping =>
      f == Finding(UnknownAccountMapping, Warning, Some("supplier.name")) && invoice && IsUnknown(policy, input)
    case TaxReviewRequired => f == Finding(TaxReviewRequired, Warning, None) && invoice
    case UnbalancedJournal =>
      f == Finding(UnbalancedJournal, Error, None) && Decide(policy, input).journal.Some? &&
      policy.creditAdjustment != 0
  }

  // ----- group by group

  lemma {:induction false} RequiredMember(values: map<string, EffectiveValue>, paths: seq<string>, f: Finding)
    ensures f in RequiredFindings(values, paths) <==>
      f.code == MissingRequiredField && f.severity == Error && f.fieldPath.Some? && f.fieldPath.value in paths &&
      FieldText(values, f.fieldPath.value).None?
  {
    hide FieldText;
    if paths != [] {
      var n := |paths| - 1;
      RequiredMember(values, paths[..n], f);
      assert paths == paths[..n] + [paths[n]];
    }
  }

  lemma {:induction false} LowMember(values: map<string, EffectiveValue>, paths: seq<string>, f: Finding)
    ensures f in LowConfidenceFindings(values, paths) <==>
      f.code == LowExtractionConfidence && f.severity == Warning && f.fieldPath.Some? &&
      f.fieldPath.value in paths && IsLowConfidence(values, f.fieldPath.value)
  {
    hide IsLowConfidence;
    if paths != [] {
      var n := |paths| - 1;
      LowMember(values, paths[..n], f);
      assert paths == paths[..n] + [paths[n]];
    }
  }

  lemma BadMoneyExact(lexicon: Lexicon, values: map<string, EffectiveValue>, path: string)
    ensures ReadMoney(lexicon, values, path, path == "invoice.total").InvalidMoney? <==>
            IsBadMoney(lexicon, values, path)
  {
    hide FieldText, ReadMoney, IsMoney;
    var reading := ReadMoney(lexicon, values, path, path == "invoice.total");
    forall amount: int
      ensures reading == Amount(amount) <==>
        IsMoney(lexicon, values, path, amount) && (path == "invoice.total" ==> amount > 0)
    {
      MoneyExact(lexicon, values, path, path == "invoice.total", amount);
    }
    MoneyExact(lexicon, values, path, path == "invoice.total", 0);
  }

  lemma MonetaryMember(lexicon: Lexicon, values: map<string, EffectiveValue>, f: Finding)
    ensures f in MonetaryFindings(lexicon, values, MONEY_CHECKS) <==>
      f.code == InvalidMonetaryValue && f.severity == Error && f.fieldPath.Some? &&
      f.fieldPath.value in ["invoice.total", "invoice.subtotal", "invoice.tax"] &&
      IsBadMoney(lexicon, values, f.fieldPath.value)
  {
    hide ReadMoney, IsBadMoney;
    BadMoneyExact(lexicon, values, "invoice.total");
    BadMoneyExact(lexicon, values, "invoice.subtotal");
    BadMoneyExact(lexicon, values, "invoice.tax");
    assert |"invoice.total"| == 13 && |"invoice.subtotal"| == 16 && |"invoice.tax"| == 11;
    var c1, c2 := MONEY_CHECKS[..1], MONEY_CHECKS[..2];
    assert c1[..0] == [] && c2[..1] == c1 && MONEY_CHECKS[..2] == c2;
    assert f in MonetaryFindings(lexicon, values, c1) <==>
      ReadMoney(lexicon, values, INVOICE_TOTAL, true).InvalidMoney? &&
      f == Finding(InvalidMonetaryValue, Error, Some(INVOICE_TOTAL));
    assert f in MonetaryFindings(lexicon, values, c2) <==>
      f in MonetaryFindings(lexicon, values, c1) ||
      (ReadMoney(lexicon, values, INVOICE_SUBTOTAL, false).InvalidMoney? &&
       f == Finding(InvalidMonetaryValue, Error, Some(INVOICE_SUBTOTAL)));
  }

  lemma MismatchExact(lexicon: Lexicon, values: map<string, EffectiveValue>)
    ensures ArithmeticFindings(MonetaryValues(lexicon, values, MONEY_CHECKS)) ==
      if IsMismatch(lexicon, values) then [Finding(ArithmeticMismatch, Error, None)] else []
  {
    hide ReadMoney, IsMoney, MonetaryValues;
    MonetaryExact(lexicon, values);
    forall amount: int
      ensures ReadMoney(lexicon, values, INVOICE_TOTAL, true) == Amount(amount) <==>
              IsMoney(lexicon, values, "invoice.total", amount) && amount > 0
      ensures ReadMoney(lexicon, values, INVOICE_SUBTOTAL, false) == Amount(amount) <==>
              IsMoney(lexicon, values, "invoice.subtotal", amount)
      ensures ReadMoney(lexicon, values, INVOICE_TAX, false) == Amount(amount) <==>
              IsMoney(lexicon, values, "invoice.tax", amount)
    {
      MoneyExact(lexicon, values, INVOICE_TOTAL, true, amount);
      MoneyExact(lexicon, values, INVOICE_SUBTOTAL, false, amount);
      MoneyExact(lexicon, values, INVOICE_TAX, false, amount);
    }
  }

  lemma CurrencyMember(values: map<string, EffectiveValue>, f: Finding)
    ensures f in CurrencyFindings(values) <==>
      f == Finding(InvalidCurrency, Error, Some("invoice.currency")) &&
      FieldText(values, "invoice.currency").Some? && !HasCurrency(values)
  {
    hide FieldText;
  }

  // ----- all of them

  lemma ExtractionMember(policy: Policy, values: map<string, EffectiveValue>, f: Finding)
    ensures f in ExtractionFindings(policy, values) <==>
      || f in RequiredFindings(values, if IsInvoice(values) then DEMANDED_FIELDS else ["document.type"])
      || (FieldText(values, "document.type").Some? && !IsInvoice(values) &&
          f == Finding(UnsupportedDocumentType, Warning, Some("document.type")))
      || f in LowConfidenceFindings(values, if IsInvoice(values) then CHECKED_FIELDS else ["document.type"])
      || (IsInvoice(values) &&
          (f in MonetaryFindings(policy.lexicon, values, MONEY_CHECKS) || f in CurrencyFindings(values) ||
           f in ArithmeticFindings(MonetaryValues(policy.lexicon, values, MONEY_CHECKS))))
  {
    hide FieldText, RequiredFindings, LowConfidenceFindings, MonetaryFindings, CurrencyFindings, ArithmeticFindings,
      MonetaryValues;
    assert RelevantFields(Some(PURCHASE_INVOICE)) == CHECKED_FIELDS && INVOICE_FIELDS == DEMANDED_FIELDS;
  }

  lemma LowExact(values: map<string, EffectiveValue>, path: string)
    ensures IsLowConfidence(values, path) <==>
      path in values && values[path].confidence.Some? && values[path].confidence.value < 5_000
  {
  }

  lemma ExtractionJustified(policy: Policy, input: EngineInput, f: Finding)
    ensures f in ExtractionFindings(policy, input.values) <==>
      Justified(policy, input, f) &&
      f.code in {MissingRequiredField, UnsupportedDocumentType, LowExtractionConfidence, InvalidMonetaryValue,
                 InvalidCurrency, ArithmeticMismatch}
  {
    hide FieldText, RequiredFindings, LowConfidenceFindings, MonetaryFindings, CurrencyFindings, ArithmeticFindings,
      MonetaryValues, ExtractionFindings, IsLowConfidence, IsBadMoney, IsMismatch, HasCurrency, IsKnown, Decide,
      HasTwin, Resembling, CHECKED_FIELDS, DEMANDED_FIELDS;
    var values := input.values;
    ExtractionMember(policy, values, f);
    RequiredMember(values, if IsInvoice(values) then DEMANDED_FIELDS else ["document.type"], f);
    LowMember(values, if IsInvoice(values) then CHECKED_FIELDS else ["document.type"], f);
    if f.fieldPath.Some? {
      LowExact(values, f.fieldPath.value);
    }
    MonetaryMember(policy.lexicon, values, f);
    CurrencyMember(values, f);
    MismatchExact(policy.lexicon, values);
  }

  lemma FindingMember(policy: Policy, input: EngineInput, f: Finding)
    ensures var entries := ScopedDirectory(policy.directory, input.firmId, input.clientId);
      var found := MatchSupplier(entries, input.values);
      f in Decide(policy, input).findings <==>
      || f in ExtractionFindings(policy, input.values)
      || (IsInvoice(input.values) &&
          (f in SupplierFindings(input.values, found) ||
           f in DuplicateFindings(DuplicateCandidates(input, input.priors)) ||
           f in MappingFindings(input.values, MatchedEntry(entries, found)) ||
           f == Finding(TaxReviewRequired, Warning, None) ||
           f in JournalFindings(Decide(policy, input).journal)))
  {
    hide FieldText, ExtractionFindings, MatchSupplier, MatchedEntry, ScopedDirectory, DuplicateCandidates, JournalFor,
      SupplierFindings, MappingFindings, JournalFindings, DuplicateFindings;
  }

  lemma DecisionJournalBalance(policy: Policy, input: EngineInput)
    ensures var journal := Decide(policy, input).journal;
      && (journal.Some? ==> IsInvoice(input.values))
      && (journal.Some? && !journal.value.isBalanced <==> journal.Some? && policy.creditAdjustment != 0)
  {
    hide Decide, JournalFor, FieldText, KnownSupplier, ReadMoney, ReadCurrency;
    ApprovedEvidence.DecisionJournal(policy, input);
    JournalExact(policy, input);
  }

  /** For every policy and every input, a finding is raised if and only if its condition holds of
      the document, the directory and the prior decisions. */
  lemma FindingsExact(policy: Policy, input: EngineInput, f: Finding)
    ensures f in Decide(policy, input).findings <==> Justified(policy, input, f)
  {
    hide Decide, FieldText, ExtractionFindings, MatchSupplier, MatchedEntry, ScopedDirectory, DuplicateCandidates,
      IsBadMoney, IsMismatch, HasCurrency, IsKnown, HasTwin, Resembling, HasDuplicate, KnownSupplier, IsFirstNamed,
      CHECKED_FIELDS, DEMANDED_FIELDS;
    FindingMember(policy, input, f);
    ExtractionJustified(policy, input, f);
    DuplicatesFound(input);
    TwinExact(input);
    MappedIffKnown(policy, input);
    KnownExact(policy, input);
    MatchExact(policy, input);
    DecisionJournalBalance(policy, input);
  }
}
