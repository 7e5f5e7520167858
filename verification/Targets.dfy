/** Projection of an approved review outcome onto a reconciliation target. */
module Targets {
  import opened Prelude
  import opened Text
  import opened EffectiveValues
  import opened Engine
  import opened ReviewPolicy
  import opened Matching
  import opened Store

  /** Whether a decimal equals an amount scaled by 10,000. */
  predicate EqualsScaled(d: Decimal, amount: int) {
    d.Finite? &&
    if d.exponent >= -MONEY_SCALE then d.coefficient * Pow10(d.exponent + MONEY_SCALE) == amount
    else d.coefficient == amount * Pow10(-d.exponent - MONEY_SCALE)
  }

  function EffectiveDate(lexicon: Lexicon, values: map<string, EffectiveValue>): Option<int> {
    match FieldText(values, INVOICE_DATE)
    case None => None
    case Some(text) => lexicon.parseDate(text)
  }

  /** A finite positive decimal, or nothing. */
  function EffectiveDecimal(lexicon: Lexicon, values: map<string, EffectiveValue>): Option<Decimal> {
    match FieldText(values, INVOICE_TOTAL)
    case None => None
    case Some(text) =>
      match lexicon.parseDecimal(text)
      case None => None
      case Some(d) => if d.Finite? && d.coefficient > 0 then Some(d) else None
  }

  function Project(
      lexicon: Lexicon, outcomeId: Id, outcome: ReviewOutcome, journal: Option<Journal>,
      values: map<string, EffectiveValue>)
    : Option<Target>
  {
    if !outcome.IsApproval() then None
    else if outcome.journalId.None? || journal.None? then None
    else if outcome.journalId.value != outcome.decisionRunId || !journal.value.isBalanced then None
    else if journal.value.totalDebits != journal.value.totalCredits || journal.value.totalDebits <= 0 then None
    else if FieldText(values, DOCUMENT_TYPE) != Some(PURCHASE_INVOICE) then None
    else
      var date := EffectiveDate(lexicon, values);
      var total := EffectiveDecimal(lexicon, values);
      var currency := FieldText(values, INVOICE_CURRENCY);
      if date.None? || total.None? || currency.None? then None
      else if !EqualsScaled(total.value, journal.value.totalDebits) then None
      else if NormalizedCurrency(currency.value) != NormalizedCurrency(journal.value.currency) then None
      else Some(Target(
        outcome.firmId, outcome.clientId, outcomeId, outcome.decisionRunId, outcome.documentId,
        date.value, Debit, journal.value.totalDebits, NormalizedCurrency(currency.value),
        FieldText(values, INVOICE_NUMBER), FieldText(values, SUPPLIER_NAME)))
  }

  function JournalOf(decisions: seq<DecisionRun>, decisionId: Id): Option<Journal> {
    if decisionId < |decisions| then decisions[decisionId].Journal() else None
  }

  /** The target of one outcome as the tables stand. */
  function ProjectNow(lexicon: Lexicon, s: Store, outcomeId: Id): Option<Target>
    requires outcomeId < |s.outcomes|
  {
    var o := s.outcomes[outcomeId];
    Project(lexicon, outcomeId, o, JournalOf(s.decisions, o.decisionRunId),
            EffectiveNow(s.extractions, s.corrections, o.extractionRunId))
  }

  predicate IsClientApproval(o: ReviewOutcome, firmId: Id, clientId: Id) {
    o.IsApproval() && o.firmId == firmId && o.clientId == clientId
  }

  /** The targets among the first n outcomes. */
  function TargetsAmong(lexicon: Lexicon, s: Store, firmId: Id, clientId: Id, n: nat): seq<Target>
    requires n <= |s.outcomes|
  {
    if n == 0 then []
    else
      var target := ProjectNow(lexicon, s, n - 1);
      TargetsAmong(lexicon, s, firmId, clientId, n - 1) +
      if IsClientApproval(s.outcomes[n - 1], firmId, clientId) && target.Some? then [target.value] else []
  }

  function ApprovedTargets(lexicon: Lexicon, s: Store, firmId: Id, clientId: Id): seq<Target> {
    TargetsAmong(lexicon, s, firmId, clientId, |s.outcomes|)
  }

  /** The currency readings agree: upper-casing a code twice changes nothing. */
  lemma CurrencyAgrees(text: string)
    requires IsCurrencyCode(text)
    ensures NormalizedCurrency(text) == Upper(text)
    ensures NormalizedCurrency(Upper(text)) == Upper(text)
    ensures ValidCurrency(Upper(text))
  {
    assert StripLeft(text) == text && StripRight(text) == text;
    var upper := Upper(text);
    assert forall i | 0 <= i < 3 :: IsUpper(upper[i]);
    assert StripLeft(upper) == upper && StripRight(upper) == upper;
    assert Upper(upper) == upper;
  }

  /** For the engine's own balanced journal over the same effective values, projection
      succeeds exactly when the invoice date parses: no other rejection can fire. */
  lemma ProjectionExact(
      policy: Policy, outcomeId: Id, outcome: ReviewOutcome, values: map<string, EffectiveValue>)
    requires outcome.IsApproval() && outcome.journalId == Some(outcome.decisionRunId)
    requires var journal := JournalFor(policy, outcome.firmId, outcome.clientId, values);
      journal.Some? && journal.value.isBalanced
    ensures var journal := JournalFor(policy, outcome.firmId, outcome.clientId, values);
      var target := Project(policy.lexicon, outcomeId, outcome, journal, values);
      && (target.Some? <==> EffectiveDate(policy.lexicon, values).Some?)
      && (target.Some? ==>
          && ValidTarget(target.value)
          && target.value.amount == journal.value.totalDebits
          && target.value.currency == journal.value.currency)
  {
    hide JournalFor, FieldText, KnownSupplier, ReadMoney, EffectiveDecimal, EqualsScaled, NormalizedCurrency, Upper,
      ValidCurrency;
    JournalExact(policy, EngineInput(outcome.firmId, outcome.clientId, 0, "", values, []));
    AmountAgrees(policy.lexicon, values);
    CurrencyAgrees(FieldText(values, INVOICE_CURRENCY).value);
  }

  /** Where the engine read an amount, projection reads the same positive decimal. */
  lemma AmountAgrees(lexicon: Lexicon, values: map<string, EffectiveValue>)
    requires ReadMoney(lexicon, values, INVOICE_TOTAL, true).Amount?
    ensures var total := EffectiveDecimal(lexicon, values);
      total.Some? && EqualsScaled(total.value, ReadMoney(lexicon, values, INVOICE_TOTAL, true).value)
  {
    hide FieldText;
    var d := lexicon.parseDecimal(FieldText(values, INVOICE_TOTAL).value).value;
    PositiveProduct(d.coefficient, Pow10(d.exponent + MONEY_SCALE));
  }

  lemma PositiveProduct(a: int, b: int)
    requires b >= 1 && a * b > 0
    ensures a > 0
  {
  }

  // ----- what a projected target carries

  lemma ProjectionFields(lexicon: Lexicon, s: Store, k: nat)
    requires k < |s.outcomes| && ProjectNow(lexicon, s, k).Some?
    ensures var target := ProjectNow(lexicon, s, k).value;
      var journal := JournalOf(s.decisions, s.outcomes[k].decisionRunId);
      && target.outcomeId == k && target.firmId == s.outcomes[k].firmId && target.clientId == s.outcomes[k].clientId
      && target.direction == Debit && journal.Some? && target.amount == journal.value.totalDebits > 0
      && journal.value.totalDebits == journal.value.totalCredits
      && NormalizedCurrency(target.currency) == target.currency
  {
    var text := FieldText(EffectiveNow(s.extractions, s.corrections, s.outcomes[k].extractionRunId), INVOICE_CURRENCY);
    NormalizedTwice(text.value);
  }

  lemma {:induction false} UpperTwice(text: string)
    ensures Upper(Upper(text)) == Upper(text)
  {
  }

  lemma {:induction false} StripUpper(text: string)
    ensures StripLeft(Upper(text)) == Upper(StripLeft(text))
    ensures StripRight(Upper(text)) == Upper(StripRight(text))
  {
    if text != "" {
      StripUpper(text[1..]);
      StripUpper(text[..|text| - 1]);
      assert Upper(text)[1..] == Upper(text[1..]) && Upper(text)[..|text| - 1] == Upper(text[..|text| - 1]);
    }
  }

  lemma NormalizedTwice(text: string)
    ensures NormalizedCurrency(NormalizedCurrency(text)) == NormalizedCurrency(text)
  {
    StripUpper(Strip(text));
    StripUpper(StripLeft(Strip(text)));
    StripIsStripped(text);
    UpperTwice(Strip(text));
  }
}
