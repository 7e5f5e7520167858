/** The deterministic accounting decision engine: what it computes, as functions. */
module Engine {
  import opened Prelude
  import opened Text
  import opened EffectiveValues

  // ----- inputs

  /** A parsed decimal literal: coefficient times ten to the exponent. */
  datatype Decimal = Finite(coefficient: int, exponent: int) | NonFinite

  /** The parsers and validators the services take from their platform. */
  datatype Lexicon = Lexicon(
    parseDecimal: string -> Option<Decimal>,
    parseDate: string -> Option<int>,
    acceptsValue: (string, Option<string>, ValueType) -> bool)

  datatype SupplierEntry = SupplierEntry(
    reference: string,
    name: string,
    aliases: seq<string>,
    glAccount: string,
    category: string,
    taxCode: string,
    costCentre: Option<string>,
    firmId: Option<Id>,
    clientId: Option<Id>)

  /** The synthetic policy: its directory and journal credit adjustment are configurable. */
  datatype Policy = Policy(lexicon: Lexicon, directory: seq<SupplierEntry>, creditAdjustment: int)

  datatype PriorSnapshot = PriorSnapshot(
    decisionRunId: Id,
    documentId: Id,
    extractionRunId: Id,
    sourceSha: string,
    values: map<string, EffectiveValue>)

  datatype EngineInput = EngineInput(
    firmId: Id,
    clientId: Id,
    documentId: Id,
    sourceSha: string,
    values: map<string, EffectiveValue>,
    priors: seq<PriorSnapshot>)

  // ----- outputs

  datatype FindingCode =
    | MissingRequiredField
    | UnsupportedDocumentType
    | InvalidMonetaryValue
    | InvalidCurrency
    | ArithmeticMismatch
    | PossibleDuplicate
    | NewSupplier
    | LowExtractionConfidence
    | UnknownAccountMapping
    | TaxReviewRequired
    | UnbalancedJournal

  datatype Severity = Warning | Error

  datatype Finding = Finding(code: FindingCode, severity: Severity, fieldPath: Option<string>)

  datatype SupplierMatchStatus = ConfidentMatch | CandidateMatches | NoMatch

  datatype SupplierCandidate = SupplierCandidate(reference: string, name: string, isConfident: bool)

  datatype SupplierMatch = SupplierMatch(status: SupplierMatchStatus, candidates: seq<SupplierCandidate>)

  /** Confidence is scaled by 10,000. */
  datatype DuplicateCandidate = DuplicateCandidate(
    documentId: Id,
    extractionRunId: Id,
    decisionRunId: Id,
    confidence: int,
    signals: seq<string>)

  datatype RecommendationType = GlAccount | TaxCode | CostCentre | Category

  datatype Recommendation = Recommendation(kind: RecommendationType, value: string)

  datatype JournalLine = JournalLine(
    number: nat,
    account: string,
    debit: int,
    credit: int,
    taxCode: Option<string>,
    costCentre: Option<string>)

  /** Amounts are scaled by 10,000, the persisted four decimals. */
  datatype Journal = Journal(
    currency: string,
    totalDebits: int,
    totalCredits: int,
    isBalanced: bool,
    lines: seq<JournalLine>)

  datatype Decision = Decision(
    findings: seq<Finding>,
    supplierMatch: SupplierMatch,
    duplicates: seq<DuplicateCandidate>,
    recommendations: seq<Recommendation>,
    journal: Option<Journal>)

  // ----- configuration

  const PURCHASE_INVOICE := "purchase_invoice"
  const DOCUMENT_TYPE := "document.type"
  const SUPPLIER_NAME := "supplier.name"
  const INVOICE_NUMBER := "invoice.number"
  const INVOICE_DATE := "invoice.date"
  const INVOICE_CURRENCY := "invoice.currency"
  const INVOICE_TOTAL := "invoice.total"
  const INVOICE_SUBTOTAL := "invoice.subtotal"
  const INVOICE_TAX := "invoice.tax"
  const PAYABLE_ACCOUNT := "liability:accounts_payable"
  const SOURCE_SHA_SIGNAL := "source_sha256"

  const MONEY_SCALE := 4
  const MAX_MONEY := 999_999_999_999_999_999
  const LOW_CONFIDENCE_THRESHOLD := 5_000
  const DUPLICATE_THRESHOLD := 8_000
  const SHA_CONFIDENCE := 9_900
  const SIGNAL_CONFIDENCE := 2_000

  const INVOICE_FIELDS := [
    DOCUMENT_TYPE, SUPPLIER_NAME, INVOICE_NUMBER, INVOICE_DATE, INVOICE_CURRENCY, INVOICE_TOTAL]

  const SIGNAL_FIELDS := [SUPPLIER_NAME, INVOICE_NUMBER, INVOICE_DATE, INVOICE_CURRENCY, INVOICE_TOTAL]

  /** The monetary fields with whether each must be strictly positive. */
  const MONEY_CHECKS := [(INVOICE_TOTAL, true), (INVOICE_SUBTOTAL, false), (INVOICE_TAX, false)]

  predicate IsSupported(documentType: Option<string>) {
    documentType == Some(PURCHASE_INVOICE)
  }

  function RequiredFields(documentType: Option<string>): seq<string> {
    if IsSupported(documentType) then INVOICE_FIELDS else [DOCUMENT_TYPE]
  }

  function RelevantFields(documentType: Option<string>): seq<string> {
    if IsSupported(documentType) then INVOICE_FIELDS + [INVOICE_SUBTOTAL, INVOICE_TAX]
    else RequiredFields(documentType)
  }

  predicate InScope(entry: SupplierEntry, firmId: Id, clientId: Id) {
    (entry.firmId.None? || entry.firmId.value == firmId) &&
    (entry.clientId.None? || entry.clientId.value == clientId)
  }

  function ScopedDirectory(directory: seq<SupplierEntry>, firmId: Id, clientId: Id): seq<SupplierEntry> {
    if directory == [] then []
    else
      (if InScope(directory[0], firmId, clientId) then [directory[0]] else []) +
      ScopedDirectory(directory[1..], firmId, clientId)
  }

  // ----- field readers

  function FieldText(values: map<string, EffectiveValue>, path: string): Option<string> {
    if path !in values then None
    else
      var text := Strip(values[path].Value());
      if text == "" then None else Some(text)
  }

  function Pow10(n: nat): (p: int)
    ensures p >= 1
  {
    if n == 0 then 1 else 10 * Pow10(n - 1)
  }

  function Abs(x: int): nat { if x < 0 then -x else x }

  datatype MoneyFault = NotFiniteDecimal | TooPrecise | OutOfRange | NotPositive | Negative

  datatype MoneyReading = MissingMoney | Amount(value: int) | InvalidMoney(fault: MoneyFault)

  function ReadMoney(lexicon: Lexicon, values: map<string, EffectiveValue>, path: string, mustBePositive: bool)
    : (reading: MoneyReading)
    ensures reading.Amount? ==> 0 <= reading.value <= MAX_MONEY && (mustBePositive ==> reading.value > 0)
  {
    match FieldText(values, path)
    case None => MissingMoney
    case Some(text) =>
      match lexicon.parseDecimal(text)
      case None => InvalidMoney(NotFiniteDecimal)
      case Some(NonFinite) => InvalidMoney(NotFiniteDecimal)
      case Some(Finite(coefficient, exponent)) =>
        if exponent < -MONEY_SCALE then InvalidMoney(TooPrecise)
        else
          var value := coefficient * Pow10(exponent + MONEY_SCALE);
          if Abs(value) > MAX_MONEY then InvalidMoney(OutOfRange)
          else if mustBePositive && value <= 0 then InvalidMoney(NotPositive)
          else if !mustBePositive && value < 0 then InvalidMoney(Negative)
          else Amount(value)
  }

  datatype CurrencyReading = MissingCurrency | CurrencyCode(code: string) | MalformedCurrency

  predicate IsCurrencyCode(text: string) {
    |text| == 3 && IsAsciiLetter(text[0]) && IsAsciiLetter(text[1]) && IsAsciiLetter(text[2])
  }

  function ReadCurrency(values: map<string, EffectiveValue>): (reading: CurrencyReading)
    ensures reading.CurrencyCode? ==> |reading.code| == 3
  {
    match FieldText(values, INVOICE_CURRENCY)
    case None => MissingCurrency
    case Some(text) => if IsCurrencyCode(text) then CurrencyCode(Upper(text)) else MalformedCurrency
  }

  // ----- findings

  function RequiredFindings(values: map<string, EffectiveValue>, paths: seq<string>): seq<Finding> {
    if paths == [] then []
    else
      var n := |paths| - 1;
      RequiredFindings(values, paths[..n]) +
      if FieldText(values, paths[n]).None? then [Finding(MissingRequiredField, Error, Some(paths[n]))] else []
  }

  predicate IsLowConfidence(values: map<string, EffectiveValue>, path: string) {
    path in values && values[path].confidence.Some? &&
    values[path].confidence.value < LOW_CONFIDENCE_THRESHOLD
  }

  function LowConfidenceFindings(values: map<string, EffectiveValue>, paths: seq<string>): seq<Finding> {
    if paths == [] then []
    else
      var n := |paths| - 1;
      LowConfidenceFindings(values, paths[..n]) +
      if IsLowConfidence(values, paths[n]) then [Finding(LowExtractionConfidence, Warning, Some(paths[n]))] else []
  }

  function MonetaryValues(lexicon: Lexicon, values: map<string, EffectiveValue>, checks: seq<(string, bool)>)
    : map<string, int>
  {
    if checks == [] then map[]
    else
      var n := |checks| - 1;
      var held := MonetaryValues(lexicon, values, checks[..n]);
      var reading := ReadMoney(lexicon, values, checks[n].0, checks[n].1);
      if reading.Amount? then held[checks[n].0 := reading.value] else held
  }

  function MonetaryFindings(lexicon: Lexicon, values: map<string, EffectiveValue>, checks: seq<(string, bool)>)
    : seq<Finding>
  {
    if checks == [] then []
    else
      var n := |checks| - 1;
      var reading := ReadMoney(lexicon, values, checks[n].0, checks[n].1);
      MonetaryFindings(lexicon, values, checks[..n]) +
      if reading.InvalidMoney? then [Finding(InvalidMonetaryValue, Error, Some(checks[n].0))] else []
  }

  function CurrencyFindings(values: map<string, EffectiveValue>): seq<Finding> {
    if ReadCurrency(values).MalformedCurrency? then [Finding(InvalidCurrency, Error, Some(INVOICE_CURRENCY))] else []
  }

  function ArithmeticFindings(money: map<string, int>): seq<Finding> {
    if INVOICE_SUBTOTAL in money && INVOICE_TAX in money && INVOICE_TOTAL in money &&
       money[INVOICE_SUBTOTAL] + money[INVOICE_TAX] != money[INVOICE_TOTAL]
    then [Finding(ArithmeticMismatch, Error, None)] else []
  }

  // ----- supplier matching

  function EntryNames(entry: SupplierEntry): seq<string> { [entry.name] + entry.aliases }

  predicate MatchesExactly(entry: SupplierEntry, normalized: string) {
    exists k | 0 <= k < |EntryNames(entry)| :: NormalizeName(EntryNames(entry)[k]) == normalized
  }

  function EntryTokens(names: seq<string>): set<string> {
    if names == [] then {} else NameTokens(NormalizeName(names[0])) + EntryTokens(names[1..])
  }

  /** Token overlap of at least one half of the union. */
  predicate MatchesPartially(entry: SupplierEntry, normalized: string) {
    var supplier, known := NameTokens(normalized), EntryTokens(EntryNames(entry));
    supplier != {} && known != {} && 2 * |supplier * known| >= |supplier + known|
  }

  function MatchEntries(entries: seq<SupplierEntry>, normalized: string, held: seq<SupplierCandidate>): SupplierMatch {
    if entries == [] then SupplierMatch(if held == [] then NoMatch else CandidateMatches, held)
    else if MatchesExactly(entries[0], normalized) then
      SupplierMatch(ConfidentMatch, [SupplierCandidate(entries[0].reference, entries[0].name, true)])
    else
      var partial := MatchesPartially(entries[0], normalized);
      MatchEntries(entries[1..], normalized,
        if partial then held + [SupplierCandidate(entries[0].reference, entries[0].name, false)] else held)
  }

  function MatchSupplier(entries: seq<SupplierEntry>, values: map<string, EffectiveValue>): SupplierMatch {
    match FieldText(values, SUPPLIER_NAME)
    case None => SupplierMatch(NoMatch, [])
    case Some(name) => MatchEntries(entries, NormalizeName(name), [])
  }

  function EntryByReference(entries: seq<SupplierEntry>, reference: string): Option<SupplierEntry> {
    if entries == [] then None
    else if entries[0].reference == reference then Some(entries[0])
    else EntryByReference(entries[1..], reference)
  }

  function MatchedEntry(entries: seq<SupplierEntry>, supplierMatch: SupplierMatch): Option<SupplierEntry> {
    if supplierMatch.status != ConfidentMatch || supplierMatch.candidates == [] then None
    else EntryByReference(entries, supplierMatch.candidates[0].reference)
  }

  // ----- duplicates

  function ComparisonValue(path: string, text: string): string {
    if path == SUPPLIER_NAME then NormalizeName(text) else Strip(Lower(text))
  }

  predicate AgreeOn(path: string, v: map<string, EffectiveValue>, w: map<string, EffectiveValue>) {
    FieldText(v, path).Some? && FieldText(w, path).Some? &&
    ComparisonValue(path, FieldText(v, path).value) == ComparisonValue(path, FieldText(w, path).value)
  }

  function FieldSignals(v: map<string, EffectiveValue>, w: map<string, EffectiveValue>, paths: seq<string>)
    : seq<string>
  {
    if paths == [] then []
    else
      var n := |paths| - 1;
      FieldSignals(v, w, paths[..n]) + if AgreeOn(paths[n], v, w) then [paths[n]] else []
  }

  function DuplicateSignals(sourceSha: string, values: map<string, EffectiveValue>, prior: PriorSnapshot)
    : seq<string>
  {
    (if sourceSha == prior.sourceSha then [SOURCE_SHA_SIGNAL] else []) +
    FieldSignals(values, prior.values, SIGNAL_FIELDS)
  }

  function SignalConfidence(signals: seq<string>): int {
    if SOURCE_SHA_SIGNAL in signals then SHA_CONFIDENCE else |signals| * SIGNAL_CONFIDENCE
  }

  function DuplicateOf(input: EngineInput, prior: PriorSnapshot): Option<DuplicateCandidate> {
    var signals := DuplicateSignals(input.sourceSha, input.values, prior);
    if prior.documentId == input.documentId || signals == [] ||
       SignalConfidence(signals) < DUPLICATE_THRESHOLD
    then None
    else Some(DuplicateCandidate(prior.documentId, prior.extractionRunId, prior.decisionRunId,
                                 SignalConfidence(signals), signals))
  }

  function DuplicateCandidates(input: EngineInput, priors: seq<PriorSnapshot>): seq<DuplicateCandidate> {
    if priors == [] then []
    else
      var n := |priors| - 1;
      var found := DuplicateOf(input, priors[n]);
      DuplicateCandidates(input, priors[..n]) + if found.Some? then [found.value] else []
  }

  // ----- recommendations and journal

  function Recommendations(entry: Option<SupplierEntry>): seq<Recommendation> {
    match entry
    case None => []
    case Some(e) =>
      [Recommendation(GlAccount, e.glAccount), Recommendation(Category, e.category),
       Recommendation(TaxCode, e.taxCode)] +
      if e.costCentre.Some? then [Recommendation(CostCentre, e.costCentre.value)] else []
  }

  function RecommendedValue(recommendations: seq<Recommendation>, kind: RecommendationType): Option<string> {
    if recommendations == [] then None
    else if recommendations[0].kind == kind then Some(recommendations[0].value)
    else RecommendedValue(recommendations[1..], kind)
  }

  function SumDebits(lines: seq<JournalLine>): int {
    if lines == [] then 0 else SumDebits(lines[..|lines| - 1]) + lines[|lines| - 1].debit
  }

  function SumCredits(lines: seq<JournalLine>): int {
    if lines == [] then 0 else SumCredits(lines[..|lines| - 1]) + lines[|lines| - 1].credit
  }

  function ProposedJournal(
      policy: Policy, recommendations: seq<Recommendation>, total: Option<int>, currency: Option<string>)
    : Option<Journal>
  {
    var expense := RecommendedValue(recommendations, GlAccount);
    if total.None? || currency.None? || expense.None? then None
    else
      var lines := [
        JournalLine(1, expense.value, total.value, 0,
                    RecommendedValue(recommendations, TaxCode), RecommendedValue(recommendations, CostCentre)),
        JournalLine(2, PAYABLE_ACCOUNT, 0, total.value + policy.creditAdjustment, None, None)];
      var debits, credits := SumDebits(lines), SumCredits(lines);
      Some(Journal(currency.value, debits, credits, debits == credits, lines))
  }

  function Lookup<T>(m: map<string, T>, key: string): Option<T> {
    if key in m then Some(m[key]) else None
  }

  /** The journal for given effective values; prior decisions have no part in it. */
  function JournalFor(policy: Policy, firmId: Id, clientId: Id, values: map<string, EffectiveValue>)
    : Option<Journal>
  {
    if !IsSupported(FieldText(values, DOCUMENT_TYPE)) ||
       MonetaryFindings(policy.lexicon, values, MONEY_CHECKS) != [] ||
       ReadCurrency(values).MalformedCurrency?
    then None
    else
      var entries := ScopedDirectory(policy.directory, firmId, clientId);
      var matched := MatchedEntry(entries, MatchSupplier(entries, values));
      ProposedJournal(policy, Recommendations(matched),
        Lookup(MonetaryValues(policy.lexicon, values, MONEY_CHECKS), INVOICE_TOTAL),
        if ReadCurrency(values).CurrencyCode? then Some(ReadCurrency(values).code) else None)
  }

  // ----- the decision

  /** The findings that depend on the effective values alone. */
  function ExtractionFindings(policy: Policy, values: map<string, EffectiveValue>): seq<Finding> {
    var documentType := FieldText(values, DOCUMENT_TYPE);
    RequiredFindings(values, RequiredFields(documentType)) +
    (if documentType.Some? && !IsSupported(documentType)
     then [Finding(UnsupportedDocumentType, Warning, Some(DOCUMENT_TYPE))] else []) +
    LowConfidenceFindings(values, RelevantFields(documentType)) +
    (if IsSupported(documentType)
     then MonetaryFindings(policy.lexicon, values, MONEY_CHECKS) + CurrencyFindings(values) +
          ArithmeticFindings(MonetaryValues(policy.lexicon, values, MONEY_CHECKS))
     else [])
  }

  function SupplierFindings(values: map<string, EffectiveValue>, supplierMatch: SupplierMatch): seq<Finding> {
    if FieldText(values, SUPPLIER_NAME).Some? && supplierMatch.status == NoMatch
    then [Finding(NewSupplier, Warning, Some(SUPPLIER_NAME))] else []
  }

  function DuplicateFindings(duplicates: seq<DuplicateCandidate>): seq<Finding> {
    if duplicates != [] then [Finding(PossibleDuplicate, Warning, None)] else []
  }

  function MappingFindings(values: map<string, EffectiveValue>, matched: Option<SupplierEntry>): seq<Finding> {
    if matched.None? && FieldText(values, SUPPLIER_NAME).Some?
    then [Finding(UnknownAccountMapping, Warning, Some(SUPPLIER_NAME))] else []
  }

  function JournalFindings(journal: Option<Journal>): seq<Finding> {
    if journal.Some? && !journal.value.isBalanced then [Finding(UnbalancedJournal, Error, None)] else []
  }

  function Decide(policy: Policy, input: EngineInput): Decision {
    var extraction := ExtractionFindings(policy, input.values);
    if !IsSupported(FieldText(input.values, DOCUMENT_TYPE)) then
      Decision(extraction, SupplierMatch(NoMatch, []), [], [], None)
    else
      var entries := ScopedDirectory(policy.directory, input.firmId, input.clientId);
      var supplierMatch := MatchSupplier(entries, input.values);
      var matched := MatchedEntry(entries, supplierMatch);
      var duplicates := DuplicateCandidates(input, input.priors);
      var journal := JournalFor(policy, input.firmId, input.clientId, input.values);
      Decision(
        extraction + SupplierFindings(input.values, supplierMatch) + DuplicateFindings(duplicates) +
        MappingFindings(input.values, matched) + [Finding(TaxReviewRequired, Warning, None)] +
        JournalFindings(journal),
        supplierMatch, duplicates, Recommendations(matched), journal)
  }
}
