/** One invoice from extraction to a matched bank transaction: the guards along the way can all
    be met, so the theorems about approvals and matches are not about nothing. */
module Walkthrough {
  import opened Prelude
  import opened Text
  import opened EffectiveValues
  import opened Engine
  import opened ReviewPolicy
  import opened Matching
  import opened Store
  import opened Targets
  import opened EvidenceCalls
  import opened ReviewCalls
  import opened ReconciliationCalls
  import opened ReconciliationInvariant
  import opened System
  import opened Reachability
  import opened ApprovedEvidence
  import opened Settlements
  import opened Imports
  import opened WindowGap

  const PAYMENT := BankTransaction(0, 0, "a", DAY_NUMBER, None, Debit, 10_000, "usd", "d", None, None)

  const STATEMENT := ImportBatch.ImportBatch(0, 0, "p", "v", "b", "c", DAY_NUMBER, DAY_NUMBER, [PAYMENT])

  const REVIEW := ReviewPath(0, 0, 0)

  // ----- the invoice is approved

  /** One approved outcome on the invoice, and nothing on the bank's side yet. */
  ghost predicate Invoiced(s: Store) {
    |s.extractions| == 1 && s.extractions[0].fields == INVOICE && s.corrections == [] && |s.outcomes| == 1 &&
    IsApproved(s, 0) && s.outcomes[0].firmId == 0 && s.outcomes[0].clientId == 0 &&
    s.outcomes[0].extractionRunId == 0 && s.batches == [] && s.transactions == [] && s.matchRuns == [] &&
    s.reviews == [] && s.actions == [] && s.settlements == []
  }

  lemma DecideInvoice() returns (requests: seq<Request>)
    ensures var s := Reached(GAP_POLICY, requests);
      && s == EMPTY_STORE.(clock := 2, extractions := s.extractions, decisions := s.decisions)
      && s.extractions == [ExtractionRun(0, 0, 0, Digest('a'), true, INVOICE)] && |s.decisions| == 1
      && IsDecisionFor(s, 0, 0, 0, 0, 0) && IsOrdinary(s.decisions[0])
  {
    hide Run, Decide, INVOICE, GAP_POLICY, PriorSnapshotsNow, EffectiveNow, IsOrdinary;
    PathsDiffer();
    RecordStep([], 0, Digest('a'), INVOICE);
    requests := [] + [Record(0, Digest('a'), INVOICE)];
    var s := Reached(GAP_POLICY, requests);
    assert Reached(GAP_POLICY, []) == EMPTY_STORE by { Nothing(); }
    DecideStep(requests, 0);
    FirstDecision(s);
    requests := requests + [DecideOn(0)];
  }

  lemma Nothing()
    ensures Reached(GAP_POLICY, []) == EMPTY_STORE
  {
  }

  lemma FirstDecision(s: Store)
    requires s.extractions == [ExtractionRun(0, 0, 0, Digest('a'), true, INVOICE)]
    requires s.corrections == [] && s.decisions == []
    ensures IsOrdinary(StartDecisionNext(GAP_POLICY, s, RunPath(0, 0, 0), false).decisions[0])
  {
    hide Decide, INVOICE, GAP_POLICY, IsDuplicateOf;
    var input := EngineInputNow(s, 0);
    assert CorrectionsFor([], 0) == [] && input.priors == [];
    InvoiceOrdinary(input);
  }

  lemma ApproveInvoice() returns (requests: seq<Request>)
    ensures Invoiced(Reached(GAP_POLICY, requests))
  {
    hide Run, Decide, INVOICE, GAP_POLICY, IsOrdinary, ApproveGuard;
    var front := DecideInvoice();
    ReviewStep(front, 0, 0);
    requests := front + [Review(0, 0)];
    var s := Reached(GAP_POLICY, requests);
    SignAllowed(s, 0, 0, 0);
    assert Guard(GAP_POLICY, s, Sign(0, 0, 0)) == ApproveGuard(s, GAP_CONTEXT, TaskPath(0, 0, 0, 0, 0));
    Accepted(requests, Sign(0, 0, 0));
    requests := requests + [Sign(0, 0, 0)];
  }

  // ----- the payment is imported and the invoice offered

  lemma StatementIsValid()
    ensures ValidBatch(STATEMENT) && DistinctStripped(STATEMENT.transactions)
  {
    Spelled();
    assert StripLeft("usd") == "usd" && StripRight("usd") == "usd";
    hide Strip;
  }

  lemma ImportStep(requests: seq<Request>)
    requires Invoiced(Reached(GAP_POLICY, requests))
    ensures Reached(GAP_POLICY, requests + [ByClerk(Import(STATEMENT))]) ==
      ImportNext(Reached(GAP_POLICY, requests), STATEMENT)
  {
    hide Run, Inv, ValidBatch, BatchRow, Handle, GAP_POLICY, IsApproved;
    var s := Reached(GAP_POLICY, requests);
    StatementIsValid();
    ReachedKeeps(GAP_POLICY, requests);
    ImportCommitsExactly(GAP_POLICY, s, GAP_CONTEXT, STATEMENT);
    RunSnoc(requests, ByClerk(Import(STATEMENT)));
  }

  /** The approved invoice projects to a target that passes every gate for the payment. */
  lemma PaymentFits(s: Store, t: BankTransaction)
    requires Inv(GAP_POLICY, s) && |s.outcomes| == 1 && IsApproved(s, 0)
    requires s.outcomes[0].firmId == 0 && s.outcomes[0].clientId == 0 && s.outcomes[0].extractionRunId == 0
    requires |s.extractions| == 1 && s.extractions[0].fields == INVOICE && s.corrections == []
    requires t.firmId == 0 && t.clientId == 0 && t.amount == 10_000 && t.direction == Debit
    requires t.bookingDate == DAY_NUMBER && NormalizedCurrency(t.currency) == "USD"
    ensures var target := ProjectNow(GAP_POLICY.lexicon, s, 0);
      && EffectiveDate(GAP_POLICY.lexicon, ValuesUnder(s, 0)).Some?
      && target.Some? && PassesGates(7, t, target.value)
  {
    assert CorrectionsFor([], 0) == [];
    var values := ValuesUnder(s, 0);
    InvoiceDated(values);
    InvoiceTotals(values);
    ApprovedJournalIsCurrent(GAP_POLICY, s, 0);
    JournalExact(GAP_POLICY, EngineInput(0, 0, 0, "", values, []));
    ProjectionComplete(GAP_POLICY, s, 0);
    hide Inv, ReadMoney, ReadCurrency, KnownSupplier, JournalFor, EffectiveDate, ProjectNow, ValuesUnder, Strip, Upper,
      GAP_POLICY;
    ProjectionFields(GAP_POLICY.lexicon, s, 0);
  }

  lemma InvoiceDated(values: map<string, EffectiveValue>)
    requires values == Effective(INVOICE, [])
    ensures EffectiveDate(GAP_POLICY.lexicon, values) == Some(DAY_NUMBER)
  {
    hide FieldText, Effective;
    InvoiceText(3);
    assert INVOICE[3].path == INVOICE_DATE;
  }

  lemma InvoiceTotals(values: map<string, EffectiveValue>)
    requires values == Effective(INVOICE, [])
    ensures ReadMoney(GAP_POLICY.lexicon, values, INVOICE_TOTAL, true) == Amount(10_000)
    ensures ReadCurrency(values) == CurrencyCode("USD")
  {
    hide FieldText, Effective, INVOICE;
    InvoiceReads(values);
    assert Pow10(4) == 10_000;
    assert Upper("usd") == "USD";
  }

  /** The payment is stored, and the match run of it offers the invoice. */
  ghost predicate PaymentOffered(s: Store) {
    |s.transactions| == 1 && s.transactions[0].value.firmId == 0 && s.transactions[0].value.clientId == 0 &&
    |s.matchRuns| == 1 && IsMatchRunFor(s, 0, 0, 0, 0) && HasCandidate(s.matchRuns[0].result.candidates, 0) &&
    s.reviews == [] && s.actions == [] && s.settlements == []
  }

  /** The payment is stored, and the invoice's target passes every gate for it. */
  ghost predicate PaymentStored(s: Store) {
    |s.transactions| == 1 && s.transactions[0].value.firmId == 0 && s.transactions[0].value.clientId == 0 &&
    s.matchRuns == [] && s.reviews == [] && s.actions == [] && s.settlements == [] && IsApproved(s, 0) &&
    EffectiveDate(GAP_POLICY.lexicon, ValuesUnder(s, 0)).Some? &&
    var target := ProjectNow(GAP_POLICY.lexicon, s, 0);
    target.Some? && PassesGates(7, s.transactions[0].value, target.value)
  }

  lemma ImportPayment() returns (requests: seq<Request>)
    ensures PaymentStored(Reached(GAP_POLICY, requests))
  {
    hide Run, Inv, GAP_POLICY, INVOICE, ProjectNow, EffectiveDate, PassesGates, ValuesUnder;
    var front := ApproveInvoice();
    ImportStep(front);
    requests := front + [ByClerk(Import(STATEMENT))];
    var s := Reached(GAP_POLICY, requests);
    ReachedKeeps(GAP_POLICY, requests);
    StoredPayment(Reached(GAP_POLICY, front));
    PaymentFits(s, s.transactions[0].value);
  }

  lemma OfferInvoice() returns (requests: seq<Request>)
    ensures PaymentOffered(Reached(GAP_POLICY, requests))
  {
    hide Run, Inv, GAP_POLICY, MatchTargets, ApprovedTargets, HasCandidate, ProjectNow, EffectiveDate, PassesGates,
      ValuesUnder;
    requests := ImportPayment();
    var s := Reached(GAP_POLICY, requests);
    ReachedKeeps(GAP_POLICY, requests);
    var generate := ByClerk(GenerateMatch(0, 0));
    GeneratedExactly(GAP_POLICY, s, GAP_CONTEXT, 0, 0, 0);
    Accepted(requests, generate);
    requests := requests + [generate];
  }

  lemma StoredPayment(s: Store)
    requires s.batches == [] && s.transactions == []
    ensures var next := ImportNext(s, STATEMENT);
      && next == s.(clock := next.clock, batches := next.batches, transactions := next.transactions)
      && |next.transactions| == 1
      && next.transactions[0].value == PAYMENT.(currency := "USD")
  {
    Spelled();
    assert StripLeft("usd") == "usd" && StripRight("usd") == "usd" && Upper("usd") == "USD";
    assert STATEMENT.transactions[..1] == STATEMENT.transactions;
    hide Strip, Upper;
    RowsAre(STATEMENT, 0, 1, s.clock + 1);
  }

  // ----- the match is approved

  /** A run of calls that ends with the payment matched to the invoice. */
  lemma MatchReachable() returns (requests: seq<Request>)
    ensures var s := Reached(GAP_POLICY, requests);
      IsMatched(s, 0) && s.settlements[0].matched == Some(0) && s.settlements[0].transactionId == 0
  {
    hide Run, Inv, GAP_POLICY, INVOICE, HasCandidate;
    requests := OfferInvoice();
    Accepted(requests, ByClerk(CreateReview(0, 0, 0)));
    requests := requests + [ByClerk(CreateReview(0, 0, 0))];
    Accepted(requests, ByClerk(Select(REVIEW, 0)));
    requests := requests + [ByClerk(Select(REVIEW, 0))];
    Accepted(requests, ByClerk(ApproveMatch(REVIEW, None)));
    requests := requests + [ByClerk(ApproveMatch(REVIEW, None))];
  }
}
