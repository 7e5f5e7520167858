/** A run in which an approved duplicate escapes senior review: fifty other decisions of the
    client lie between the two invoices, so the detector never sees the first. */
module WindowGap {
  import opened Prelude
  import opened Text
  import opened EffectiveValues
  import opened Engine
  import opened ReviewPolicy
  import opened Identity
  import opened Store
  import opened EvidenceCalls
  import opened ReviewCalls
  import opened EvidenceInvariant
  import opened ReviewInvariant
  import opened ReconciliationInvariant
  import opened System
  import opened Reachability
  import opened ApprovedEvidence
  import opened DuplicateControl
  import opened DecisionCommits

  // ----- one supplier, one accountant, two equal invoices

  const SUPPLIER := SupplierEntry("r", "a", [], "g", "c", "t", None, None, None)

  function ParseOne(text: string): Option<Decimal> { if text == "1" then Some(Finite(1, 0)) else None }

  const INVOICE_DAY := "2024-01-05"

  /** The proleptic Gregorian ordinal of the invoice's day. */
  const DAY_NUMBER := 738_890

  function ParseDay(text: string): Option<int> { if text == INVOICE_DAY then Some(DAY_NUMBER) else None }

  predicate AcceptsAll(raw: string, normalized: Option<string>, valueType: ValueType) { true }

  const GAP_LEXICON := Lexicon(ParseOne, ParseDay, AcceptsAll)

  const GAP_POLICY := Policy(GAP_LEXICON, [SUPPLIER], 0)

  const CLERK := Principal(7, 0, 7, Accountant, PermissionsForRole(Accountant))

  const GAP_CONTEXT :=
    Context(Directory(map[7 := Membership(7, 0, Accountant, true)], {(7, 0, 0)}), CLERK)

  function Digest(hex: char): Sha256 { seq(64, _ => hex) }

  function Observed(path: string, valueType: ValueType, value: string): ExtractedField {
    ExtractedField(path, valueType, value, None, None)
  }

  const INVOICE := [
    Observed(DOCUMENT_TYPE, TextValue, PURCHASE_INVOICE), Observed(SUPPLIER_NAME, TextValue, "a"),
    Observed(INVOICE_NUMBER, TextValue, "1"), Observed(INVOICE_DATE, DateValue, INVOICE_DAY),
    Observed(INVOICE_CURRENCY, TextValue, "usd"), Observed(INVOICE_TOTAL, DecimalValue, "1")]

  function ByClerk(call: Call): Request { Request(GAP_CONTEXT, call) }

  function Record(documentId: Id, sha: Sha256, fields: seq<ExtractedField>): Request {
    ByClerk(RecordExtraction(0, documentId, sha, true, fields))
  }

  function DecideOn(runId: Id): Request { ByClerk(StartDecision(RunPath(0, runId, runId), false)) }

  function Review(runId: Id, decisionId: Id): Request {
    ByClerk(CreateTask(DecisionPath(0, runId, runId, decisionId), None))
  }

  function Sign(runId: Id, decisionId: Id, taskId: Id): Request {
    ByClerk(Approve(TaskPath(0, runId, runId, decisionId, taskId), None))
  }

  lemma Spelled()
    ensures Strip(" a") == "a" && Strip("a") == "a" && Strip("p") == "p" && Strip("v") == "v"
    ensures Strip("b") == "b" && Strip("c") == "c" && Strip("d") == "d"
    ensures Strip("USD") == "USD" && Upper("USD") == "USD"
  {
    assert StripLeft(" a") == "a" && StripRight("USD") == "USD";
  }

  // ----- the invoice's values

  lemma PathsDiffer()
    ensures UniquePaths(INVOICE)
  {
    assert DOCUMENT_TYPE[0] == 'd' && SUPPLIER_NAME[0] == 's';
    assert INVOICE_NUMBER[8] == 'n' && INVOICE_DATE[8] == 'd' && INVOICE_CURRENCY[8] == 'c' && INVOICE_TOTAL[8] == 't';
  }

  lemma InvoiceText(i: nat)
    requires i < |INVOICE|
    ensures var values := Effective(INVOICE, []);
      FieldText(values, INVOICE[i].path) == Some(INVOICE[i].rawValue) &&
      !IsLowConfidence(values, INVOICE[i].path)
  {
    PathsDiffer();
    EffectiveAt(INVOICE, [], i);
    var text := INVOICE[i].rawValue;
    assert text in {PURCHASE_INVOICE, "a", "1", INVOICE_DAY, "usd"};
    assert text[0] in {'p', 'a', '1', '2', 'u'} && text[|text| - 1] in {'e', 'a', '1', '5', 'd'};
    assert StripLeft(text) == text && StripRight(text) == text;
  }

  lemma {:induction false} EffectivePaths(fields: seq<ExtractedField>, path: string)
    requires forall i | 0 <= i < |fields| :: fields[i].path != path
    ensures path !in Effective(fields, [])
  {
    if fields != [] {
      EffectivePaths(fields[..|fields| - 1], path);
    }
  }

  lemma NoOtherFields()
    ensures INVOICE_SUBTOTAL !in Effective(INVOICE, []) && INVOICE_TAX !in Effective(INVOICE, [])
  {
    assert INVOICE_SUBTOTAL[8] == 's' && INVOICE_TAX[8] == 't' && |INVOICE_TAX| == 11 && |INVOICE_TOTAL| == 13;
    assert DOCUMENT_TYPE[0] == 'd' && SUPPLIER_NAME[0] == 's';
    assert INVOICE_SUBTOTAL[0] == 'i' && INVOICE_TAX[0] == 'i';
    assert INVOICE_NUMBER[8] == 'n' && INVOICE_DATE[8] == 'd' && INVOICE_CURRENCY[8] == 'c' && INVOICE_TOTAL[8] == 't';
    EffectivePaths(INVOICE, INVOICE_SUBTOTAL);
    EffectivePaths(INVOICE, INVOICE_TAX);
  }

  lemma InvoiceReads(values: map<string, EffectiveValue>)
    requires values == Effective(INVOICE, [])
    ensures AllPresent(values, INVOICE_FIELDS)
    ensures FieldText(values, DOCUMENT_TYPE) == Some(PURCHASE_INVOICE) && FieldText(values, SUPPLIER_NAME) == Some("a")
    ensures FieldText(values, INVOICE_CURRENCY) == Some("usd") && FieldText(values, INVOICE_TOTAL) == Some("1")
    ensures forall i | 0 <= i < |INVOICE| :: !IsLowConfidence(values, INVOICE[i].path)
  {
    hide FieldText, IsLowConfidence, Effective;
    forall i | 0 <= i < |INVOICE|
      ensures FieldText(values, INVOICE[i].path) == Some(INVOICE[i].rawValue)
      ensures !IsLowConfidence(values, INVOICE[i].path)
    {
      InvoiceText(i);
    }
    assert INVOICE[0].path == DOCUMENT_TYPE && INVOICE[1].path == SUPPLIER_NAME;
    assert INVOICE[4].path == INVOICE_CURRENCY && INVOICE[5].path == INVOICE_TOTAL;
    assert forall i | 0 <= i < |INVOICE_FIELDS| :: INVOICE_FIELDS[i] == INVOICE[i].path;
  }

  /** The invoice passes every control and nothing in it is of low confidence. */
  lemma InvoicePasses(input: EngineInput)
    requires input.values == Effective(INVOICE, [])
    ensures PassesControls(GAP_POLICY, input) && !HasLowConfidence(input.values)
  {
    hide FieldText, IsLowConfidence, Effective, KnownSupplier, ReadableMoney, AllPresent, HasLowConfidence, INVOICE;
    InvoiceReads(input.values);
    NoOtherFields();
    InvoiceKnown(input);
    InvoiceMoney(input.values);
    InvoiceConfident(input.values);
  }

  lemma InvoiceConfident(values: map<string, EffectiveValue>)
    requires INVOICE_SUBTOTAL !in values && INVOICE_TAX !in values
    requires forall i | 0 <= i < |INVOICE| :: !IsLowConfidence(values, INVOICE[i].path)
    ensures !HasLowConfidence(values)
  {
    var relevant := RelevantFields(Some(PURCHASE_INVOICE));
    forall i | 0 <= i < |relevant|
      ensures !IsLowConfidence(values, relevant[i])
    {
      assert i < 6 ==> relevant[i] == INVOICE[i].path;
    }
  }

  lemma InvoiceKnown(input: EngineInput)
    requires FieldText(input.values, SUPPLIER_NAME) == Some("a")
    ensures KnownSupplier(GAP_POLICY, input)
  {
    hide FieldText, NormalizeName;
    var entries := ScopedDirectory([SUPPLIER], input.firmId, input.clientId);
    assert ScopedDirectory([SUPPLIER][1..], input.firmId, input.clientId) == [];
    assert entries == [SUPPLIER];
    assert EntryNames(SUPPLIER)[0] == "a";
    assert MatchesExactly(entries[0], NormalizeName("a"));
  }

  lemma InvoiceMoney(values: map<string, EffectiveValue>)
    requires FieldText(values, INVOICE_TOTAL) == Some("1")
    requires INVOICE_SUBTOTAL !in values && INVOICE_TAX !in values
    ensures ReadableMoney(GAP_POLICY, values)
  {
    assert Pow10(4) == 10_000;
  }

  // ----- the run

  /** The state once n filler decisions follow the first invoice's. */
  ghost predicate Filled(s: Store, n: nat) {
    |s.extractions| == 3 && |s.decisions| == 1 + n && s.corrections == [] &&
    s.tasks == [] && s.comments == [] && s.outcomes == [] &&
    s.extractions[0] == ExtractionRun(0, 0, 0, Digest('a'), true, INVOICE) &&
    s.extractions[1] == ExtractionRun(0, 0, 1, Digest('b'), true, INVOICE) &&
    s.extractions[2] == ExtractionRun(0, 0, 2, Digest('c'), true, []) &&
    s.decisions[0].extractionRunId == 0 && IsSucceededFor(s.decisions[0], 0, 0) &&
    forall i | 1 <= i < |s.decisions| :: 
      s.decisions[i].extractionRunId == 2 && s.decisions[i].sourceSha == Digest('c') &&
      IsSucceededFor(s.decisions[i], 0, 0)
  }

  lemma RecordStep(requests: seq<Request>, documentId: Id, sha: Sha256, fields: seq<ExtractedField>)
    requires UniquePaths(fields)
    ensures var s := Reached(GAP_POLICY, requests);
      Reached(GAP_POLICY, requests + [Record(documentId, sha, fields)]) ==
        s.(clock := s.clock + 1, extractions := s.extractions + [ExtractionRun(0, 0, documentId, sha, true, fields)])
  {
    Accepted(requests, Record(documentId, sha, fields));
  }

  lemma RunSnoc(requests: seq<Request>, r: Request)
    ensures Reached(GAP_POLICY, requests + [r]) == Handle(GAP_POLICY, Reached(GAP_POLICY, requests), r).next
  {
    hide Handle;
    assert (requests + [r])[..|requests|] == requests;
  }

  lemma DecideStep(requests: seq<Request>, runId: Id)
    requires var s := Reached(GAP_POLICY, requests);
      runId < |s.extractions| && s.extractions[runId].succeeded && IsExtractionFor(s, 0, 0, runId, runId)
    ensures Reached(GAP_POLICY, requests + [DecideOn(runId)]) ==
      StartDecisionNext(GAP_POLICY, Reached(GAP_POLICY, requests), RunPath(0, runId, runId), false)
  {
    hide Decide, EngineInputNow, OutputPersists;
    var s := Reached(GAP_POLICY, requests);
    ReachedKeeps(GAP_POLICY, requests);
    PriorsDistinct(s, runId);
    OutputStorable(GAP_POLICY, EngineInputNow(s, runId));
    DecisionCommitsExactly(GAP_POLICY, s, DecideOn(runId));
    RunSnoc(requests, DecideOn(runId));
  }

  lemma Start() returns (requests: seq<Request>)
    ensures Filled(Reached(GAP_POLICY, requests), 0)
  {
    hide Decide, EngineInputNow, Inv;
    PathsDiffer();
    RecordStep([], 0, Digest('a'), INVOICE);
    RecordStep([Record(0, Digest('a'), INVOICE)], 1, Digest('b'), INVOICE);
    requests := [Record(0, Digest('a'), INVOICE)] + [Record(1, Digest('b'), INVOICE)];
    RecordStep(requests, 2, Digest('c'), []);
    requests := requests + [Record(2, Digest('c'), [])];
    DecideStep(requests, 0);
    requests := requests + [DecideOn(0)];
  }

  lemma {:induction false} Fill(n: nat) returns (requests: seq<Request>)
    ensures Filled(Reached(GAP_POLICY, requests), n)
  {
    hide Decide, EngineInputNow, Run, GAP_POLICY, INVOICE;
    if n == 0 {
      requests := Start();
    } else {
      var front := Fill(n - 1);
      DecideStep(front, 2);
      requests := front + [DecideOn(2)];
    }
  }

  lemma {:induction false} AllSucceeded(decisions: seq<DecisionRun>, n: nat)
    requires n <= |decisions|
    requires forall i | n <= i < |decisions| :: IsSucceededFor(decisions[i], 0, 0)
    ensures SucceededFrom(decisions, n, 0, 0) == |decisions| - n
    decreases |decisions|
  {
    if n < |decisions| {
      AllSucceeded(decisions[..|decisions| - 1], n);
    }
  }

  /** Behind fifty fillers, the second invoice's decision sees no duplicate. */
  lemma GapHides(s: Store)
    requires Filled(s, 50)
    ensures !HasDuplicate(EngineInputNow(s, 1))
  {
    hide Effective, INVOICE, PriorSnapshotsNow, RecentRuns, AgreementCount;
    assert Digest('b')[0] == 'b' && Digest('c')[0] == 'c';
    var input := EngineInputNow(s, 1);
    forall k | 0 <= k < |input.priors|
      ensures !IsDuplicateOf(input, input.priors[k])
    {
      var i := input.priors[k].decisionRunId;
      PriorShown(s.extractions, s.corrections, s.decisions, 0, 0, i);
      AllSucceeded(s.decisions, 1);
      assert input.priors[k] in input.priors;
      assert i != 0;
      assert input.priors[k] == SnapshotNow(s.extractions, s.corrections, s.decisions, i);
      assert s.decisions[i].extractionRunId == 2;
      NothingAgrees(input.values, input.priors[k].values);
    }
  }

  lemma NothingAgrees(values: map<string, EffectiveValue>, others: map<string, EffectiveValue>)
    requires others == Effective([], CorrectionsFor([], 2))
    ensures AgreementCount(values, others) == 0
  {
  }

  // ----- both invoices are ordinary, and an accountant approves them

  /** A decision on an invoice that sees no duplicate classifies as ordinary. */
  lemma InvoiceOrdinary(input: EngineInput)
    requires input.values == Effective(INVOICE, []) && !HasDuplicate(input)
    ensures var d := Decide(GAP_POLICY, input);
      ClassifyReviewRisk(d.findings, d.journal) == Ordinary && d.journal.Some? && d.journal.value.isBalanced
  {
    hide Decide, Effective, HasDuplicate, INVOICE, GAP_POLICY;
    InvoicePasses(input);
    Verdict(GAP_POLICY, input);
  }

  ghost predicate IsOrdinary(d: DecisionRun) {
    d.Succeeded() && ClassifyReviewRisk(d.Findings(), d.Journal()) == Ordinary && d.Journal().Some? &&
    d.Journal().value.isBalanced
  }

  /** Both invoices are decided, as ordinary, with fifty decisions between them. */
  ghost predicate Decided(s: Store) {
    |s.extractions| == 3 && |s.decisions| == 52 && s.corrections == [] &&
    s.extractions[0] == ExtractionRun(0, 0, 0, Digest('a'), true, INVOICE) &&
    s.extractions[1] == ExtractionRun(0, 0, 1, Digest('b'), true, INVOICE) &&
    IsDecisionFor(s, 0, 0, 0, 0, 0) && IsOrdinary(s.decisions[0]) && s.decisions[0].sourceSha == Digest('a') &&
    IsDecisionFor(s, 0, 0, 1, 1, 51) && IsOrdinary(s.decisions[51]) && s.decisions[51].sourceSha == Digest('b')
  }

  lemma FirstOrdinary(s: Store)
    requires EvidenceInv(GAP_POLICY, s) && Filled(s, 50)
    ensures IsOrdinary(s.decisions[0]) && s.decisions[0].documentId == 0 && s.decisions[0].sourceSha == Digest('a')
  {
    hide Decide, INVOICE, GAP_POLICY, IsDuplicateOf;
    DecisionReproducible(GAP_POLICY, s, 0);
    assert ValidDecision(s.extractions, s.clock, s.decisions[0]);
    var input := EngineInputAt(s.extractions, s.corrections, s.decisions, 0);
    assert s.decisions[..0] == [];
    assert input.priors == [];
    InvoiceOrdinary(input);
  }

  lemma DecideBoth() returns (requests: seq<Request>)
    ensures var s := Reached(GAP_POLICY, requests);
      Decided(s) && s.tasks == [] && s.comments == [] && s.outcomes == []
  {
    hide Run, Decide, INVOICE, GAP_POLICY, EngineInputNow, EvidenceInv, ReviewInv, ReconciliationInv, IsOrdinary;
    var front := Fill(50);
    var s := Reached(GAP_POLICY, front);
    ReachedKeeps(GAP_POLICY, front);
    FirstOrdinary(s);
    DecideStep(front, 1);
    requests := front + [DecideOn(1)];
    SecondOrdinary(s);
  }

  lemma SecondOrdinary(s: Store)
    requires Filled(s, 50)
    ensures IsOrdinary(StartDecisionNext(GAP_POLICY, s, RunPath(0, 1, 1), false).decisions[51])
  {
    hide Decide, INVOICE, GAP_POLICY, PriorSnapshotsNow, HasDuplicate;
    GapHides(s);
    assert CorrectionsFor([], 1) == [];
    InvoiceOrdinary(EngineInputNow(s, 1));
  }

  lemma ReviewStep(requests: seq<Request>, runId: Id, decisionId: Id)
    requires var s := Reached(GAP_POLICY, requests);
      IsDecisionFor(s, 0, 0, runId, runId, decisionId) && IsOrdinary(s.decisions[decisionId]) &&
      !HasTaskFor(s.tasks, decisionId)
    ensures var s, next := Reached(GAP_POLICY, requests), Reached(GAP_POLICY, requests + [Review(runId, decisionId)]);
      next == s.(clock := s.clock + 1, tasks := s.tasks +
        [ReviewTask(0, 0, runId, runId, decisionId, 7, 7, Open, Ordinary, NotEscalated, None, s.clock + 1)])
  {
    hide Run, ClassifyReviewRisk, INVOICE, GAP_POLICY;
    Accepted(requests, Review(runId, decisionId));
  }

  lemma SignStep(requests: seq<Request>, runId: Id, decisionId: Id, taskId: Id)
    requires var s := Reached(GAP_POLICY, requests);
      && Decided(s) && IsExtractionFor(s, 0, 0, runId, runId) && IsDecisionFor(s, 0, 0, runId, runId, decisionId)
      && IsOrdinary(s.decisions[decisionId]) && IsTaskFor(s, 0, TaskPath(0, runId, runId, decisionId, taskId))
      && s.tasks[taskId].owner == 7 && s.tasks[taskId].status == Open && s.tasks[taskId].risk == Ordinary
      && OutcomeOf(s.outcomes, taskId).None?
    ensures Reached(GAP_POLICY, requests + [Sign(runId, decisionId, taskId)]) ==
      ApproveNext(Reached(GAP_POLICY, requests), GAP_CONTEXT, TaskPath(0, runId, runId, decisionId, taskId), None)
  {
    var s, r := Reached(GAP_POLICY, requests), Sign(runId, decisionId, taskId);
    SignAllowed(s, runId, decisionId, taskId);
    hide Reached, ApproveGuard, ApproveNext, GAP_POLICY, Decided, IsOrdinary, IsTaskFor, IsDecisionFor,
      IsExtractionFor, OutcomeOf;
    assert Guard(GAP_POLICY, s, r) == ApproveGuard(s, r.ctx, r.call.path);
    Accepted(requests, r);
  }

  /** A call that its guards let through takes the run one step further. */
  lemma Accepted(requests: seq<Request>, r: Request)
    requires Guard(GAP_POLICY, Reached(GAP_POLICY, requests), r).None?
    requires !r.call.Import? && !r.call.StartDecision?
    ensures Reached(GAP_POLICY, requests + [r]) == Next(GAP_POLICY, Reached(GAP_POLICY, requests), r)
  {
    hide Run, Guard, Next, Inv, GAP_POLICY, Handle;
    ReachedKeeps(GAP_POLICY, requests);
    GuardsSuffice(GAP_POLICY, Reached(GAP_POLICY, requests), r);
    RunSnoc(requests, r);
  }

  lemma SignAllowed(s: Store, runId: Id, decisionId: Id, taskId: Id)
    requires s.corrections == [] && IsExtractionFor(s, 0, 0, runId, runId)
    requires IsDecisionFor(s, 0, 0, runId, runId, decisionId) && IsOrdinary(s.decisions[decisionId])
    requires IsTaskFor(s, 0, TaskPath(0, runId, runId, decisionId, taskId)) && s.tasks[taskId].owner == 7
    requires s.tasks[taskId].status == Open && s.tasks[taskId].risk == Ordinary
    requires OutcomeOf(s.outcomes, taskId).None?
    ensures ApproveGuard(s, GAP_CONTEXT, TaskPath(0, runId, runId, decisionId, taskId)).None?
  {
    hide ClassifyReviewRisk, OutcomeOf;
    assert !IsStale(s.corrections, runId, s.decisions[decisionId].createdAt);
  }

  /** Two approved outcomes on different documents, equal in every signal field; the second is
      ordinary and was approved by an accountant without any escalation. The premise that fewer
      than fifty decisions lie between the two cannot be dropped from DuplicateNeedsSenior. */
  lemma DuplicateEscapes() returns (requests: seq<Request>)
    ensures var s := Reached(GAP_POLICY, requests);
      && DecidedInOrder(s, 0, 1) && Resemble(s, 0, 1)
      && !ApprovedBySenior(s, 1) && s.outcomes[1].actorRole == Accountant
      && !InWindow(s.decisions, s.outcomes[0].decisionRunId, s.outcomes[1].decisionRunId)
  {
    hide Run, ClassifyReviewRisk, INVOICE, GAP_POLICY, IsOrdinary, ReviewInv, EvidenceInv, ReconciliationInv,
      InWindow, Similar;
    var front := DecideBoth();
    ReviewStep(front, 0, 0);
    var second := front + [Review(0, 0)];
    ReviewStep(second, 1, 51);
    var third := second + [Review(1, 51)];
    SignStep(third, 0, 0, 0);
    var fourth := third + [Sign(0, 0, 0)];
    SignStep(fourth, 1, 51, 1);
    requests := fourth + [Sign(1, 51, 1)];
    var s := Reached(GAP_POLICY, requests);
    ReachedKeeps(GAP_POLICY, requests);
    assert CorrectionsFor([], 0) == [] && CorrectionsFor([], 1) == [];
    EqualResemble(s);
    if InWindow(s.decisions, 0, 51) {
      DuplicateNeedsSenior(GAP_POLICY, s, 0, 1);
    }
  }

  lemma EqualResemble(s: Store)
    requires Decided(s) && DecidedInOrder(s, 0, 1)
    requires s.outcomes[0].extractionRunId == 0 && s.outcomes[1].extractionRunId == 1
    requires s.outcomes[0].documentId == 0 && s.outcomes[1].documentId == 1
    ensures Resemble(s, 0, 1)
  {
    hide FieldText, Effective;
    var values := Effective(INVOICE, []);
    assert CorrectionsFor([], 0) == [] && CorrectionsFor([], 1) == [];
    forall i | 0 <= i < |INVOICE|
      ensures FieldText(values, INVOICE[i].path).Some?
    {
      InvoiceText(i);
    }
    assert FieldText(values, INVOICE[1].path).Some? && FieldText(values, INVOICE[2].path).Some?;
    assert FieldText(values, INVOICE[3].path).Some? && FieldText(values, INVOICE[4].path).Some?;
    assert AgreementCount(values, values) >= 4;
  }
}
