/** What extraction, correction, decision and import calls answer in a reachable state, in terms
    of the request and the rows. */
module EvidenceAnswers {
  import opened Prelude
  import opened Text
  import opened EffectiveValues
  import opened Engine
  import opened ReviewPolicy
  import opened Matching
  import opened Store
  import opened EvidenceCalls
  import opened ReconciliationCalls
  import opened EvidenceInvariant
  import opened ReconciliationInvariant
  import opened System
  import opened Reachability
  import opened DecisionCommits
  import opened Imports
  import opened TaskAnswers

  // ----- extraction and correction

  lemma RecordExtractionAnswer(
      policy: Policy, s: Store, ctx: Context, clientId: Id, documentId: Id, sha: Sha256, succeeded: bool,
      fields: seq<ExtractedField>)
    requires Inv(policy, s)
    ensures Handle(policy, s, Request(ctx, RecordExtraction(clientId, documentId, sha, succeeded, fields))) ==
      if !Reaches(ctx, clientId) then Reply(s, Some(Forbidden))
      else if (exists i, j | 0 <= i < j < |fields| :: fields[i].path == fields[j].path) || (!succeeded && fields != [])
        then Reply(s, Some(InvalidRequest))
      else
        Reply(s.(clock := s.clock + 1, extractions := s.extractions +
          [ExtractionRun(ctx.principal.firmId, clientId, documentId, sha, succeeded, fields)]), None)
  {
    hide Inv, Handle;
    Answered(policy, s, Request(ctx, RecordExtraction(clientId, documentId, sha, succeeded, fields)));
  }

  predicate NamesRun(s: Store, ctx: Context, clientId: Id, documentId: Id, runId: Id) {
    runId < |s.extractions| && s.extractions[runId].firmId == ctx.principal.firmId &&
    s.extractions[runId].clientId == clientId && s.extractions[runId].documentId == documentId
  }

  /** Some outcome other than a rejection stands on the extraction run. */
  ghost predicate IsLocked(s: Store, runId: Id) {
    exists o | o in s.outcomes :: o.extractionRunId == runId && o.outcomeType != Rejection
  }

  lemma LockedExact(s: Store, runId: Id)
    ensures HasApprovedOutcome(s.outcomes, runId) <==> IsLocked(s, runId)
  {
    if HasApprovedOutcome(s.outcomes, runId) {
      var k :| 0 <= k < |s.outcomes| && IsApprovalOf(s.outcomes[k], runId);
      assert s.outcomes[k] in s.outcomes;
    }
    if o :| o in s.outcomes && o.extractionRunId == runId && o.outcomeType != Rejection {
      var k :| 0 <= k < |s.outcomes| && s.outcomes[k] == o;
      assert IsApprovalOf(s.outcomes[k], runId);
    }
  }

  lemma NextRevisionIsCount(policy: Policy, s: Store, runId: Id, fieldId: Id)
    requires Inv(policy, s)
    ensures NextRevision(s.corrections, runId, fieldId) == 1 + RevisionCount(s.corrections, runId, fieldId)
  {
    NextRevisionCounts(s.corrections, runId, fieldId);
  }

  /** A correction is accepted exactly for a field of the caller's client's run, with a reason and
      a valid value, while no approval stands on the run; it is then logged as the next revision. */
  lemma CorrectFieldAnswer(policy: Policy, s: Store, ctx: Context, path: FieldPath, q: CorrectionRequest)
    requires Inv(policy, s)
    ensures Handle(policy, s, Request(ctx, CorrectField(path, q))) ==
      if !Reaches(ctx, path.clientId) then Reply(s, Some(Forbidden))
      else if !NamesRun(s, ctx, path.clientId, path.documentId, path.runId) ||
              path.fieldId >= |s.extractions[path.runId].fields| then Reply(s, Some(NotFound))
      else if Strip(q.reason) == "" then Reply(s, Some(InvalidRequest))
      else if !policy.lexicon.acceptsValue(q.rawValue, q.normalizedValue, q.valueType)
        then Reply(s, Some(InvalidCorrection))
      else if IsLocked(s, path.runId) then Reply(s, Some(ApprovedRecordLocked))
      else
        Reply(s.(clock := s.clock + 1, corrections := s.corrections + [Correction(
          path.runId, path.fieldId, 1 + RevisionCount(s.corrections, path.runId, path.fieldId), q.rawValue,
          q.normalizedValue, q.valueType, ctx.principal.membershipId, Strip(q.reason), s.clock + 1)]), None)
  {
    hide Inv, Handle, Strip, HasApprovedOutcome, IsLocked, NextRevision, RevisionCount;
    LockedExact(s, path.runId);
    NextRevisionIsCount(policy, s, path.runId, path.fieldId);
    Answered(policy, s, Request(ctx, CorrectField(path, q)));
  }

  // ----- decisions

  /** A decision runs exactly on a succeeded extraction run of the client; it stores what the
      engine makes of the evidence as it stands, unless the tables refuse that output, and a
      failed run when the engine raises. */
  lemma StartDecisionAnswer(policy: Policy, s: Store, ctx: Context, path: RunPath, engineRaises: bool)
    requires Inv(policy, s)
    ensures Handle(policy, s, Request(ctx, StartDecision(path, engineRaises))) ==
      if !Reaches(ctx, path.clientId) then Reply(s, Some(Forbidden))
      else if !NamesRun(s, ctx, path.clientId, path.documentId, path.runId) then Reply(s, Some(NotFound))
      else
        var e := s.extractions[path.runId];
        if !e.succeeded then Reply(s, Some(SourceNotEligible))
        else
          var output := Decide(policy, EngineInputNow(s, path.runId));
          if !engineRaises && !OutputPersists(output) then Reply(s, Some(DecisionPersistenceFailed))
          else
            Reply(s.(clock := s.clock + 1, decisions := s.decisions + [DecisionRun(
              ctx.principal.firmId, path.clientId, path.documentId, path.runId, e.sourceSha,
              if engineRaises then None else Some(output), s.clock + 1)]),
              if engineRaises then Some(DecisionEngineFailed) else None)
  {
    hide Inv, Handle, OutputPersists, Decide, EngineInputNow;
    var r := Request(ctx, StartDecision(path, engineRaises));
    if Guard(policy, s, r).None? {
      DecisionCommitsExactly(policy, s, r);
    } else {
      Refused(policy, s, r);
    }
  }

  lemma Refused(policy: Policy, s: Store, r: Request)
    requires Guard(policy, s, r).Some?
    ensures Handle(policy, s, r) == Reply(s, Guard(policy, s, r))
  {
    hide Guard, Next, Constraints;
  }

  // ----- imports

  /** Three letters, perhaps between blanks. */
  ghost predicate IsCurrencyText(text: string) {
    exists before: string, code: string, after: string | AllSpaces(before) && AllSpaces(after) ::
      text == before + code + after && |code| == 3 && forall i | 0 <= i < 3 :: IsAsciiLetter(code[i])
  }

  /** A positive amount in some currency, an id and a description that are not blank, of the
      batch's client and within its period. */
  ghost predicate IsSoundTransaction(b: ImportBatch, t: BankTransaction) {
    t.amount > 0 && IsCurrencyText(t.currency) && !AllSpaces(t.sourceId) && !AllSpaces(t.description) &&
    t.firmId == b.firmId && t.clientId == b.clientId && b.periodStart <= t.bookingDate <= b.periodEnd
  }

  /** What may be submitted: no blank header text, a period, sound transactions, no id twice as
      written. */
  ghost predicate IsSoundBatch(b: ImportBatch) {
    !AllSpaces(b.provider) && !AllSpaces(b.providerVersion) && !AllSpaces(b.batchReference) &&
    !AllSpaces(b.account) && b.periodStart <= b.periodEnd &&
    (forall t | t in b.transactions :: IsSoundTransaction(b, t)) &&
    forall i, j | 0 <= i < j < |b.transactions| :: b.transactions[i].sourceId != b.transactions[j].sourceId
  }

  lemma BlankExact(text: string)
    ensures Strip(text) == "" <==> AllSpaces(text)
  {
    if AllSpaces(text) {
      assert text + "" + "" == text;
      StripRemoves(text, "", "");
    } else {
      var before := StripLeftParts(text);
      var after := StripRightParts(StripLeft(text));
      assert text == before + Strip(text) + after;
    }
  }

  lemma CurrencyTextExact(text: string)
    ensures ValidCurrency(text) <==> IsCurrencyText(text)
  {
    hide StripLeft, StripRight;
    if ValidCurrency(text) {
      var before := StripLeftParts(text);
      var after := StripRightParts(StripLeft(text));
      assert text == before + Strip(text) + after;
    }
    if IsCurrencyText(text) {
      var before: string, code: string, after: string :| AllSpaces(before) && AllSpaces(after) &&
        text == before + code + after && |code| == 3 && (forall i | 0 <= i < 3 :: IsAsciiLetter(code[i]));
      assert IsAsciiLetter(code[0]) && IsAsciiLetter(code[2]);
      StripRemoves(before, code, after);
    }
  }

  lemma TransactionExact(b: ImportBatch, t: BankTransaction)
    ensures IsSoundTransaction(b, t) <==>
      ValidTransaction(t) && t.firmId == b.firmId && t.clientId == b.clientId &&
      b.periodStart <= t.bookingDate <= b.periodEnd
  {
    hide Strip, ValidCurrency, IsCurrencyText, AllSpaces;
    CurrencyTextExact(t.currency);
    BlankExact(t.sourceId);
    BlankExact(t.description);
  }

  lemma BatchExact(b: ImportBatch)
    ensures ValidBatch(b) <==> IsSoundBatch(b)
  {
    hide Strip, ValidTransaction, IsSoundTransaction, AllSpaces;
    BlankExact(b.provider);
    BlankExact(b.providerVersion);
    BlankExact(b.batchReference);
    BlankExact(b.account);
    forall t
      ensures IsSoundTransaction(b, t) <==>
        ValidTransaction(t) && t.firmId == b.firmId && t.clientId == b.clientId &&
        b.periodStart <= t.bookingDate <= b.periodEnd
    {
      TransactionExact(b, t);
    }
    assert forall i | 0 <= i < |b.transactions| :: b.transactions[i] in b.transactions;
  }

  /** A stored batch has the submission's client, provider, account and batch reference. */
  predicate HasKeyOf(batch: BatchRecord, b: ImportBatch) {
    batch.firmId == b.firmId && batch.clientId == b.clientId && batch.provider == Strip(b.provider) &&
    batch.account == Strip(b.account) && batch.batchReference == Strip(b.batchReference)
  }

  /** A stored transaction came from the same account under the same id. */
  predicate IsSourceOf(row: TransactionRecord, b: ImportBatch, t: BankTransaction) {
    row.value.firmId == b.firmId && row.value.clientId == b.clientId && row.provider == Strip(b.provider) &&
    row.account == Strip(b.account) && row.value.sourceId == Strip(t.sourceId)
  }

  ghost predicate HasKnownSource(s: Store, b: ImportBatch) {
    exists row, t | row in s.transactions && t in b.transactions :: IsSourceOf(row, b, t)
  }

  lemma KnownSourceExact(s: Store, b: ImportBatch)
    ensures (exists i | 0 <= i < |b.transactions| :: AlreadyImported(s.transactions, b, b.transactions[i])) <==>
            HasKnownSource(s, b)
  {
    if i :| 0 <= i < |b.transactions| && AlreadyImported(s.transactions, b, b.transactions[i]) {
      var k :| 0 <= k < |s.transactions| && SameSource(s.transactions[k], TransactionRow(b, 0, b.transactions[i], 0));
      SourceColumns(s.transactions[k], b, b.transactions[i]);
      assert s.transactions[k] in s.transactions && b.transactions[i] in b.transactions;
    }
    if row, t :| row in s.transactions && t in b.transactions && IsSourceOf(row, b, t) {
      var k :| 0 <= k < |s.transactions| && s.transactions[k] == row;
      var i :| 0 <= i < |b.transactions| && b.transactions[i] == t;
      SourceColumns(row, b, t);
      assert AlreadyImported(s.transactions, b, b.transactions[i]);
    }
  }

  lemma SourceColumns(row: TransactionRecord, b: ImportBatch, t: BankTransaction)
    ensures SameSource(row, TransactionRow(b, 0, t, 0)) <==> IsSourceOf(row, b, t)
  {
    hide Strip, NormalizedCurrency;
  }

  lemma KeyExact(s: Store, b: ImportBatch)
    ensures FindBatch(s.batches, BatchRow(b)).Some? <==> exists batch | batch in s.batches :: HasKeyOf(batch, b)
  {
    hide Strip, FindBatch;
    FoundBatch(s.batches, BatchRow(b));
    if batch :| batch in s.batches && HasKeyOf(batch, b) {
      var k :| 0 <= k < |s.batches| && s.batches[k] == batch;
      assert SameBatchKey(s.batches[k], BatchRow(b));
    }
    var found := FindBatch(s.batches, BatchRow(b));
    if found.Some? {
      assert HasKeyOf(s.batches[found.value], b);
    }
  }

  /** The row of a submitted transaction: stripped id and description, currency in upper case. */
  predicate IsRowOf(row: TransactionRecord, b: ImportBatch, batchId: Id, t: BankTransaction, now: nat) {
    row == TransactionRecord(batchId, Strip(b.provider), Strip(b.account),
      t.(firmId := b.firmId, clientId := b.clientId, sourceId := Strip(t.sourceId),
         currency := Upper(Strip(t.currency)), description := Strip(t.description)), now)
  }

  ghost predicate StoresBatch(s: Store, next: Store, b: ImportBatch) {
    next == s.(clock := s.clock + 1, batches := next.batches, transactions := next.transactions) &&
    next.batches == s.batches + [BatchRecord(
      b.firmId, b.clientId, Strip(b.provider), Strip(b.providerVersion), Strip(b.batchReference), Strip(b.account),
      b.periodStart, b.periodEnd)] &&
    |next.transactions| == |s.transactions| + |b.transactions| && s.transactions <= next.transactions &&
    forall i | 0 <= i < |b.transactions| ::
      IsRowOf(next.transactions[|s.transactions| + i], b, |s.batches|, b.transactions[i], s.clock + 1)
  }

  lemma ImportStores(s: Store, b: ImportBatch)
    requires FindBatch(s.batches, BatchRow(b)).None?
    ensures StoresBatch(s, ImportNext(s, b), b)
  {
    hide Strip, Upper, FindBatch, TransactionRows;
    assert b.transactions[..|b.transactions|] == b.transactions;
    RowsAre(b, |s.batches|, |b.transactions|, s.clock + 1);
  }

  /** A first submission of a valid batch is stored whole, row by row, exactly when none of its
      transactions is known and no two of its ids strip to the same; otherwise nothing is. */
  lemma ImportAnswer(policy: Policy, s: Store, ctx: Context, b: ImportBatch)
    requires Inv(policy, s) && !(exists batch | batch in s.batches :: HasKeyOf(batch, b))
    ensures var reply := Handle(policy, s, Request(ctx, Import(b)));
      && reply.error ==
        (if !IsSoundBatch(b) then Some(InvalidImportBatch)
         else if !Reaches(ctx, b.clientId) || b.firmId != ctx.principal.firmId then Some(Forbidden)
         else if HasKnownSource(s, b) then Some(BankTransactionAlreadyImported)
         else if !DistinctStripped(b.transactions) then Some(BankImportConflict)
         else None)
      && if reply.error.None? then StoresBatch(s, reply.next, b) else reply.next == s
  {
    hide Inv, Handle, ValidBatch, IsSoundBatch, DistinctStripped, HasKnownSource, AlreadyImported, BatchRow, FindBatch,
      StoresBatch, ImportNext, HasKeyOf;
    BatchExact(b);
    KeyExact(s, b);
    KnownSourceExact(s, b);
    var r := Request(ctx, Import(b));
    if ImportGuard(s, ctx, b).None? {
      ImportCommitsExactly(policy, s, ctx, b);
      ImportStores(s, b);
    } else {
      Refused(policy, s, r);
    }
  }
}
