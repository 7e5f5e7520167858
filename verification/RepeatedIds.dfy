/** A run in which a batch that names one transaction twice is taken for a stored batch of two:
    source ids are checked for duplicates before they are stripped. */
module RepeatedIds {
  import opened Prelude
  import opened Text
  import opened Matching
  import opened Store
  import opened ReconciliationCalls
  import opened System
  import opened Reachability
  import opened Imports
  import opened WindowGap

  function Paid(sourceId: string): BankTransaction {
    BankTransaction(0, 0, sourceId, DAY_NUMBER, None, Debit, 10_000, "USD", "d", None, None)
  }

  function Statement(first: string, second: string): ImportBatch {
    ImportBatch.ImportBatch(0, 0, "p", "v", "b", "c", DAY_NUMBER, DAY_NUMBER, [Paid(first), Paid(second)])
  }

  const TWO := Statement("a", "b")

  const ONE_TWICE := Statement(" a", "a")

  lemma StatementIsValid(first: string, second: string)
    requires Strip(first) != "" && Strip(second) != "" && first != second
    ensures ValidBatch(Statement(first, second))
  {
    hide Strip;
    Spelled();
  }

  lemma TwoAdmitted()
    ensures ImportGuard(EMPTY_STORE, GAP_CONTEXT, TWO).None? && FindBatch([], BatchRow(TWO)).None?
    ensures DistinctStripped(TWO.transactions)
  {
    hide Strip;
    Spelled();
    assert "a"[0] != "b"[0];
    StatementIsValid("a", "b");
    hide ValidBatch, BatchRow;
  }

  lemma TwoStored()
    ensures Reached(GAP_POLICY, [ByClerk(Import(TWO))]) == ImportNext(EMPTY_STORE, TWO)
  {
    hide Inv, ImportGuard, ImportNext, FindBatch, BatchRow, Handle, GAP_POLICY, DistinctStripped;
    TwoAdmitted();
    EmptyKeeps(GAP_POLICY);
    ImportCommitsExactly(GAP_POLICY, EMPTY_STORE, GAP_CONTEXT, TWO);
    assert [] + [ByClerk(Import(TWO))] == [ByClerk(Import(TWO))];
    RunSnoc([], ByClerk(Import(TWO)));
  }

  /** The rows of the first batch answer for both spellings of its first transaction. */
  lemma BothFound(rows: seq<TransactionRecord>)
    requires MatchesExisting(TWO, BatchRow(TWO), rows)
    ensures MatchesExisting(ONE_TWICE, BatchRow(TWO), rows)
  {
    hide Strip, BySourceId, NormalizedCurrency, BatchRow;
    Spelled();
    assert HasSameRow(BySourceId(rows), TWO.transactions[0]);
    assert SameHeader(ONE_TWICE, BatchRow(TWO));
    forall i | 0 <= i < 2
      ensures HasSameRow(BySourceId(rows), ONE_TWICE.transactions[i])
    {
    }
  }

  lemma TwoHeld()
    ensures var s := ImportNext(EMPTY_STORE, TWO);
      && s.batches == [BatchRow(TWO)] && FindBatch(s.batches, BatchRow(ONE_TWICE)) == Some(0)
      && MatchesExisting(ONE_TWICE, s.batches[0], TransactionsOf(s.transactions, 0))
  {
    hide Strip, Inv, GAP_POLICY, MatchesExisting, TransactionRows, TransactionsOf;
    Spelled();
    EmptyKeeps(GAP_POLICY);
    NewRows(GAP_POLICY, EMPTY_STORE, TWO);
    assert "a"[0] != "b"[0];
    OwnRowsMatch(TWO, 0, 1);
    BothFound(TransactionRows(TWO, 0, TWO.transactions, 1));
  }

  lemma OneTwiceRepeats()
    ensures ValidBatch(ONE_TWICE) && !DistinctStripped(ONE_TWICE.transactions)
  {
    hide Strip;
    Spelled();
    assert " a"[0] != "a"[0];
    StatementIsValid(" a", "a");
    assert Strip(ONE_TWICE.transactions[0].sourceId) == Strip(ONE_TWICE.transactions[1].sourceId);
  }

  /** Two calls: a batch of transactions a and b is stored, and then a valid batch naming only a,
      twice, is answered as a replay of it, though as maps from stripped id the two differ. */
  lemma RepeatedIdMisread()
    ensures ValidBatch(ONE_TWICE)
    ensures var s := Reached(GAP_POLICY, [ByClerk(Import(TWO))]);
      && |s.batches| == 1 && s.batches[0] == BatchRow(TWO)
      && Handle(GAP_POLICY, s, ByClerk(Import(ONE_TWICE))) == Reply(s, None)
      && Submitted(ONE_TWICE.transactions) != Persisted(TransactionsOf(s.transactions, 0))
  {
    hide Reached, Handle, GAP_POLICY, ValidBatch, BatchRow, ImportNext, FindBatch, MatchesExisting, TransactionsOf,
      Submitted, Persisted, DistinctStripped, SameBatchKey, SameHeader;
    TwoStored();
    TwoHeld();
    OneTwiceRepeats();
    ResubmissionExact(GAP_POLICY, [ByClerk(Import(TWO))], GAP_CONTEXT, ONE_TWICE);
  }
}
