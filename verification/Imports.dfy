/** Bank imports: when a resubmitted batch is recognised, and that replaying one changes nothing. */
module Imports {
  import opened Prelude
  import opened Text
  import opened Engine
  import opened Matching
  import opened Store
  import opened Targets
  import opened EvidenceCalls
  import opened ReconciliationCalls
  import opened EvidenceInvariant
  import opened ReviewInvariant
  import opened Evolution
  import opened ReconciliationInvariant
  import opened System
  import opened Reachability

  // ----- batches as maps from source id to values

  /** The columns a replayed transaction must repeat. */
  function ValueColumns(t: BankTransaction): BankTransaction {
    t.(firmId := 0, clientId := 0, sourceId := "")
  }

  function Submitted(ts: seq<BankTransaction>): map<string, BankTransaction> {
    if ts == [] then map[]
    else Submitted(ts[..|ts| - 1])[Strip(ts[|ts| - 1].sourceId) := ValueColumns(Stored(ts[|ts| - 1]))]
  }

  function Persisted(rows: seq<TransactionRecord>): map<string, BankTransaction> {
    if rows == [] then map[]
    else Persisted(rows[..|rows| - 1])[rows[|rows| - 1].value.sourceId := ValueColumns(rows[|rows| - 1].value)]
  }

  predicate DistinctStripped(ts: seq<BankTransaction>) {
    forall i, j | 0 <= i < j < |ts| :: Strip(ts[i].sourceId) != Strip(ts[j].sourceId)
  }

  predicate DistinctRows(rows: seq<TransactionRecord>) {
    forall i, j | 0 <= i < j < |rows| :: rows[i].value.sourceId != rows[j].value.sourceId
  }

  predicate SameHeader(b: ImportBatch, existing: BatchRecord) {
    existing.providerVersion == Strip(b.providerVersion) && existing.periodStart == b.periodStart &&
    existing.periodEnd == b.periodEnd
  }

  lemma SameColumns(row: BankTransaction, t: BankTransaction)
    ensures SameValues(row, t) <==> ValueColumns(row) == ValueColumns(Stored(t))
  {
    hide Strip, NormalizedCurrency;
  }

  lemma {:induction false} PersistedIsDictionary(rows: seq<TransactionRecord>, id: string)
    ensures id in Persisted(rows) <==> id in BySourceId(rows)
    ensures id in Persisted(rows) ==> Persisted(rows)[id] == ValueColumns(BySourceId(rows)[id].value)
  {
    hide ValueColumns;
    if rows != [] {
      PersistedIsDictionary(rows[..|rows| - 1], id);
    }
  }

  lemma {:induction false} PersistedSize(rows: seq<TransactionRecord>)
    requires DistinctRows(rows)
    ensures |Persisted(rows)| == |rows|
  {
    hide ValueColumns;
    if rows != [] {
      PersistedSize(rows[..|rows| - 1]);
      var front, id := rows[..|rows| - 1], rows[|rows| - 1].value.sourceId;
      if id in Persisted(front) {
        PersistedKey(front, id);
      }
      assert Persisted(rows).Keys == Persisted(front).Keys + {id};
    }
  }

  lemma {:induction false} PersistedKey(rows: seq<TransactionRecord>, id: string)
    requires id in Persisted(rows)
    ensures exists i | 0 <= i < |rows| :: rows[i].value.sourceId == id
  {
    hide ValueColumns;
    var n := |rows| - 1;
    if rows[n].value.sourceId != id {
      PersistedKey(rows[..n], id);
      var i :| 0 <= i < n && rows[..n][i].value.sourceId == id;
      assert rows[i].value.sourceId == id;
    }
  }

  lemma {:induction false} SubmittedKey(ts: seq<BankTransaction>, i: nat)
    requires i < |ts|
    ensures Strip(ts[i].sourceId) in Submitted(ts)
  {
    hide ValueColumns, Stored, Strip;
    if i < |ts| - 1 {
      SubmittedKey(ts[..|ts| - 1], i);
    }
  }

  lemma LastDistinct(ts: seq<BankTransaction>)
    requires ts != []
    ensures var n := |ts| - 1;
      DistinctStripped(ts) <==>
      DistinctStripped(ts[..n]) && forall i | 0 <= i < n :: Strip(ts[i].sourceId) != Strip(ts[n].sourceId)
  {
    hide Strip;
    var n := |ts| - 1;
    assert forall i | 0 <= i < n :: ts[..n][i] == ts[i];
  }

  /** The map has one key per transaction exactly when the stripped ids are distinct. */
  lemma {:induction false} SubmittedSize(ts: seq<BankTransaction>)
    ensures |Submitted(ts)| <= |ts|
    ensures |Submitted(ts)| == |ts| <==> DistinctStripped(ts)
  {
    hide ValueColumns, Stored, Strip;
    if ts != [] {
      var n := |ts| - 1;
      var front, id := ts[..n], Strip(ts[n].sourceId);
      LastDistinct(ts);
      SubmittedSize(front);
      hide DistinctStripped;
      if id in Submitted(front) {
        var i := SubmittedFrom(front, id);
        assert Strip(ts[i].sourceId) == id;
        assert Submitted(ts).Keys == Submitted(front).Keys;
      } else {
        assert Submitted(ts).Keys == Submitted(front).Keys + {id};
        forall i | 0 <= i < n
          ensures Strip(ts[i].sourceId) != id
        {
          SubmittedKey(front, i);
        }
      }
    }
  }

  /** Each key comes from some transaction, with that transaction's stored values. */
  lemma {:induction false} SubmittedFrom(ts: seq<BankTransaction>, id: string) returns (i: nat)
    requires id in Submitted(ts)
    ensures i < |ts| && Strip(ts[i].sourceId) == id && Submitted(ts)[id] == ValueColumns(Stored(ts[i]))
  {
    hide ValueColumns, Stored, Strip;
    var n := |ts| - 1;
    if Strip(ts[n].sourceId) == id {
      i := n;
    } else {
      i := SubmittedFrom(ts[..n], id);
    }
  }

  lemma SubmittedAt(ts: seq<BankTransaction>, i: nat)
    requires i < |ts| && DistinctStripped(ts)
    ensures Strip(ts[i].sourceId) in Submitted(ts)
    ensures Submitted(ts)[Strip(ts[i].sourceId)] == ValueColumns(Stored(ts[i]))
  {
    hide ValueColumns, Stored, Strip, Submitted;
    SubmittedKey(ts, i);
    var j := SubmittedFrom(ts, Strip(ts[i].sourceId));
  }

  ghost predicate Within(m: map<string, BankTransaction>, n: map<string, BankTransaction>) {
    forall id | id in m :: id in n && n[id] == m[id]
  }

  lemma SubsetOfSameSize(m: map<string, BankTransaction>, n: map<string, BankTransaction>)
    requires Within(m, n)
    ensures |m| == |n| <==> m == n
  {
    assert m.Keys <= n.Keys;
    if |m| == |n| {
      SameSizeSubset(m.Keys, n.Keys);
    }
  }

  lemma SameSizeSubset(a: set<string>, b: set<string>)
    requires a <= b && |a| == |b|
    ensures a == b
  {
    assert |b - a| == |b| - |a|;
  }

  lemma RowsMatch(ts: seq<BankTransaction>, rows: seq<TransactionRecord>)
    requires forall i | 0 <= i < |ts| :: HasSameRow(BySourceId(rows), ts[i])
    ensures Within(Submitted(ts), Persisted(rows))
  {
    hide ValueColumns, Stored, Strip, Submitted, Persisted, BySourceId, SameValues;
    forall id | id in Submitted(ts)
      ensures id in Persisted(rows) && Persisted(rows)[id] == Submitted(ts)[id]
    {
      var i := SubmittedFrom(ts, id);
      assert HasSameRow(BySourceId(rows), ts[i]);
      PersistedIsDictionary(rows, id);
      SameColumns(BySourceId(rows)[id].value, ts[i]);
    }
  }

  lemma MapsMatch(ts: seq<BankTransaction>, rows: seq<TransactionRecord>)
    requires DistinctStripped(ts) && Within(Submitted(ts), Persisted(rows))
    ensures forall i | 0 <= i < |ts| :: HasSameRow(BySourceId(rows), ts[i])
  {
    hide ValueColumns, Stored, Strip, Submitted, Persisted, BySourceId, SameValues;
    forall i | 0 <= i < |ts|
      ensures HasSameRow(BySourceId(rows), ts[i])
    {
      SubmittedAt(ts, i);
      PersistedIsDictionary(rows, Strip(ts[i].sourceId));
      SameColumns(BySourceId(rows)[Strip(ts[i].sourceId)].value, ts[i]);
    }
  }

  /** With distinct stripped ids, a batch is recognised exactly when it equals the persisted
      one as a map from stripped source id to values. A batch that repeats a stripped id and is
      recognised all the same is never equal to it. */
  lemma MatchesExistingExact(b: ImportBatch, existing: BatchRecord, rows: seq<TransactionRecord>)
    requires DistinctRows(rows)
    ensures DistinctStripped(b.transactions) ==>
      (MatchesExisting(b, existing, rows) <==>
       SameHeader(b, existing) && Submitted(b.transactions) == Persisted(rows))
    ensures MatchesExisting(b, existing, rows) ==>
      (Submitted(b.transactions) == Persisted(rows) <==> DistinctStripped(b.transactions))
  {
    hide HasSameRow, Submitted, Persisted, DistinctStripped, DistinctRows;
    var ts := b.transactions;
    PersistedSize(rows);
    SubmittedSize(ts);
    if MatchesExisting(b, existing, rows) {
      RowsMatch(ts, rows);
      SubsetOfSameSize(Submitted(ts), Persisted(rows));
    }
    if DistinctStripped(ts) && Submitted(ts) == Persisted(rows) {
      MapsMatch(ts, rows);
    }
  }

  // ----- the rows of a stored batch

  lemma {:induction false} RowOrigin(transactions: seq<TransactionRecord>, batchId: Id, i: nat) returns (k: nat)
    requires i < |TransactionsOf(transactions, batchId)|
    ensures k < |transactions| && transactions[k] == TransactionsOf(transactions, batchId)[i]
    ensures transactions[k].batchId == batchId
  {
    var n := |transactions| - 1;
    if i < |TransactionsOf(transactions[..n], batchId)| {
      k := RowOrigin(transactions[..n], batchId, i);
    } else {
      k := n;
    }
  }

  /** A stored batch never holds two rows of one source id. */
  lemma {:induction false} StoredRowsDistinct(
      batches: seq<BatchRecord>, transactions: seq<TransactionRecord>, batchId: Id)
    requires TransactionsInv(batches, transactions)
    ensures DistinctRows(TransactionsOf(transactions, batchId))
  {
    hide ValidTransaction, BatchesPersist, TransactionPersists;
    if transactions != [] {
      var n := |transactions| - 1;
      var front := TransactionsOf(transactions[..n], batchId);
      StoredRowsDistinct(batches, transactions[..n], batchId);
      if transactions[n].batchId == batchId {
        forall i | 0 <= i < |front|
          ensures front[i].value.sourceId != transactions[n].value.sourceId
        {
          var k := RowOrigin(transactions[..n], batchId, i);
          assert ValidRow(batches, transactions[k]) && ValidRow(batches, transactions[n]);
          assert !SameSource(transactions[k], transactions[n]);
        }
      }
    }
  }

  // ----- stored identities

  lemma {:induction false} FoundBatch(batches: seq<BatchRecord>, row: BatchRecord)
    ensures FindBatch(batches, row).Some? ==>
      FindBatch(batches, row).value < |batches| && SameBatchKey(batches[FindBatch(batches, row).value], row)
    ensures FindBatch(batches, row).None? ==> forall i | 0 <= i < |batches| :: !SameBatchKey(batches[i], row)
  {
    if batches != [] {
      FoundBatch(batches[..|batches| - 1], row);
    }
  }

  /** What an import call answers. */
  function ImportReply(s: Store, ctx: Context, b: ImportBatch): Reply {
    if ImportGuard(s, ctx, b).Some? then Reply(s, ImportGuard(s, ctx, b))
    else if FindBatch(s.batches, BatchRow(b)).Some? then Reply(s, None)
    else if Constraints(ImportNext(s, b)) then Reply(ImportNext(s, b), None)
    else Reply(s, Some(BankImportConflict))
  }

  lemma ImportHandled(policy: Policy, s: Store, ctx: Context, b: ImportBatch)
    ensures Handle(policy, s, Request(ctx, Import(b))) == ImportReply(s, ctx, b)
  {
    hide ImportGuard, BatchRow, Constraints, TransactionRows;
    assert FindBatch(s.batches, BatchRow(b)).None? ==> ImportNext(s, b).clock == s.clock + 1;
  }

  lemma RepeatedRows(s: Store, b: ImportBatch)
    requires FindBatch(s.batches, BatchRow(b)).None? && !DistinctStripped(b.transactions)
    ensures !TransactionsPersist(ImportNext(s, b).transactions)
  {
    hide Strip, BatchRow, TransactionRows;
    var i, j :| 0 <= i < j < |b.transactions| &&
      Strip(b.transactions[i].sourceId) == Strip(b.transactions[j].sourceId);
    assert b.transactions[..|b.transactions|] == b.transactions;
    RowsAre(b, |s.batches|, |b.transactions|, s.clock + 1);
    var transactions := ImportNext(s, b).transactions;
    var n := |s.transactions|;
    assert SameSource(transactions[n + i], transactions[n + j]);
  }

  /** A row's source identity is its batch's account and its stripped id. */
  lemma RowSource(b: ImportBatch, batchId: Id, t: BankTransaction, now: nat)
    ensures TransactionRow(b, batchId, t, now).value.sourceId == Strip(t.sourceId)
    ensures SameSource(TransactionRow(b, batchId, t, now), TransactionRow(b, 0, t, 0))
  {
    hide Strip, NormalizedCurrency;
  }

  lemma RowStorable(b: ImportBatch, batches: seq<BatchRecord>, i: nat, now: nat)
    requires ValidBatch(b) && i < |b.transactions|
    ensures TransactionPersists(TransactionRow(b, |batches|, b.transactions[i], now))
  {
    RowValid(b, batches, i, now);
    NormalizedTwice(b.transactions[i].currency);
    assert Strip("") == "";
    hide Strip;
  }

  lemma SourcesDistinct(s: Store, b: ImportBatch)
    requires TransactionsPersist(s.transactions) && DistinctStripped(b.transactions)
    requires FindBatch(s.batches, BatchRow(b)).None?
    requires forall i | 0 <= i < |b.transactions| :: !AlreadyImported(s.transactions, b, b.transactions[i])
    ensures var rows := ImportNext(s, b).transactions;
      forall i, j | 0 <= i < j < |rows| :: !SameSource(rows[i], rows[j])
  {
    hide Strip, TransactionRow, TransactionRows, TransactionPersists, BatchRow;
    var rows, n, ts := ImportNext(s, b).transactions, |s.transactions|, b.transactions;
    assert ts[..|ts|] == ts;
    RowsAre(b, |s.batches|, |ts|, s.clock + 1);
    forall i, j | 0 <= i < j < |rows|
      ensures !SameSource(rows[i], rows[j])
    {
      if j >= n {
        RowSource(b, |s.batches|, ts[j - n], s.clock + 1);
        if i >= n {
          RowSource(b, |s.batches|, ts[i - n], s.clock + 1);
        } else {
          assert !AlreadyImported(s.transactions, b, ts[j - n]);
        }
      }
    }
  }

  lemma NewRowsStorable(s: Store, b: ImportBatch)
    requires TransactionsPersist(s.transactions) && ValidBatch(b) && DistinctStripped(b.transactions)
    requires FindBatch(s.batches, BatchRow(b)).None?
    requires forall i | 0 <= i < |b.transactions| :: !AlreadyImported(s.transactions, b, b.transactions[i])
    ensures TransactionsPersist(ImportNext(s, b).transactions)
  {
    hide ValidBatch, ImportNext, TransactionPersists, SameSource, BatchRow, AlreadyImported, DistinctStripped;
    SourcesDistinct(s, b);
    NewRowsPersist(s, b);
  }

  lemma NewRowsPersist(s: Store, b: ImportBatch)
    requires TransactionsPersist(s.transactions) && ValidBatch(b) && FindBatch(s.batches, BatchRow(b)).None?
    ensures var rows := ImportNext(s, b).transactions;
      forall i | 0 <= i < |rows| :: TransactionPersists(rows[i])
  {
    hide ValidBatch, TransactionRow, TransactionRows, TransactionPersists, SameSource, BatchRow;
    var rows, n, ts := ImportNext(s, b).transactions, |s.transactions|, b.transactions;
    assert ts[..|ts|] == ts;
    RowsAre(b, |s.batches|, |ts|, s.clock + 1);
    forall i | 0 <= i < |rows|
      ensures TransactionPersists(rows[i])
    {
      if i >= n {
        RowStorable(b, s.batches, i - n, s.clock + 1);
      }
    }
  }

  lemma NewBatchStorable(s: Store, b: ImportBatch)
    requires BatchesPersist(s.batches) && ValidBatch(b) && FindBatch(s.batches, BatchRow(b)).None?
    ensures BatchesPersist(s.batches + [BatchRow(b)])
  {
    hide Strip, ValidTransaction;
    FoundBatch(s.batches, BatchRow(b));
  }

  lemma AcceptedBatch(s: Store, ctx: Context, b: ImportBatch)
    requires ImportGuard(s, ctx, b).None? && FindBatch(s.batches, BatchRow(b)).None?
    ensures ValidBatch(b)
    ensures forall i | 0 <= i < |b.transactions| :: !AlreadyImported(s.transactions, b, b.transactions[i])
  {
    hide ValidBatch, AlreadyImported, BatchRow;
  }

  /** A first submission its guards let through commits exactly when its stripped ids are
      distinct; otherwise it is rolled back whole. */
  lemma ImportCommitsExactly(policy: Policy, s: Store, ctx: Context, b: ImportBatch)
    requires Inv(policy, s)
    requires ImportGuard(s, ctx, b).None? && FindBatch(s.batches, BatchRow(b)).None?
    ensures Handle(policy, s, Request(ctx, Import(b))) ==
      if DistinctStripped(b.transactions) then Reply(ImportNext(s, b), None) else Reply(s, Some(BankImportConflict))
  {
    hide Inv, AlreadyImported, ImportGuard, ValidBatch, TransactionsInv, DistinctStripped, BatchRow, TransactionRows,
      CorrectionsPersist, DecisionsPersist, TasksPersist, CommentsPersist, OutcomesPersist, BatchesPersist,
      TransactionsPersist, MatchRunsPersist, ReviewsPersist, ActionsPersist, SettlementsPersist;
    AcceptedBatch(s, ctx, b);
    InvMeetsConstraints(policy, s);
    ImportHandled(policy, s, ctx, b);
    NewBatchStorable(s, b);
    if DistinctStripped(b.transactions) {
      NewRowsStorable(s, b);
    } else {
      RepeatedRows(s, b);
    }
  }

  // ----- replaying a persisted batch

  lemma {:induction false} RowsOfNew(
      before: seq<TransactionRecord>, after: seq<TransactionRecord>, batchId: Id)
    requires before <= after
    requires forall k | 0 <= k < |before| :: before[k].batchId != batchId
    requires forall k | |before| <= k < |after| :: after[k].batchId == batchId
    ensures TransactionsOf(after, batchId) == after[|before|..]
    decreases |after|
  {
    if after == before {
      assert after[|before|..] == [];
      NoRows(after, batchId);
    } else {
      var n := |after| - 1;
      RowsOfNew(before, after[..n], batchId);
      assert after[|before|..] == after[..n][|before|..] + [after[n]];
    }
  }

  lemma {:induction false} NoRows(rows: seq<TransactionRecord>, batchId: Id)
    requires forall k | 0 <= k < |rows| :: rows[k].batchId != batchId
    ensures TransactionsOf(rows, batchId) == []
  {
    if rows != [] {
      NoRows(rows[..|rows| - 1], batchId);
    }
  }

  lemma {:induction false} RowsStay(before: seq<TransactionRecord>, after: seq<TransactionRecord>, batchId: Id)
    requires before <= after
    requires forall k | |before| <= k < |after| :: after[k].batchId != batchId
    ensures TransactionsOf(after, batchId) == TransactionsOf(before, batchId)
    decreases |after|
  {
    if after != before {
      RowsStay(before, after[..|after| - 1], batchId);
    }
  }

  /** The state holds a batch that b repeats. */
  predicate Holds(s: Store, b: ImportBatch, batchId: Id) {
    batchId < |s.batches| && SameBatchKey(s.batches[batchId], BatchRow(b)) &&
    MatchesExisting(b, s.batches[batchId], TransactionsOf(s.transactions, batchId))
  }

  lemma RowRepeats(b: ImportBatch, batchId: Id, t: BankTransaction, now: nat)
    ensures SameValues(TransactionRow(b, batchId, t, now).value, t)
    ensures TransactionRow(b, batchId, t, now).value.sourceId == Strip(t.sourceId)
  {
    hide Strip, NormalizedCurrency;
  }

  lemma {:induction false} RowFound(rows: seq<TransactionRecord>, i: nat)
    requires DistinctRows(rows) && i < |rows|
    ensures rows[i].value.sourceId in BySourceId(rows) && BySourceId(rows)[rows[i].value.sourceId] == rows[i]
  {
    if i < |rows| - 1 {
      RowFound(rows[..|rows| - 1], i);
    }
  }

  /** A batch's own rows repeat it. */
  lemma OwnRowsMatch(b: ImportBatch, batchId: Id, now: nat)
    requires DistinctStripped(b.transactions)
    ensures MatchesExisting(b, BatchRow(b), TransactionRows(b, batchId, b.transactions, now))
  {
    hide Strip, TransactionRow, TransactionRows, SameValues, BySourceId;
    var ts, rows := b.transactions, TransactionRows(b, batchId, b.transactions, now);
    assert ts[..|ts|] == ts;
    RowsAre(b, batchId, |ts|, now);
    forall i | 0 <= i < |ts|
      ensures rows[i].value.sourceId == Strip(ts[i].sourceId) && SameValues(rows[i].value, ts[i])
    {
      RowRepeats(b, batchId, ts[i], now);
    }
    forall i | 0 <= i < |ts|
      ensures HasSameRow(BySourceId(rows), ts[i])
    {
      RowFound(rows, i);
    }
  }

  /** A first import that commits leaves its batch in the tables. */
  lemma FirstImportHolds(policy: Policy, s: Store, ctx: Context, b: ImportBatch)
    requires Inv(policy, s) && ImportGuard(s, ctx, b).None? && FindBatch(s.batches, BatchRow(b)).None?
    requires ImportReply(s, ctx, b).error.None?
    ensures ImportReply(s, ctx, b).next == ImportNext(s, b) && Holds(ImportNext(s, b), b, |s.batches|)
  {
    hide Inv, ImportGuard, BatchRow, MatchesExisting, TransactionsOf, TransactionRows, DistinctStripped, Constraints;
    ImportHandled(policy, s, ctx, b);
    ImportCommitsExactly(policy, s, ctx, b);
    NewRows(policy, s, b);
    OwnRowsMatch(b, |s.batches|, s.clock + 1);
  }

  lemma NewRows(policy: Policy, s: Store, b: ImportBatch)
    requires Inv(policy, s) && FindBatch(s.batches, BatchRow(b)).None?
    ensures TransactionsOf(ImportNext(s, b).transactions, |s.batches|) ==
      TransactionRows(b, |s.batches|, b.transactions, s.clock + 1)
  {
    hide EvidenceInv, ReviewInv, MatchRunsInv, ReviewsInv, TransactionRow, TransactionRows, BatchRow, ValidTransaction;
    var next := ImportNext(s, b);
    var rows := TransactionRows(b, |s.batches|, b.transactions, s.clock + 1);
    assert b.transactions[..|b.transactions|] == b.transactions;
    RowsAre(b, |s.batches|, |b.transactions|, s.clock + 1);
    forall k | 0 <= k < |s.transactions|
      ensures s.transactions[k].batchId != |s.batches|
    {
      assert ValidRow(s.batches, s.transactions[k]);
    }
    forall k | |s.transactions| <= k < |next.transactions|
      ensures next.transactions[k].batchId == |s.batches|
    {
      RowBatch(b, |s.batches|, b.transactions[k - |s.transactions|], s.clock + 1);
    }
    RowsOfNew(s.transactions, next.transactions, |s.batches|);
    assert next.transactions[|s.transactions|..] == rows;
  }

  /** Every import that is accepted, new or replayed, leaves a batch it repeats. */
  lemma AcceptedHolds(policy: Policy, s: Store, ctx: Context, b: ImportBatch) returns (batchId: Id)
    requires Inv(policy, s) && ImportReply(s, ctx, b).error.None?
    ensures Holds(ImportReply(s, ctx, b).next, b, batchId)
  {
    hide Inv, Constraints, ValidBatch, BatchRow, MatchesExisting, ImportNext;
    var found := FindBatch(s.batches, BatchRow(b));
    if found.None? {
      FirstImportHolds(policy, s, ctx, b);
      batchId := |s.batches|;
    } else {
      FoundBatch(s.batches, BatchRow(b));
      batchId := found.value;
    }
  }

  /** And every later state still holds it. */
  lemma HoldsStays(s: Store, next: Store, b: ImportBatch, batchId: Id)
    requires Holds(s, b, batchId) && Evolves(s, next)
    ensures Holds(next, b, batchId)
  {
    hide BatchRow, MatchesExisting;
    forall k | |s.transactions| <= k < |next.transactions|
      ensures next.transactions[k].batchId != batchId
    {
      assert next.transactions[k].batchId >= |s.batches|;
    }
    RowsStay(s.transactions, next.transactions, batchId);
  }

  lemma FoundIs(batches: seq<BatchRecord>, row: BatchRecord, id: Id)
    requires BatchesPersist(batches) && id < |batches| && SameBatchKey(batches[id], row)
    ensures FindBatch(batches, row) == Some(id)
  {
    FoundBatch(batches, row);
    var found := FindBatch(batches, row);
    assert SameBatchKey(batches[found.value], batches[id]) && SameBatchKey(batches[id], batches[found.value]);
  }

  /** Resubmitting a batch that was accepted at any earlier point of a run is accepted and
      changes nothing, whoever of the firm with access resubmits it. */
  lemma ReplayChangesNothing(policy: Policy, requests: seq<Request>, i: nat, b: ImportBatch, caller: Context)
    requires i < |requests| && requests[i].call == Import(b)
    requires Handle(policy, Reached(policy, requests[..i]), requests[i]).error.None?
    requires caller.HasAccess(b.clientId) && caller.principal.firmId == b.firmId
    ensures var now := Reached(policy, requests);
      Handle(policy, now, Request(caller, Import(b))) == Reply(now, None)
  {
    hide Run, Handle, Inv, Evolves, Holds, ValidBatch, BatchRow, SameBatchKey, FindBatch, Constraints;
    var s, now := Reached(policy, requests[..i]), Reached(policy, requests);
    ImportHandled(policy, s, requests[i].ctx, b);
    assert requests[i] == Request(requests[i].ctx, Import(b));
    ReachedKeeps(policy, requests[..i]);
    ReachedKeeps(policy, requests);
    var batchId := AcceptedHolds(policy, s, requests[i].ctx, b);
    StepReached(policy, requests, i);
    ReachedEvolves(policy, requests, i + 1);
    HoldsStays(Reached(policy, requests[..i + 1]), now, b, batchId);
    ImportHandled(policy, now, caller, b);
    ReplayAnswered(policy, now, caller, b, batchId);
  }

  lemma StepReached(policy: Policy, requests: seq<Request>, i: nat)
    requires i < |requests|
    ensures Reached(policy, requests[..i + 1]) == Handle(policy, Reached(policy, requests[..i]), requests[i]).next
  {
    hide Handle;
    assert requests[..i + 1][..i] == requests[..i];
  }

  lemma ReplayAnswered(policy: Policy, s: Store, ctx: Context, b: ImportBatch, batchId: Id)
    requires Inv(policy, s) && ValidBatch(b) && ctx.HasAccess(b.clientId) && ctx.principal.firmId == b.firmId
    requires Holds(s, b, batchId)
    ensures ImportReply(s, ctx, b) == Reply(s, None)
  {
    hide Inv, ValidBatch, BatchRow, MatchesExisting, SameBatchKey, FindBatch, ImportNext, BatchPersists;
    InvMeetsConstraints(policy, s);
    assert BatchesPersist(s.batches);
    FoundIs(s.batches, BatchRow(b), batchId);
  }

  // ----- every resubmission

  lemma StoredKeyAnswer(s: Store, ctx: Context, b: ImportBatch)
    requires ValidBatch(b) && ctx.HasAccess(b.clientId) && ctx.principal.firmId == b.firmId
    requires FindBatch(s.batches, BatchRow(b)).Some?
    ensures var id := FindBatch(s.batches, BatchRow(b)).value;
      && id < |s.batches| && SameBatchKey(s.batches[id], BatchRow(b))
      && ImportReply(s, ctx, b) ==
        if MatchesExisting(b, s.batches[id], TransactionsOf(s.transactions, id)) then Reply(s, None)
        else Reply(s, Some(BankImportBatchConflict))
  {
    hide ValidBatch, BatchRow, MatchesExisting, SameBatchKey, FindBatch, Constraints, ImportNext;
    FoundBatch(s.batches, BatchRow(b));
  }

  /** After any run, a submission whose key is stored is answered unchanged exactly when it is
      recognised, and refused as a conflict otherwise; with distinct stripped ids that means the
      same header and the same values under each id, and with a repeated one it never does. */
  lemma ResubmissionExact(policy: Policy, requests: seq<Request>, caller: Context, b: ImportBatch)
    requires ValidBatch(b) && caller.HasAccess(b.clientId) && caller.principal.firmId == b.firmId
    requires FindBatch(Reached(policy, requests).batches, BatchRow(b)).Some?
    ensures var s := Reached(policy, requests);
      var id := FindBatch(s.batches, BatchRow(b)).value;
      var rows := TransactionsOf(s.transactions, id);
      var reply := Handle(policy, s, Request(caller, Import(b)));
      && id < |s.batches| && SameBatchKey(s.batches[id], BatchRow(b)) && reply.next == s
      && reply.error == (if MatchesExisting(b, s.batches[id], rows) then None else Some(BankImportBatchConflict))
      && (DistinctStripped(b.transactions) ==>
            (reply.error.None? <==> SameHeader(b, s.batches[id]) && Submitted(b.transactions) == Persisted(rows)))
      && (reply.error.None? ==>
            (Submitted(b.transactions) == Persisted(rows) <==> DistinctStripped(b.transactions)))
  {
    hide Run, Handle, ValidBatch, BatchRow, MatchesExisting, SameBatchKey, FindBatch, ImportReply, EvidenceInv,
      ReviewInv, MatchRunsInv, ReviewsInv, TransactionsInv, Submitted, Persisted, DistinctStripped, DistinctRows;
    var s := Reached(policy, requests);
    ReachedKeeps(policy, requests);
    ImportHandled(policy, s, caller, b);
    StoredKeyAnswer(s, caller, b);
    var id := FindBatch(s.batches, BatchRow(b)).value;
    StoredRowsDistinct(s.batches, s.transactions, id);
    MatchesExistingExact(b, s.batches[id], TransactionsOf(s.transactions, id));
  }
}
