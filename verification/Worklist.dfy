/** The reconciliation worklist: one item per bank transaction, with its projected state. */
module Worklist {
  import opened Prelude
  import opened Engine
  import opened Matching
  import opened Store
  import opened EvidenceCalls
  import opened ReconciliationCalls
  import opened EvidenceInvariant
  import opened ReviewInvariant
  import opened ReconciliationInvariant
  import opened Reachability

  datatype WorkflowState =
    | NotEvaluated
    | EvaluatedUnmatched
    | EvaluatedWithCandidates
    | InReview
    | InDispute
    | Reconciled
    | ResolvedUnmatched

  /** Rows are named by their ids. */
  datatype WorklistItem = WorklistItem(
    transactionId: Id,
    state: WorkflowState,
    latestRun: Option<Id>,
    review: Option<Id>,
    outcome: Option<Id>,
    lastActivity: nat)

  function ProjectState(run: Option<MatchRun>, review: Option<ReconciliationReview>): WorkflowState {
    if review.Some? then
      match review.value.status
      case ReviewOpen => InReview
      case ReviewDisputed => InDispute
      case ReviewMatched => Reconciled
      case ReviewUnmatched => ResolvedUnmatched
    else if run.None? then NotEvaluated
    else if run.value.result.status == CandidatesAvailable then EvaluatedWithCandidates
    else EvaluatedUnmatched
  }

  function LatestStamp(created: nat, stamps: seq<Option<nat>>): nat {
    if stamps == [] then created
    else
      var latest := LatestStamp(created, stamps[..|stamps| - 1]);
      var stamp := stamps[|stamps| - 1];
      if stamp.Some? && stamp.value > latest then stamp.value else latest
  }

  /** The last activity is the largest of the timestamps there are. */
  lemma {:induction false} LatestIsMaximum(created: nat, stamps: seq<Option<nat>>)
    ensures var latest := LatestStamp(created, stamps);
      && created <= latest
      && (forall i | 0 <= i < |stamps| :: stamps[i].Some? ==> stamps[i].value <= latest)
      && (latest == created || exists i | 0 <= i < |stamps| :: stamps[i] == Some(latest))
  {
    if stamps != [] {
      var n := |stamps| - 1;
      LatestIsMaximum(created, stamps[..n]);
      var latest := LatestStamp(created, stamps);
      if latest != created && stamps[n] != Some(latest) {
        var i :| 0 <= i < n && stamps[..n][i] == Some(latest);
        assert stamps[i] == Some(latest);
      }
    }
  }

  /** _last_activity_at. */
  method LastActivity(created: nat, stamps: seq<Option<nat>>) returns (latest: nat)
    ensures latest == LatestStamp(created, stamps)
  {
    latest := created;
    for i := 0 to |stamps|
      invariant latest == LatestStamp(created, stamps[..i])
    {
      assert stamps[..i + 1][..i] == stamps[..i];
      if stamps[i].Some? && stamps[i].value > latest {
        latest := stamps[i].value;
      }
    }
    assert stamps[..|stamps|] == stamps;
  }

  // ----- the newest row of a transaction in each table

  function LatestRun(runs: seq<MatchRun>, firmId: Id, clientId: Id, transactionId: Id): (found: Option<Id>)
    ensures found.Some? ==> found.value < |runs| && runs[found.value].transactionId == transactionId
  {
    if runs == [] then None
    else
      var n := |runs| - 1;
      if runs[n].firmId == firmId && runs[n].clientId == clientId && runs[n].transactionId == transactionId
      then Some(n) else LatestRun(runs[..n], firmId, clientId, transactionId)
  }

  function LatestReview(reviews: seq<ReconciliationReview>, firmId: Id, clientId: Id, transactionId: Id)
    : (found: Option<Id>)
    ensures found.Some? ==> found.value < |reviews| && reviews[found.value].transactionId == transactionId
  {
    if reviews == [] then None
    else
      var n := |reviews| - 1;
      if reviews[n].firmId == firmId && reviews[n].clientId == clientId && reviews[n].transactionId == transactionId
      then Some(n) else LatestReview(reviews[..n], firmId, clientId, transactionId)
  }

  function LatestSettlement(
      settlements: seq<ReconciliationOutcome>, firmId: Id, clientId: Id, transactionId: Id): (found: Option<Id>)
    ensures found.Some? ==>
      found.value < |settlements| && settlements[found.value].transactionId == transactionId
  {
    if settlements == [] then None
    else
      var n := |settlements| - 1;
      if settlements[n].firmId == firmId && settlements[n].clientId == clientId &&
         settlements[n].transactionId == transactionId
      then Some(n) else LatestSettlement(settlements[..n], firmId, clientId, transactionId)
  }

  ghost predicate RunsIndexed(found: map<Id, Id>, rows: seq<MatchRun>, firmId: Id, clientId: Id) {
    forall t :: LatestRun(rows, firmId, clientId, t) == if t in found then Some(found[t]) else None
  }

  ghost predicate ReviewsIndexed(found: map<Id, Id>, rows: seq<ReconciliationReview>, firmId: Id, clientId: Id) {
    forall t :: LatestReview(rows, firmId, clientId, t) == if t in found then Some(found[t]) else None
  }

  ghost predicate SettlementsIndexed(found: map<Id, Id>, rows: seq<ReconciliationOutcome>, firmId: Id, clientId: Id) {
    forall t :: LatestSettlement(rows, firmId, clientId, t) == if t in found then Some(found[t]) else None
  }

  // ----- the transactions in listing order

  /** Newest booking date first, then newest creation, then highest id. */
  predicate ListedBefore(transactions: seq<TransactionRecord>, a: Id, b: Id)
    requires a < |transactions| && b < |transactions|
  {
    var t, u := transactions[a], transactions[b];
    t.value.bookingDate > u.value.bookingDate ||
    (t.value.bookingDate == u.value.bookingDate &&
     (t.createdAt > u.createdAt || (t.createdAt == u.createdAt && a > b)))
  }

  ghost predicate InRange(transactions: seq<TransactionRecord>, ids: seq<Id>) {
    forall i | 0 <= i < |ids| :: ids[i] < |transactions|
  }

  function Place(transactions: seq<TransactionRecord>, ids: seq<Id>, id: Id): (placed: seq<Id>)
    requires InRange(transactions, ids) && id < |transactions|
    ensures InRange(transactions, placed) && multiset(placed) == multiset(ids) + multiset{id}
  {
    if ids == [] then [id]
    else if ListedBefore(transactions, id, ids[0]) then [id] + ids
    else
      assert ids == [ids[0]] + ids[1..];
      [ids[0]] + Place(transactions, ids[1..], id)
  }

  /** The ids of the client's transactions among the first n, in listing order. */
  function ListTransactions(transactions: seq<TransactionRecord>, firmId: Id, clientId: Id, n: nat): (ids: seq<Id>)
    requires n <= |transactions|
    ensures InRange(transactions, ids)
  {
    if n == 0 then []
    else
      var rest := ListTransactions(transactions, firmId, clientId, n - 1);
      if transactions[n - 1].value.firmId == firmId && transactions[n - 1].value.clientId == clientId
      then Place(transactions, rest, n - 1) else rest
  }

  ghost predicate Listed(transactions: seq<TransactionRecord>, ids: seq<Id>)
    requires InRange(transactions, ids)
  {
    forall i, j | 0 <= i < j < |ids| :: ListedBefore(transactions, ids[i], ids[j])
  }

  lemma PlacedMember(transactions: seq<TransactionRecord>, ids: seq<Id>, id: Id, x: Id)
    requires InRange(transactions, ids) && id < |transactions|
    ensures x in Place(transactions, ids, id) <==> x in ids || x == id
  {
    assert x in Place(transactions, ids, id) <==> x in multiset(Place(transactions, ids, id));
  }

  lemma HeadListed(transactions: seq<TransactionRecord>, head: Id, rest: seq<Id>)
    requires head < |transactions| && InRange(transactions, rest) && Listed(transactions, rest)
    requires forall j | 0 <= j < |rest| :: ListedBefore(transactions, head, rest[j])
    ensures Listed(transactions, [head] + rest)
  {
    hide ListedBefore;
  }

  lemma BeforeAll(transactions: seq<TransactionRecord>, ids: seq<Id>, id: Id)
    requires InRange(transactions, ids) && Listed(transactions, ids) && id < |transactions| && ids != []
    requires ListedBefore(transactions, id, ids[0])
    ensures forall j | 0 <= j < |ids| :: ListedBefore(transactions, id, ids[j])
  {
    forall j | 0 <= j < |ids|
      ensures ListedBefore(transactions, id, ids[j])
    {
      assert j > 0 ==> ListedBefore(transactions, ids[0], ids[j]);
    }
  }

  lemma NotBefore(transactions: seq<TransactionRecord>, a: Id, b: Id)
    requires a < |transactions| && b < |transactions| && a != b && !ListedBefore(transactions, a, b)
    ensures ListedBefore(transactions, b, a)
  {
  }

  lemma {:induction false} PlaceKeepsOrder(transactions: seq<TransactionRecord>, ids: seq<Id>, id: Id)
    requires InRange(transactions, ids) && Listed(transactions, ids) && id < |transactions| && id !in ids
    ensures Listed(transactions, Place(transactions, ids, id))
  {
    hide ListedBefore;
    if ids == [] {
    } else if ListedBefore(transactions, id, ids[0]) {
      BeforeAll(transactions, ids, id);
      HeadListed(transactions, id, ids);
    } else {
      NotBefore(transactions, id, ids[0]);
      PlaceKeepsOrder(transactions, ids[1..], id);
      var rest := Place(transactions, ids[1..], id);
      forall j | 0 <= j < |rest|
        ensures ListedBefore(transactions, ids[0], rest[j])
      {
        PlacedMember(transactions, ids[1..], id, rest[j]);
        if rest[j] != id {
          var k :| 0 <= k < |ids[1..]| && ids[1..][k] == rest[j];
          assert ListedBefore(transactions, ids[0], ids[k + 1]);
        }
      }
      HeadListed(transactions, ids[0], rest);
    }
  }

  predicate BelongsTo(t: TransactionRecord, firmId: Id, clientId: Id) {
    t.value.firmId == firmId && t.value.clientId == clientId
  }

  lemma ListStep(transactions: seq<TransactionRecord>, firmId: Id, clientId: Id, n: nat)
    requires n <= |transactions|
    ensures ListTransactions(transactions, firmId, clientId, n) ==
      if n == 0 then []
      else if BelongsTo(transactions[n - 1], firmId, clientId)
        then Place(transactions, ListTransactions(transactions, firmId, clientId, n - 1), n - 1)
      else ListTransactions(transactions, firmId, clientId, n - 1)
  {
    hide Place;
  }

  lemma {:induction false} ListingMembers(
      transactions: seq<TransactionRecord>, firmId: Id, clientId: Id, n: nat, id: Id)
    requires n <= |transactions|
    ensures id in ListTransactions(transactions, firmId, clientId, n) <==>
      id < n && BelongsTo(transactions[id], firmId, clientId)
  {
    hide Place, InRange, ListTransactions;
    ListStep(transactions, firmId, clientId, n);
    if n > 0 {
      ListingMembers(transactions, firmId, clientId, n - 1, id);
      PlacedMember(transactions, ListTransactions(transactions, firmId, clientId, n - 1), n - 1, id);
    }
  }

  /** The listing is in order, so without repetition, and names exactly the client's transactions. */
  lemma {:induction false} ListingExact(transactions: seq<TransactionRecord>, firmId: Id, clientId: Id, n: nat)
    requires n <= |transactions|
    ensures Listed(transactions, ListTransactions(transactions, firmId, clientId, n))
    ensures forall id: Id :: id in ListTransactions(transactions, firmId, clientId, n) <==>
      (id < n && BelongsTo(transactions[id], firmId, clientId))
  {
    hide Place, ListedBefore;
    forall id: Id
      ensures id in ListTransactions(transactions, firmId, clientId, n) <==>
        (id < n && BelongsTo(transactions[id], firmId, clientId))
    {
      ListingMembers(transactions, firmId, clientId, n, id);
    }
    if n > 0 {
      ListingExact(transactions, firmId, clientId, n - 1);
      PlaceKeepsOrder(transactions, ListTransactions(transactions, firmId, clientId, n - 1), n - 1);
    }
  }

  /** Newest booking date first, on one day the newest record first, and of those the highest id. */
  lemma ListingNewestFirst(transactions: seq<TransactionRecord>, firmId: Id, clientId: Id, n: nat, i: nat, j: nat)
    requires n <= |transactions| && i < j < |ListTransactions(transactions, firmId, clientId, n)|
    ensures var ids := ListTransactions(transactions, firmId, clientId, n);
      var t, u := transactions[ids[i]], transactions[ids[j]];
      && t.value.bookingDate >= u.value.bookingDate
      && (t.value.bookingDate == u.value.bookingDate ==> t.createdAt >= u.createdAt)
      && (t.value.bookingDate == u.value.bookingDate && t.createdAt == u.createdAt ==> ids[i] > ids[j])
  {
    hide ListTransactions;
    ListingExact(transactions, firmId, clientId, n);
    var ids := ListTransactions(transactions, firmId, clientId, n);
    assert ListedBefore(transactions, ids[i], ids[j]);
  }

  // ----- items

  function StateOf(s: Store, run: Option<Id>, review: Option<Id>): WorkflowState
    requires (run.Some? ==> run.value < |s.matchRuns|) && (review.Some? ==> review.value < |s.reviews|)
  {
    ProjectState(if run.Some? then Some(s.matchRuns[run.value]) else None,
                 if review.Some? then Some(s.reviews[review.value]) else None)
  }

  /** When the run was made, the review last changed and the outcome was recorded. */
  function StampsOf(s: Store, run: Option<Id>, review: Option<Id>, outcome: Option<Id>): seq<Option<nat>>
    requires (run.Some? ==> run.value < |s.matchRuns|) && (review.Some? ==> review.value < |s.reviews|)
    requires outcome.Some? ==> outcome.value < |s.settlements|
  {
    [if run.Some? then Some(s.matchRuns[run.value].createdAt) else None,
     if review.Some? then Some(s.reviews[review.value].updatedAt) else None,
     if outcome.Some? then Some(s.settlements[outcome.value].createdAt) else None]
  }

  function ItemFor(s: Store, firmId: Id, clientId: Id, id: Id): WorklistItem
    requires id < |s.transactions|
  {
    var run := LatestRun(s.matchRuns, firmId, clientId, id);
    var review := LatestReview(s.reviews, firmId, clientId, id);
    var outcome := LatestSettlement(s.settlements, firmId, clientId, id);
    WorklistItem(id, StateOf(s, run, review), run, review, outcome,
                 LatestStamp(s.transactions[id].createdAt, StampsOf(s, run, review, outcome)))
  }

  function Lookup(found: map<Id, Id>, id: Id): Option<Id> {
    if id in found then Some(found[id]) else None
  }

  /** What the three dictionaries give for a transaction is what its item is made of. */
  lemma ItemLookedUp(
      s: Store, firmId: Id, clientId: Id, runs: map<Id, Id>, reviews: map<Id, Id>, outcomes: map<Id, Id>, id: Id)
    requires id < |s.transactions|
    requires RunsIndexed(runs, s.matchRuns, firmId, clientId)
    requires ReviewsIndexed(reviews, s.reviews, firmId, clientId)
    requires SettlementsIndexed(outcomes, s.settlements, firmId, clientId)
    ensures Lookup(runs, id) == LatestRun(s.matchRuns, firmId, clientId, id)
    ensures Lookup(reviews, id) == LatestReview(s.reviews, firmId, clientId, id)
    ensures Lookup(outcomes, id) == LatestSettlement(s.settlements, firmId, clientId, id)
  {
    hide LatestRun, LatestReview, LatestSettlement;
  }

  /** The items of the listed transactions that are in the wanted state. */
  function ItemsFor(s: Store, firmId: Id, clientId: Id, ids: seq<Id>, state: Option<WorkflowState>)
    : seq<WorklistItem>
    requires InRange(s.transactions, ids)
  {
    if ids == [] then []
    else
      var n := |ids| - 1;
      var item := ItemFor(s, firmId, clientId, ids[n]);
      ItemsFor(s, firmId, clientId, ids[..n], state) +
      if state.None? || item.state == state.value then [item] else []
  }

  lemma ItemsStep(s: Store, firmId: Id, clientId: Id, ids: seq<Id>, n: nat, state: Option<WorkflowState>)
    requires InRange(s.transactions, ids) && n < |ids|
    ensures var item := ItemFor(s, firmId, clientId, ids[n]);
      ItemsFor(s, firmId, clientId, ids[..n + 1], state) ==
      ItemsFor(s, firmId, clientId, ids[..n], state) +
      if state.None? || item.state == state.value then [item] else []
  {
    hide ItemFor;
    assert ids[..n + 1][..n] == ids[..n];
  }

  lemma {:induction false} ItemsPrefix(
      s: Store, firmId: Id, clientId: Id, ids: seq<Id>, n: nat, state: Option<WorkflowState>)
    requires InRange(s.transactions, ids) && n <= |ids|
    ensures ItemsFor(s, firmId, clientId, ids[..n], state) <= ItemsFor(s, firmId, clientId, ids, state)
    decreases |ids|
  {
    if n < |ids| {
      ItemsPrefix(s, firmId, clientId, ids[..|ids| - 1], n, state);
      assert ids[..|ids| - 1][..n] == ids[..n];
    } else {
      assert ids[..n] == ids;
    }
  }

  function FirstItems(items: seq<WorklistItem>, limit: nat): seq<WorklistItem> {
    if |items| <= limit then items else items[..limit]
  }

  lemma FirstItemsFound(items: seq<WorklistItem>, all: seq<WorklistItem>, limit: nat)
    requires items <= all && |items| == limit
    ensures FirstItems(all, limit) == items
  {
  }

  /** list_items: three dictionaries, then one pass that stops as soon as the limit is reached.
      The early break loses nothing: the result is the first limit items of the whole list. */
  method ListItems(s: Store, ctx: Context, clientId: Id, state: Option<WorkflowState>, limit: int)
    returns (reply: Result<seq<WorklistItem>>)
    ensures !ctx.HasAccess(clientId) ==> reply == Err(Forbidden)
    ensures ctx.HasAccess(clientId) && !(1 <= limit <= 500) ==> reply == Err(InvalidLimit)
    ensures ctx.HasAccess(clientId) && 1 <= limit <= 500 ==>
      var firmId := ctx.principal.firmId;
      var ids := ListTransactions(s.transactions, firmId, clientId, |s.transactions|);
      reply == Ok(FirstItems(ItemsFor(s, firmId, clientId, ids, state), limit))
  {
    hide LatestRun, LatestReview, LatestSettlement, LatestStamp, ListTransactions, ItemsFor, FirstItems,
      StateOf, StampsOf, RunsIndexed, ReviewsIndexed, SettlementsIndexed, Lookup;
    if !ctx.HasAccess(clientId) { return Err(Forbidden); }
    if limit < 1 || limit > 500 { return Err(InvalidLimit); }
    var firmId := ctx.principal.firmId;
    var latestRuns := LatestRuns(s, firmId, clientId);
    var reviews := ReviewsByTransaction(s, firmId, clientId);
    var outcomes := SettlementsByTransaction(s, firmId, clientId);
    var ids := ListTransactions(s.transactions, firmId, clientId, |s.transactions|);
    var items := [];
    NoItems(s, firmId, clientId, state);
    for n := 0 to |ids|
      invariant items == ItemsFor(s, firmId, clientId, ids[..n], state) && |items| < limit
    {
      var id := ids[n];
      ItemLookedUp(s, firmId, clientId, latestRuns, reviews, outcomes, id);
      ItemsStep(s, firmId, clientId, ids, n, state);
      var run, review, outcome := Lookup(latestRuns, id), Lookup(reviews, id), Lookup(outcomes, id);
      if state.Some? && StateOf(s, run, review) != state.value { continue; }
      var latest := LastActivity(s.transactions[id].createdAt, StampsOf(s, run, review, outcome));
      items := items + [WorklistItem(id, StateOf(s, run, review), run, review, outcome, latest)];
      if |items| >= limit {
        ItemsPrefix(s, firmId, clientId, ids, n + 1, state);
        FirstItemsFound(items, ItemsFor(s, firmId, clientId, ids, state), limit);
        return Ok(items);
      }
    }
    assert ids[..|ids|] == ids;
    AllFit(items, limit);
    return Ok(items);
  }

  lemma NoItems(s: Store, firmId: Id, clientId: Id, state: Option<WorkflowState>)
    ensures ItemsFor(s, firmId, clientId, [], state) == []
  {
  }

  lemma AllFit(items: seq<WorklistItem>, limit: nat)
    requires |items| < limit
    ensures FirstItems(items, limit) == items
  {
  }

  method LatestRuns(s: Store, firmId: Id, clientId: Id) returns (found: map<Id, Id>)
    ensures RunsIndexed(found, s.matchRuns, firmId, clientId)
  {
    found := map[];
    for k := 0 to |s.matchRuns|
      invariant RunsIndexed(found, s.matchRuns[..k], firmId, clientId)
    {
      assert s.matchRuns[..k + 1][..k] == s.matchRuns[..k];
      if s.matchRuns[k].firmId == firmId && s.matchRuns[k].clientId == clientId {
        found := found[s.matchRuns[k].transactionId := k];
      }
    }
    assert s.matchRuns[..|s.matchRuns|] == s.matchRuns;
  }

  method ReviewsByTransaction(s: Store, firmId: Id, clientId: Id) returns (found: map<Id, Id>)
    ensures ReviewsIndexed(found, s.reviews, firmId, clientId)
  {
    found := map[];
    for k := 0 to |s.reviews|
      invariant ReviewsIndexed(found, s.reviews[..k], firmId, clientId)
    {
      assert s.reviews[..k + 1][..k] == s.reviews[..k];
      if s.reviews[k].firmId == firmId && s.reviews[k].clientId == clientId {
        found := found[s.reviews[k].transactionId := k];
      }
    }
    assert s.reviews[..|s.reviews|] == s.reviews;
  }

  method SettlementsByTransaction(s: Store, firmId: Id, clientId: Id) returns (found: map<Id, Id>)
    ensures SettlementsIndexed(found, s.settlements, firmId, clientId)
  {
    found := map[];
    for k := 0 to |s.settlements|
      invariant SettlementsIndexed(found, s.settlements[..k], firmId, clientId)
    {
      assert s.settlements[..k + 1][..k] == s.settlements[..k];
      if s.settlements[k].firmId == firmId && s.settlements[k].clientId == clientId {
        found := found[s.settlements[k].transactionId := k];
      }
    }
    assert s.settlements[..|s.settlements|] == s.settlements;
  }

  // ----- the projected state against the recorded outcome

  lemma {:induction false} ReviewListed(
      reviews: seq<ReconciliationReview>, firmId: Id, clientId: Id, transactionId: Id, k: nat)
    requires k < |reviews| && reviews[k].transactionId == transactionId && ReviewsPersist(reviews)
    requires reviews[k].firmId == firmId && reviews[k].clientId == clientId
    ensures LatestReview(reviews, firmId, clientId, transactionId) == Some(k)
  {
    if k < |reviews| - 1 {
      ReviewListed(reviews[..|reviews| - 1], firmId, clientId, transactionId, k);
    }
  }

  lemma {:induction false} SettlementListed(
      settlements: seq<ReconciliationOutcome>, firmId: Id, clientId: Id, transactionId: Id, k: nat)
    requires k < |settlements| && settlements[k].transactionId == transactionId
    requires settlements[k].firmId == firmId && settlements[k].clientId == clientId
    ensures LatestSettlement(settlements, firmId, clientId, transactionId).Some?
  {
    if k < |settlements| - 1 {
      SettlementListed(settlements[..|settlements| - 1], firmId, clientId, transactionId, k);
    }
  }

  lemma {:induction false} LatestReviewScope(
      reviews: seq<ReconciliationReview>, firmId: Id, clientId: Id, transactionId: Id)
    ensures var found := LatestReview(reviews, firmId, clientId, transactionId);
      found.Some? ==> reviews[found.value].firmId == firmId && reviews[found.value].clientId == clientId
  {
    if reviews != [] {
      LatestReviewScope(reviews[..|reviews| - 1], firmId, clientId, transactionId);
    }
  }

  lemma {:induction false} LatestSettlementScope(
      settlements: seq<ReconciliationOutcome>, firmId: Id, clientId: Id, transactionId: Id)
    ensures var found := LatestSettlement(settlements, firmId, clientId, transactionId);
      found.Some? ==> settlements[found.value].firmId == firmId && settlements[found.value].clientId == clientId
  {
    if settlements != [] {
      LatestSettlementScope(settlements[..|settlements| - 1], firmId, clientId, transactionId);
    }
  }

  /** The state is computed without looking at the outcome, yet in every reachable state it
      agrees with it: reconciled exactly for a matched outcome, resolved unmatched exactly for
      an unmatched one, and any other state exactly when none is recorded. */
  lemma StateAgreesWithOutcome(policy: Policy, s: Store, firmId: Id, clientId: Id, id: Id)
    requires Inv(policy, s) && id < |s.transactions|
    ensures var item := ItemFor(s, firmId, clientId, id);
      && (item.outcome.None? <==> item.state !in {Reconciled, ResolvedUnmatched})
      && (item.state == Reconciled ==> s.settlements[item.outcome.value].matched.Some?)
      && (item.state == ResolvedUnmatched ==> s.settlements[item.outcome.value].matched.None?)
  {
    hide EvidenceInv, ReviewInv, TransactionsInv, MatchRunsInv, ActionsReplay, LatestReview, LatestSettlement;
    LatestReviewScope(s.reviews, firmId, clientId, id);
    LatestSettlementScope(s.settlements, firmId, clientId, id);
    var review := LatestReview(s.reviews, firmId, clientId, id);
    var outcome := LatestSettlement(s.settlements, firmId, clientId, id);
    if outcome.Some? {
      var x := s.settlements[outcome.value];
      assert ValidSettlement(s.reviews, x);
      ReviewListed(s.reviews, firmId, clientId, id, x.reviewId);
    }
    if review.Some? && IsTerminalReview(s.reviews[review.value].status) {
      SettlementTerminal(s, review.value);
      var k :| 0 <= k < |s.settlements| && s.settlements[k].reviewId == review.value;
      assert ValidSettlement(s.reviews, s.settlements[k]);
      SettlementListed(s.settlements, firmId, clientId, id, k);
    }
  }

  // ----- what an item says of the rows

  /** Row k is the transaction's newest match run, review or settlement within the client. */
  predicate IsNewestRun(s: Store, firmId: Id, clientId: Id, id: Id, k: Id) {
    k < |s.matchRuns| && s.matchRuns[k].transactionId == id && s.matchRuns[k].firmId == firmId &&
    s.matchRuns[k].clientId == clientId &&
    forall j | k < j < |s.matchRuns| ::
      !(s.matchRuns[j].transactionId == id && s.matchRuns[j].firmId == firmId && s.matchRuns[j].clientId == clientId)
  }

  predicate IsItsReview(s: Store, firmId: Id, clientId: Id, id: Id, k: Id) {
    k < |s.reviews| && s.reviews[k].transactionId == id && s.reviews[k].firmId == firmId &&
    s.reviews[k].clientId == clientId
  }

  predicate IsItsSettlement(s: Store, firmId: Id, clientId: Id, id: Id, k: Id) {
    k < |s.settlements| && s.settlements[k].transactionId == id && s.settlements[k].firmId == firmId &&
    s.settlements[k].clientId == clientId
  }

  lemma {:induction false} NewestRun(rows: seq<MatchRun>, firmId: Id, clientId: Id, id: Id)
    ensures var found := LatestRun(rows, firmId, clientId, id);
      && (found.Some? ==> rows[found.value].firmId == firmId && rows[found.value].clientId == clientId)
      && forall j | (if found.Some? then found.value + 1 else 0) <= j < |rows| ::
        !(rows[j].transactionId == id && rows[j].firmId == firmId && rows[j].clientId == clientId)
  {
    if rows != [] {
      NewestRun(rows[..|rows| - 1], firmId, clientId, id);
    }
  }

  lemma {:induction false} NewestReview(rows: seq<ReconciliationReview>, firmId: Id, clientId: Id, id: Id)
    ensures LatestReview(rows, firmId, clientId, id).None? ==>
      forall j | 0 <= j < |rows| ::
        !(rows[j].transactionId == id && rows[j].firmId == firmId && rows[j].clientId == clientId)
  {
    if rows != [] {
      NewestReview(rows[..|rows| - 1], firmId, clientId, id);
    }
  }

  lemma {:induction false} NewestSettlement(rows: seq<ReconciliationOutcome>, firmId: Id, clientId: Id, id: Id)
    ensures LatestSettlement(rows, firmId, clientId, id).None? ==>
      forall j | 0 <= j < |rows| ::
        !(rows[j].transactionId == id && rows[j].firmId == firmId && rows[j].clientId == clientId)
  {
    if rows != [] {
      NewestSettlement(rows[..|rows| - 1], firmId, clientId, id);
    }
  }

  /** An item names the transaction's newest match run and its review and settlement, if there
      are any. */
  lemma ItemNames(s: Store, firmId: Id, clientId: Id, id: Id)
    requires id < |s.transactions|
    ensures var item := ItemFor(s, firmId, clientId, id);
      && item.transactionId == id
      && (forall k: Id :: item.latestRun == Some(k) <==> IsNewestRun(s, firmId, clientId, id, k))
      && (item.review.Some? ==> IsItsReview(s, firmId, clientId, id, item.review.value))
      && (item.review.None? ==> forall k: Id :: !IsItsReview(s, firmId, clientId, id, k))
      && (item.outcome.Some? ==> IsItsSettlement(s, firmId, clientId, id, item.outcome.value))
      && (item.outcome.None? ==> forall k: Id :: !IsItsSettlement(s, firmId, clientId, id, k))
  {
    hide LatestRun, LatestReview, LatestSettlement, LatestStamp, ProjectState;
    NewestRun(s.matchRuns, firmId, clientId, id);
    NewestReview(s.reviews, firmId, clientId, id);
    NewestSettlement(s.settlements, firmId, clientId, id);
    LatestReviewScope(s.reviews, firmId, clientId, id);
    LatestSettlementScope(s.settlements, firmId, clientId, id);
  }

  /** What each state says of the review and, without one, of the newest match run; and the last
      activity is the newest of the times of those rows. */
  lemma ItemStates(s: Store, firmId: Id, clientId: Id, id: Id)
    requires id < |s.transactions|
    ensures var item := ItemFor(s, firmId, clientId, id);
      var review := if item.review.Some? then Some(s.reviews[item.review.value].status) else None;
      && (item.state == InReview <==> review == Some(ReviewOpen))
      && (item.state == InDispute <==> review == Some(ReviewDisputed))
      && (item.state == Reconciled <==> review == Some(ReviewMatched))
      && (item.state == ResolvedUnmatched <==> review == Some(ReviewUnmatched))
      && (item.state == NotEvaluated <==> item.review.None? && item.latestRun.None?)
      && (item.state == EvaluatedWithCandidates <==>
            item.review.None? && item.latestRun.Some? &&
            s.matchRuns[item.latestRun.value].result.status == CandidatesAvailable)
      && (item.state == EvaluatedUnmatched <==>
            item.review.None? && item.latestRun.Some? &&
            s.matchRuns[item.latestRun.value].result.status == NoCandidates)
    ensures var item := ItemFor(s, firmId, clientId, id);
      var times := {s.transactions[id].createdAt} +
        (if item.latestRun.Some? then {s.matchRuns[item.latestRun.value].createdAt} else {}) +
        (if item.review.Some? then {s.reviews[item.review.value].updatedAt} else {}) +
        (if item.outcome.Some? then {s.settlements[item.outcome.value].createdAt} else {});
      item.lastActivity in times && forall time | time in times :: time <= item.lastActivity
  {
    hide LatestRun, LatestReview, LatestSettlement, LatestStamp;
    var run, review, outcome := LatestRun(s.matchRuns, firmId, clientId, id),
      LatestReview(s.reviews, firmId, clientId, id), LatestSettlement(s.settlements, firmId, clientId, id);
    var stamps := StampsOf(s, run, review, outcome);
    LatestIsMaximum(s.transactions[id].createdAt, stamps);
    assert stamps[0] == if run.Some? then Some(s.matchRuns[run.value].createdAt) else None;
    assert stamps[1] == if review.Some? then Some(s.reviews[review.value].updatedAt) else None;
    assert stamps[2] == if outcome.Some? then Some(s.settlements[outcome.value].createdAt) else None;
  }

  /** The list holds an item exactly for the ids whose state is wanted. */
  lemma {:induction false} ItemsExact(
      s: Store, firmId: Id, clientId: Id, ids: seq<Id>, state: Option<WorkflowState>, item: WorklistItem)
    requires InRange(s.transactions, ids)
    ensures item in ItemsFor(s, firmId, clientId, ids, state) <==>
      item.transactionId in ids && item.transactionId < |s.transactions| &&
      item == ItemFor(s, firmId, clientId, item.transactionId) && (state.None? || item.state == state.value)
  {
    hide ItemFor;
    if ids != [] {
      var n := |ids| - 1;
      ItemsExact(s, firmId, clientId, ids[..n], state, item);
      ItemsStep(s, firmId, clientId, ids, n, state);
      ItemNamed(s, firmId, clientId, ids[n]);
      assert ids == ids[..n] + [ids[n]] && ids[..n + 1] == ids;
    }
  }

  lemma ItemNamed(s: Store, firmId: Id, clientId: Id, id: Id)
    requires id < |s.transactions|
    ensures ItemFor(s, firmId, clientId, id).transactionId == id
  {
  }
}
