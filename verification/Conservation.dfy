/** Matched bank money equals approved journal money, each journal counted once. */
module Conservation {
  import opened Prelude
  import opened Engine
  import opened ReviewPolicy
  import opened Matching
  import opened Store
  import opened Targets
  import opened EvidenceInvariant
  import opened ReconciliationInvariant
  import opened System
  import opened Reachability
  import opened ApprovedEvidence
  import opened Settlements

  /** The sum of the amounts at the positions in a set. */
  function SumAt(amounts: seq<int>, at: set<nat>): int {
    if amounts == [] then 0
    else
      var n := |amounts| - 1;
      SumAt(amounts[..n], at) + if n in at then amounts[n] else 0
  }

  lemma {:induction false} SumAtInsert(amounts: seq<int>, at: set<nat>, i: nat)
    requires i < |amounts| && i !in at
    ensures SumAt(amounts, at + {i}) == SumAt(amounts, at) + amounts[i]
  {
    var n := |amounts| - 1;
    if i < n {
      SumAtInsert(amounts[..n], at, i);
    } else {
      SumAtOutside(amounts[..n], at, i);
    }
  }

  lemma {:induction false} SumAtOutside(amounts: seq<int>, at: set<nat>, i: nat)
    requires i >= |amounts|
    ensures SumAt(amounts, at + {i}) == SumAt(amounts, at)
  {
    if amounts != [] {
      SumAtOutside(amounts[..|amounts| - 1], at, i);
    }
  }

  function Total(amounts: seq<int>): int {
    if amounts == [] then 0 else Total(amounts[..|amounts| - 1]) + amounts[|amounts| - 1]
  }

  lemma {:induction false} SumAtBelowTotal(amounts: seq<int>, at: set<nat>)
    requires forall i | 0 <= i < |amounts| :: amounts[i] >= 0
    ensures SumAt(amounts, at) <= Total(amounts)
  {
    if amounts != [] {
      SumAtBelowTotal(amounts[..|amounts| - 1], at);
    }
  }

  lemma {:induction false} SumAtEmpty(amounts: seq<int>)
    ensures SumAt(amounts, {}) == 0
  {
    if amounts != [] {
      SumAtEmpty(amounts[..|amounts| - 1]);
    }
  }

  // ----- the two ledgers of one client and currency

  /** What a bank transaction contributes to its client's total in a currency. */
  function BankAmount(t: BankTransaction, firmId: Id, clientId: Id, currency: string): int {
    if t.firmId == firmId && t.clientId == clientId && NormalizedCurrency(t.currency) == currency then t.amount else 0
  }

  function BankAmounts(transactions: seq<TransactionRecord>, firmId: Id, clientId: Id, currency: string): seq<int> {
    seq(|transactions|, i requires 0 <= i < |transactions| =>
      BankAmount(transactions[i].value, firmId, clientId, currency))
  }

  /** What an outcome's journal contributes: its total debits, if approved in that currency. */
  function JournalAmount(
      decisions: seq<DecisionRun>, o: ReviewOutcome, firmId: Id, clientId: Id, currency: string): int
  {
    var journal := JournalOf(decisions, o.decisionRunId);
    if o.IsApproval() && o.firmId == firmId && o.clientId == clientId && journal.Some? &&
       journal.value.currency == currency
    then journal.value.totalDebits else 0
  }

  function JournalAmounts(
      decisions: seq<DecisionRun>, outcomes: seq<ReviewOutcome>, firmId: Id, clientId: Id, currency: string): seq<int>
  {
    seq(|outcomes|, i requires 0 <= i < |outcomes| =>
      JournalAmount(decisions, outcomes[i], firmId, clientId, currency))
  }

  /** Transactions with a matched settlement among the first n. */
  function MatchedTransactions(settlements: seq<ReconciliationOutcome>): set<nat> {
    if settlements == [] then {}
    else
      var n := |settlements| - 1;
      MatchedTransactions(settlements[..n]) +
      if settlements[n].matched.Some? then {settlements[n].transactionId} else {}
  }

  function MatchedOutcomes(settlements: seq<ReconciliationOutcome>): set<nat> {
    if settlements == [] then {}
    else
      var n := |settlements| - 1;
      MatchedOutcomes(settlements[..n]) +
      if settlements[n].matched.Some? then {settlements[n].matched.value} else {}
  }

  lemma {:induction false} MatchedMembers(settlements: seq<ReconciliationOutcome>, id: nat)
    ensures id in MatchedTransactions(settlements) <==>
      exists k | 0 <= k < |settlements| :: settlements[k].matched.Some? && settlements[k].transactionId == id
    ensures id in MatchedOutcomes(settlements) <==>
      exists k | 0 <= k < |settlements| :: settlements[k].matched == Some(id)
  {
    if settlements != [] {
      var n := |settlements| - 1;
      MatchedMembers(settlements[..n], id);
      assert forall k | 0 <= k < n :: settlements[..n][k] == settlements[k];
    }
  }

  lemma {:induction false} PrefixConserves(
      policy: Policy, s: Store, n: nat, firmId: Id, clientId: Id, currency: string)
    requires Inv(policy, s) && n <= |s.settlements|
    ensures SumAt(BankAmounts(s.transactions, firmId, clientId, currency), MatchedTransactions(s.settlements[..n])) ==
      SumAt(JournalAmounts(s.decisions, s.outcomes, firmId, clientId, currency), MatchedOutcomes(s.settlements[..n]))
  {
    hide Inv, SumAt, BankAmount, JournalAmount;
    var bank := BankAmounts(s.transactions, firmId, clientId, currency);
    var journals := JournalAmounts(s.decisions, s.outcomes, firmId, clientId, currency);
    if n == 0 {
      SumAtEmpty(bank);
      SumAtEmpty(journals);
    } else {
      var front := s.settlements[..n - 1];
      PrefixConserves(policy, s, n - 1, firmId, clientId, currency);
      assert s.settlements[..n][..n - 1] == front;
      var x := s.settlements[n - 1];
      if x.matched.Some? {
        TermConserves(policy, s, n - 1, firmId, clientId, currency);
        NewToPrefix(policy, s, n - 1);
        SumAtInsert(bank, MatchedTransactions(front), x.transactionId);
        SumAtInsert(journals, MatchedOutcomes(front), x.matched.value);
      } else {
        assert MatchedTransactions(s.settlements[..n]) == MatchedTransactions(front);
        assert MatchedOutcomes(s.settlements[..n]) == MatchedOutcomes(front);
      }
    }
  }

  lemma NewToPrefix(policy: Policy, s: Store, k: nat)
    requires Inv(policy, s) && IsMatched(s, k)
    ensures s.settlements[k].transactionId !in MatchedTransactions(s.settlements[..k])
    ensures s.settlements[k].matched.value !in MatchedOutcomes(s.settlements[..k])
  {
    hide Inv, MatchedTransactions, MatchedOutcomes;
    var front, x := s.settlements[..k], s.settlements[k];
    MatchedMembers(front, x.transactionId);
    MatchedMembers(front, x.matched.value);
    forall j | 0 <= j < k && s.settlements[j].matched.Some?
      ensures front[j].transactionId != x.transactionId && front[j].matched != x.matched
    {
      MatchIsInjective(policy, s, j, k);
    }
  }

  lemma TermConserves(policy: Policy, s: Store, k: nat, firmId: Id, clientId: Id, currency: string)
    requires Inv(policy, s) && IsMatched(s, k)
    ensures var x := s.settlements[k];
      && x.transactionId < |s.transactions| && x.matched.value < |s.outcomes|
      && BankAmount(s.transactions[x.transactionId].value, firmId, clientId, currency) ==
         JournalAmount(s.decisions, s.outcomes[x.matched.value], firmId, clientId, currency)
  {
    hide Inv, ProjectNow, JournalOf, NormalizedCurrency;
    MatchIsFaithful(policy, s, k);
  }

  // ----- conservation

  function MatchedBankTotal(s: Store, firmId: Id, clientId: Id, currency: string): int {
    SumAt(BankAmounts(s.transactions, firmId, clientId, currency), MatchedTransactions(s.settlements))
  }

  function MatchedJournalTotal(s: Store, firmId: Id, clientId: Id, currency: string): int {
    SumAt(JournalAmounts(s.decisions, s.outcomes, firmId, clientId, currency), MatchedOutcomes(s.settlements))
  }

  function ApprovedJournalTotal(s: Store, firmId: Id, clientId: Id, currency: string): int {
    Total(JournalAmounts(s.decisions, s.outcomes, firmId, clientId, currency))
  }

  lemma JournalsPositive(policy: Policy, s: Store, firmId: Id, clientId: Id, currency: string)
    requires Inv(policy, s)
    ensures var journals := JournalAmounts(s.decisions, s.outcomes, firmId, clientId, currency);
      forall i | 0 <= i < |journals| :: journals[i] >= 0
  {
    hide EvidenceInv, ReconciliationInv, ReadMoney, KnownSupplier, ReadCurrency, JournalFor;
    forall i | 0 <= i < |s.outcomes| && IsApproved(s, i)
      ensures JournalAmount(s.decisions, s.outcomes[i], firmId, clientId, currency) >= 0
    {
      var o := s.outcomes[i];
      ApprovedJournalIsCurrent(policy, s, i);
      JournalExact(policy, EngineInput(o.firmId, o.clientId, 0, "", ValuesUnder(s, i), []));
    }
  }

  /** In every reachable state, for each client and currency: the bank money with a matched
      outcome equals the total debits of the approved journals it is matched to, each counted
      once, and so never exceeds what was approved. */
  lemma MatchedMoneyConserved(policy: Policy, requests: seq<Request>, firmId: Id, clientId: Id, currency: string)
    ensures var s := Reached(policy, requests);
      && MatchedBankTotal(s, firmId, clientId, currency) == MatchedJournalTotal(s, firmId, clientId, currency)
      && MatchedBankTotal(s, firmId, clientId, currency) <= ApprovedJournalTotal(s, firmId, clientId, currency)
  {
    hide Run, Inv, BankAmounts, JournalAmounts, SumAt;
    var s := Reached(policy, requests);
    ReachedKeeps(policy, requests);
    PrefixConserves(policy, s, |s.settlements|, firmId, clientId, currency);
    assert s.settlements[..|s.settlements|] == s.settlements;
    JournalsPositive(policy, s, firmId, clientId, currency);
    SumAtBelowTotal(JournalAmounts(s.decisions, s.outcomes, firmId, clientId, currency),
                    MatchedOutcomes(s.settlements));
  }
}
