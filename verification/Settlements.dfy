/** Matched bank transactions and approved outcomes: injection, logs and frozen evidence. */
module Settlements {
  import opened Prelude
  import opened Text
  import opened Engine
  import opened Matching
  import opened Store
  import opened Targets
  import opened EvidenceCalls
  import opened ReconciliationCalls
  import opened EvidenceInvariant
  import opened ReviewInvariant
  import opened ReconciliationLog
  import opened ReconciliationInvariant
  import opened System
  import opened Reachability
  import opened ApprovedEvidence

  ghost predicate IsMatched(s: Store, k: nat) {
    k < |s.settlements| && s.settlements[k].matched.Some?
  }

  // ----- one settlement

  /** The candidate behind a matched settlement: a faithful snapshot, scored for its transaction. */
  lemma MatchedCandidate(lexicon: Lexicon, s: Store, k: nat) returns (c: Candidate)
    requires ReconciliationInv(lexicon, s) && IsMatched(s, k)
    ensures var x := s.settlements[k];
      && x.reviewId < |s.reviews| && x.transactionId < |s.transactions| && x.matchRunId < |s.matchRuns|
      && s.reviews[x.reviewId].status == ReviewMatched && s.reviews[x.reviewId].selected == x.matched
      && c in s.matchRuns[x.matchRunId].result.candidates && c.target.outcomeId == x.matched.value
      && x.firmId == s.transactions[x.transactionId].value.firmId
      && x.clientId == s.transactions[x.transactionId].value.clientId
      && FaithfulCandidate(lexicon, s, s.transactions[x.transactionId].value, c)
  {
    hide ProjectNow, ScoreTarget, ActionsReplay, TransactionsInv;
    var x := s.settlements[k];
    assert ValidSettlement(s.reviews, x);
    var r := s.reviews[x.reviewId];
    assert ValidReview(s.transactions, s.matchRuns, r);
    var run := s.matchRuns[r.matchRunId];
    assert ValidRun(lexicon, s, run);
    var i :| 0 <= i < |run.result.candidates| && run.result.candidates[i].target.outcomeId == r.selected.value;
    c := run.result.candidates[i];
  }

  /** A match joins a bank transaction with an approved outcome of the same firm and client,
      for the amount and currency of its balanced journal, within seven days of its date. */
  lemma MatchIsFaithful(policy: Policy, s: Store, k: nat)
    requires Inv(policy, s) && IsMatched(s, k)
    ensures var x := s.settlements[k];
      && x.transactionId < |s.transactions| && IsApproved(s, x.matched.value)
      && var t, o := s.transactions[x.transactionId].value, s.outcomes[x.matched.value];
      var journal := JournalOf(s.decisions, o.decisionRunId);
      var target := ProjectNow(policy.lexicon, s, x.matched.value);
      && journal.Some? && target.Some?
      && t.firmId == o.firmId == x.firmId && t.clientId == o.clientId == x.clientId
      && t.amount == journal.value.totalDebits == journal.value.totalCredits > 0
      && NormalizedCurrency(t.currency) == journal.value.currency
      && t.direction == Debit && DaysBetween(t.bookingDate, target.value.date) <= 7
  {
    var c := MatchedCandidate(policy.lexicon, s, k);
    var x := s.settlements[k];
    var t := s.transactions[x.transactionId].value;
    CandidateGates(policy.lexicon, s, t, c);
    ProjectionFields(policy.lexicon, s, x.matched.value);
    hide Inv, ProjectNow, ScoreTarget, EffectiveDate;
    ProjectionComplete(policy, s, x.matched.value);
  }

  lemma CandidateGates(lexicon: Lexicon, s: Store, t: BankTransaction, c: Candidate)
    requires FaithfulCandidate(lexicon, s, t, c)
    ensures PassesGates(7, t, c.target)
  {
    hide ProjectNow, RawScore, Reasons;
  }

  // ----- the matching relation

  /** Matched settlements form a partial injection: no transaction and no approved outcome
      takes part in two of them. */
  lemma MatchIsInjective(policy: Policy, s: Store, k: nat, l: nat)
    requires Inv(policy, s) && IsMatched(s, k) && IsMatched(s, l) && k != l
    ensures s.settlements[k].transactionId != s.settlements[l].transactionId
    ensures s.settlements[k].matched != s.settlements[l].matched
  {
    hide EvidenceInv, ReviewInv, ProjectNow, TransactionsInv, MatchRunsInv, ActionsReplay;
    MatchIsFaithful(policy, s, k);
    MatchIsFaithful(policy, s, l);
    var i, j := if k < l then k else l, if k < l then l else k;
    assert !SameMatch(s.settlements[i], s.settlements[j]);
  }

  /** In every reachable state a settlement exists exactly for the terminal reviews, and a
      selection is always a candidate of the review's own match run. */
  lemma SettledExactly(policy: Policy, s: Store, reviewId: nat)
    requires Inv(policy, s) && reviewId < |s.reviews|
    ensures HasSettlement(s.settlements, reviewId) <==> s.reviews[reviewId].status in {ReviewMatched, ReviewUnmatched}
    ensures s.reviews[reviewId].selected.Some? ==>
      IsRunCandidate(s, s.reviews[reviewId], s.reviews[reviewId].selected.value)
  {
    hide EvidenceInv, ReviewInv, TransactionsInv, MatchRunsInv, ActionsReplay;
    SettlementTerminal(s, reviewId);
    assert ValidReview(s.transactions, s.matchRuns, s.reviews[reviewId]);
  }

  /** So three of the guards on reconciliation reviews can never fire. */
  lemma UnreachableReconciliationGuards(policy: Policy, s: Store, ctx: Context, path: ReviewPath, reason: string)
    requires Inv(policy, s)
    ensures ApproveMatchGuard(s, ctx, path) !in {
      Some(ReconciliationOutcomeExists), Some(ReconciliationCandidateMissing), Some(InvalidReconciliationReviewState)}
    ensures MarkUnmatchedGuard(s, ctx, path, reason) != Some(ReconciliationOutcomeExists)
  {
    hide Inv, Strip;
    if path.reviewId < |s.reviews| {
      SettledExactly(policy, s, path.reviewId);
    }
  }

  /** The action log of every review in a reachable state: replaying it gives the current
      status and selection, every entry logs the last selected candidate, and only the last
      entry can be terminal. */
  lemma ReviewLogReplays(policy: Policy, s: Store, reviewId: nat)
    requires Inv(policy, s) && reviewId < |s.reviews|
    ensures var log, r := ActionsFor(s.actions, reviewId), s.reviews[reviewId];
      && ReplayActions(log) == ReviewView(r.status, r.selected)
      && r.selected == LastSelected(log)
      && (forall k | 0 <= k < |log| :: log[k].candidate == LastSelected(log[..k + 1]))
      && (forall k | 0 <= k < |log| :: IsTerminalAction(log[k]) ==> k == |log| - 1)
      && (IsTerminalReview(r.status) <==> log != [] && IsTerminalAction(log[|log| - 1]))
  {
    var log := ActionsFor(s.actions, reviewId);
    assert ActionsReplay(s.actions, s.reviews[reviewId], reviewId);
    hide Inv, ReplayActions, LegalActions, LastSelected;
    SelectionIsLast(log);
    TerminalEnds(log);
    forall k | 0 <= k < |log|
      ensures log[k].candidate == LastSelected(log[..k + 1])
      ensures IsTerminalAction(log[k]) ==> k == |log| - 1
    {
      LoggedCandidate(log, k);
      if IsTerminalAction(log[k]) {
        TerminalIsLast(log, k);
      }
    }
  }

  // ----- frozen match evidence

  function RunsFor(runs: seq<MatchRun>, transactionId: Id): seq<MatchRun> {
    if runs == [] then []
    else
      var n := |runs| - 1;
      RunsFor(runs[..n], transactionId) + if runs[n].transactionId == transactionId then [runs[n]] else []
  }

  lemma {:induction false} RunsFrozen(before: seq<MatchRun>, after: seq<MatchRun>, transactionId: Id)
    requires before <= after
    requires forall k | |before| <= k < |after| :: after[k].transactionId != transactionId
    ensures RunsFor(after, transactionId) == RunsFor(before, transactionId)
    decreases |after|
  {
    if after != before {
      RunsFrozen(before, after[..|after| - 1], transactionId);
    }
  }

  /** From the step that starts a review onward, the match runs of its transaction never
      change, and each candidate is still the current projection of its approved outcome. */
  lemma MatchEvidenceFrozen(policy: Policy, requests: seq<Request>, i: nat, transactionId: Id)
    requires i <= |requests| && HasReviewFor(Reached(policy, requests[..i]).reviews, transactionId)
    ensures var earlier, now := Reached(policy, requests[..i]), Reached(policy, requests);
      && RunsFor(now.matchRuns, transactionId) == RunsFor(earlier.matchRuns, transactionId)
      && |earlier.matchRuns| <= |now.matchRuns|
      && forall k, c | 0 <= k < |earlier.matchRuns| && c in earlier.matchRuns[k].result.candidates ::
        && now.matchRuns[k] == earlier.matchRuns[k] && c.target.outcomeId < |now.outcomes|
        && ProjectNow(policy.lexicon, now, c.target.outcomeId) == Some(c.target)
  {
    hide Run, EvidenceInv, ReviewInv, ProjectNow, ScoreTarget, ReviewsInv, TransactionsInv;
    var earlier, now := Reached(policy, requests[..i]), Reached(policy, requests);
    ReachedKeeps(policy, requests);
    ReachedEvolves(policy, requests, i);
    forall k | |earlier.matchRuns| <= k < |now.matchRuns|
      ensures now.matchRuns[k].transactionId != transactionId
    {
      assert !HasReviewFor(earlier.reviews, now.matchRuns[k].transactionId);
    }
    RunsFrozen(earlier.matchRuns, now.matchRuns, transactionId);
    forall k, c | 0 <= k < |earlier.matchRuns| && c in earlier.matchRuns[k].result.candidates
      ensures now.matchRuns[k] == earlier.matchRuns[k] && c.target.outcomeId < |now.outcomes|
      ensures ProjectNow(policy.lexicon, now, c.target.outcomeId) == Some(c.target)
    {
      var run := now.matchRuns[k];
      assert ValidRun(policy.lexicon, now, run);
      var j :| 0 <= j < |run.result.candidates| && run.result.candidates[j] == c;
      assert FaithfulCandidate(
          policy.lexicon, now, now.transactions[run.transactionId].value, run.result.candidates[j]);
    }
  }

  // ----- which outcomes a generated run offers

  lemma {:induction false} TargetAmong(lexicon: Lexicon, s: Store, firmId: Id, clientId: Id, n: nat, k: nat)
    requires k < n <= |s.outcomes| && IsClientApproval(s.outcomes[k], firmId, clientId)
    requires ProjectNow(lexicon, s, k).Some?
    ensures ProjectNow(lexicon, s, k).value in TargetsAmong(lexicon, s, firmId, clientId, n)
  {
    hide ProjectNow, IsClientApproval;
    var front := TargetsAmong(lexicon, s, firmId, clientId, n - 1);
    if k < n - 1 {
      TargetAmong(lexicon, s, firmId, clientId, n - 1, k);
      assert front <= TargetsAmong(lexicon, s, firmId, clientId, n);
    } else {
      assert TargetsAmong(lexicon, s, firmId, clientId, n) == front + [ProjectNow(lexicon, s, k).value];
    }
  }

  /** A match run generated now for the transaction would offer the outcome. */
  predicate Offers(lexicon: Lexicon, s: Store, t: BankTransaction, k: Id) {
    HasCandidate(MatchTargets(DEFAULT_POLICY, t, ApprovedTargets(lexicon, s, t.firmId, t.clientId)).candidates, k)
  }

  lemma OffersGated(lexicon: Lexicon, s: Store, t: BankTransaction, k: nat)
    requires IsApproved(s, k)
    requires Offers(lexicon, s, t, k)
    ensures ProjectNow(lexicon, s, k).Some? && PassesGates(7, t, ProjectNow(lexicon, s, k).value)
  {
    var targets := ApprovedTargets(lexicon, s, t.firmId, t.clientId);
    TargetsProject(lexicon, s, t.firmId, t.clientId, |s.outcomes|);
    hide ProjectNow, TargetsAmong, MatchTargets, PassesGates, ScoreTarget, ApprovedTargets;
    var candidates := MatchTargets(DEFAULT_POLICY, t, targets).candidates;
    var i :| 0 <= i < |candidates| && candidates[i].target.outcomeId == k;
    MatchMembers(DEFAULT_POLICY, t, targets, candidates[i]);
    assert candidates[i].target in targets;
    var j :| 0 <= j < |targets| && targets[j] == candidates[i].target;
    DefaultPolicyIsGates(t, targets[j]);
  }

  lemma GatedOffered(lexicon: Lexicon, s: Store, t: BankTransaction, k: nat)
    requires IsApproved(s, k)
    requires ProjectNow(lexicon, s, k).Some? && PassesGates(7, t, ProjectNow(lexicon, s, k).value)
    ensures Offers(lexicon, s, t, k)
  {
    var target := ProjectNow(lexicon, s, k).value;
    var targets := ApprovedTargets(lexicon, s, t.firmId, t.clientId);
    ProjectsOutcome(lexicon, s, k);
    GatesScope(t, target);
    TargetAmong(lexicon, s, t.firmId, t.clientId, |s.outcomes|, k);
    hide ProjectNow, TargetsAmong, MatchTargets, PassesGates, ScoreTarget, ApprovedTargets;
    DefaultPolicyIsGates(t, target);
    CandidateTarget(DEFAULT_POLICY, t, target);
    var candidates := MatchTargets(DEFAULT_POLICY, t, targets).candidates;
    var c := ScoreTarget(DEFAULT_POLICY, t, target).value;
    MatchMembers(DEFAULT_POLICY, t, targets, c);
    var i :| 0 <= i < |candidates| && candidates[i] == c;
  }

  /** A generated run offers exactly the client's approved outcomes whose date parses and that
      agree with the transaction in amount, currency and direction within seven days. */
  lemma GeneratedExactly(policy: Policy, s: Store, ctx: Context, clientId: Id, transactionId: Id, k: nat)
    requires Inv(policy, s) && GenerateMatchGuard(s, ctx, clientId, transactionId).None?
    requires IsApproved(s, k)
    ensures var next := GenerateMatchNext(policy.lexicon, s, ctx, clientId, transactionId);
      var t, target := s.transactions[transactionId].value, ProjectNow(policy.lexicon, s, k);
      HasCandidate(next.matchRuns[|s.matchRuns|].result.candidates, k) <==>
      EffectiveDate(policy.lexicon, ValuesUnder(s, k)).Some? && target.Some? && PassesGates(7, t, target.value)
  {
    hide Inv, ProjectNow, EffectiveDate, PassesGates, ValuesUnder, HasCandidate, Offers, GenerateMatchNext;
    ProjectionComplete(policy, s, k);
    GeneratedOffers(policy.lexicon, s, ctx, clientId, transactionId, k);
    var t := s.transactions[transactionId].value;
    if Offers(policy.lexicon, s, t, k) {
      OffersGated(policy.lexicon, s, t, k);
    } else if ProjectNow(policy.lexicon, s, k).Some? && PassesGates(7, t, ProjectNow(policy.lexicon, s, k).value) {
      GatedOffered(policy.lexicon, s, t, k);
    }
  }

  lemma GeneratedOffers(lexicon: Lexicon, s: Store, ctx: Context, clientId: Id, transactionId: Id, k: nat)
    requires GenerateMatchGuard(s, ctx, clientId, transactionId).None?
    ensures HasCandidate(
        GenerateMatchNext(lexicon, s, ctx, clientId, transactionId).matchRuns[|s.matchRuns|].result.candidates, k)
      <==> Offers(lexicon, s, s.transactions[transactionId].value, k)
  {
    hide MatchTargets, ApprovedTargets, HasCandidate;
  }

  lemma GatesScope(t: BankTransaction, target: Target)
    requires PassesGates(7, t, target)
    ensures t.firmId == target.firmId && t.clientId == target.clientId
  {
  }
}
