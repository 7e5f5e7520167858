/** The main results, stated over every sequence of calls from an empty database. */
module EveryRun {
  import opened Prelude
  import opened Text
  import opened Engine
  import opened ReviewPolicy
  import opened Matching
  import opened Store
  import opened Targets
  import opened ReconciliationCalls
  import opened ReviewLog
  import opened EvidenceInvariant
  import opened ReviewInvariant
  import opened ReconciliationInvariant
  import opened ReconciliationLog
  import opened System
  import opened Reachability
  import opened ApprovedEvidence
  import opened DuplicateControl
  import opened Settlements
  import opened TaskHistories
  import opened Worklist

  /** After any run, an approved outcome's journal is what the engine computes from today's
      effective values, and every approval on the same extraction run carries that journal. */
  lemma ApprovedJournals(policy: Policy, requests: seq<Request>, k: nat, l: nat)
    requires var s := Reached(policy, requests);
      IsApproved(s, k) && IsApproved(s, l) && s.outcomes[k].extractionRunId == s.outcomes[l].extractionRunId
    ensures var s := Reached(policy, requests);
      var o := s.outcomes[k];
      var journal := JournalOf(s.decisions, o.decisionRunId);
      && journal == JournalFor(policy, o.firmId, o.clientId, ValuesUnder(s, k))
      && journal.Some? && journal.value.isBalanced
      && journal == JournalOf(s.decisions, s.outcomes[l].decisionRunId)
  {
    hide Run, Inv, JournalFor, ValuesUnder;
    ReachedKeeps(policy, requests);
    ApprovedJournalIsCurrent(policy, Reached(policy, requests), k);
    OneJournalPerRun(policy, Reached(policy, requests), k, l);
  }

  /** After any run, of two approved outcomes of one client, the later decision reports the
      earlier exactly when the two resemble each other today and fewer than fifty decisions of
      the client lie between; and then it was approved by the senior its escalation named. */
  lemma ApprovedDuplicates(policy: Policy, requests: seq<Request>, a: nat, b: nat)
    requires DecidedInOrder(Reached(policy, requests), a, b)
    ensures var s := Reached(policy, requests);
      var earlier, later := s.outcomes[a].decisionRunId, s.outcomes[b].decisionRunId;
      && s.decisions[later].Succeeded()
      && (Reports(s.decisions[later].output.value.duplicates, earlier) <==>
            Resemble(s, a, b) && InWindow(s.decisions, earlier, later))
      && (Resemble(s, a, b) && InWindow(s.decisions, earlier, later) ==> ApprovedBySenior(s, b))
  {
    hide Run, Inv, Resemble, InWindow, ApprovedBySenior;
    var s := Reached(policy, requests);
    ReachedKeeps(policy, requests);
    DuplicateExact(policy, s, a, b);
    if Resemble(s, a, b) && InWindow(s.decisions, s.outcomes[a].decisionRunId, s.outcomes[b].decisionRunId) {
      DuplicateNeedsSenior(policy, s, a, b);
    }
  }

  /** After any run, whoever approved a task at senior risk was the one membership its single
      escalation named, acting as a senior reviewer; blocked tasks were never approved. */
  lemma SeniorApprovals(policy: Policy, requests: seq<Request>, k: nat)
    requires IsApproved(Reached(policy, requests), k)
    ensures var s := Reached(policy, requests);
      && s.outcomes[k].taskId < |s.tasks|
      && s.tasks[s.outcomes[k].taskId].risk != Blocked
      && (s.tasks[s.outcomes[k].taskId].risk == SeniorRequired ==> ApprovedBySenior(s, k))
  {
    hide Run, EvidenceInv, ReconciliationInv, ApprovedBySenior;
    var s := Reached(policy, requests);
    ReachedKeeps(policy, requests);
    assert ValidOutcome(s.corrections, s.decisions, s.tasks, s.outcomes[k]);
    if s.tasks[s.outcomes[k].taskId].risk == SeniorRequired {
      SeniorTaskNeedsSenior(s, k);
    }
  }

  /** After any run, an approval needed a senior if and only if its evidence is of low confidence
      or its decision was shown, among the fifty most recent, one of another document resembling
      it; every other approved task was ordinary. */
  lemma SeniorsNeeded(policy: Policy, requests: seq<Request>, k: nat)
    requires IsApproved(Reached(policy, requests), k)
    ensures var s := Reached(policy, requests);
      var o := s.outcomes[k];
      && o.taskId < |s.tasks| && o.decisionRunId < |s.decisions|
      && (s.tasks[o.taskId].risk == SeniorRequired <==>
            HasLowConfidence(ValuesUnder(s, k)) ||
            exists i: nat | i < o.decisionRunId :: SawDuplicate(s, i, o.decisionRunId))
      && (s.tasks[o.taskId].risk != SeniorRequired ==> s.tasks[o.taskId].risk == Ordinary)
  {
    hide Run, Inv, HasLowConfidence, SawDuplicate, ValuesUnder;
    ReachedKeeps(policy, requests);
    SeniorNeededExactly(policy, Reached(policy, requests), k);
  }

  /** After any run, no two stored bank transactions share a source identity: firm, client,
      provider, account and stripped source id; and each lies in the period of a stored batch of
      its client and account. */
  lemma SourceIdentities(policy: Policy, requests: seq<Request>, i: nat, j: nat)
    requires i < j < |Reached(policy, requests).transactions|
    ensures !SameSource(Reached(policy, requests).transactions[i], Reached(policy, requests).transactions[j])
    ensures Stripped(Reached(policy, requests).transactions[i].value.sourceId)
    ensures Stripped(Reached(policy, requests).transactions[j].value.sourceId)
    ensures var s := Reached(policy, requests);
      var t := s.transactions[i];
      && t.batchId < |s.batches|
      && var batch := s.batches[t.batchId];
      t.value.firmId == batch.firmId && t.value.clientId == batch.clientId && t.provider == batch.provider &&
      t.account == batch.account && batch.periodStart <= t.value.bookingDate <= batch.periodEnd
  {
    hide Run, EvidenceInv, ReviewInv, MatchRunsInv, ReviewsInv, Stripped, ValidTransaction;
    var s := Reached(policy, requests);
    ReachedKeeps(policy, requests);
    assert ValidRow(s.batches, s.transactions[i]) && ValidRow(s.batches, s.transactions[j]);
  }

  /** After any run, the approved outcomes with a target are those whose invoice date parses. */
  lemma ApprovedProjections(policy: Policy, requests: seq<Request>, k: nat)
    requires IsApproved(Reached(policy, requests), k)
    ensures var s := Reached(policy, requests);
      ProjectNow(policy.lexicon, s, k).Some? <==> EffectiveDate(policy.lexicon, ValuesUnder(s, k)).Some?
  {
    hide Run, Inv, ProjectNow, EffectiveDate;
    ReachedKeeps(policy, requests);
    ProjectionComplete(policy, Reached(policy, requests), k);
  }

  /** After any run, matched settlements are a partial injection from bank transactions to
      approved outcomes, and a review has a settlement exactly when it is terminal. */
  lemma MatchedSettlements(policy: Policy, requests: seq<Request>)
    ensures var s := Reached(policy, requests);
      && (forall k: nat | IsMatched(s, k) :: IsApproved(s, s.settlements[k].matched.value))
      && (forall k: nat, l: nat | IsMatched(s, k) && IsMatched(s, l) && k != l ::
            s.settlements[k].transactionId != s.settlements[l].transactionId &&
            s.settlements[k].matched != s.settlements[l].matched)
      && (forall i | 0 <= i < |s.reviews| ::
            HasSettlement(s.settlements, i) <==> IsTerminalReview(s.reviews[i].status))
  {
    hide Run, Inv, HasSettlement;
    var s := Reached(policy, requests);
    ReachedKeeps(policy, requests);
    forall k: nat | IsMatched(s, k)
      ensures IsApproved(s, s.settlements[k].matched.value)
    {
      MatchIsFaithful(policy, s, k);
    }
    forall k: nat, l: nat | IsMatched(s, k) && IsMatched(s, l) && k != l
      ensures s.settlements[k].transactionId != s.settlements[l].transactionId
      ensures s.settlements[k].matched != s.settlements[l].matched
    {
      MatchIsInjective(policy, s, k, l);
    }
    forall i | 0 <= i < |s.reviews|
      ensures HasSettlement(s.settlements, i) <==> IsTerminalReview(s.reviews[i].status)
    {
      SettledExactly(policy, s, i);
    }
  }

  /** After any run, both kinds of log replay to the rows they belong to. */
  lemma LogsReplay(policy: Policy, requests: seq<Request>)
    ensures var s := Reached(policy, requests);
      && (forall i | 0 <= i < |s.tasks| ::
            var view := Resolved(Replay(CommentsFor(s.comments, i)), OutcomeOf(s.outcomes, i));
            s.tasks[i].status == view.status && s.tasks[i].escalation == view.escalation)
      && (forall i | 0 <= i < |s.reviews| ::
            ReplayActions(ActionsFor(s.actions, i)) == ReviewView(s.reviews[i].status, s.reviews[i].selected))
  {
    hide Run, Inv, Replay, ReplayActions, OutcomeOf, CommentsFor, ActionsFor;
    var s := Reached(policy, requests);
    ReachedKeeps(policy, requests);
    forall i | 0 <= i < |s.tasks|
      ensures var view := Resolved(Replay(CommentsFor(s.comments, i)), OutcomeOf(s.outcomes, i));
        s.tasks[i].status == view.status && s.tasks[i].escalation == view.escalation
    {
      TaskLogReplays(policy, s, i);
    }
    forall i | 0 <= i < |s.reviews|
      ensures ReplayActions(ActionsFor(s.actions, i)) == ReviewView(s.reviews[i].status, s.reviews[i].selected)
    {
      ReviewLogReplays(policy, s, i);
    }
  }

  /** After any run, a call its guards let through commits: only an import that repeats a
      source identity and a decision whose output does not fit the tables are ever rolled back. */
  lemma OnlyTwoCallsRollBack(policy: Policy, requests: seq<Request>, r: Request)
    requires Guard(policy, Reached(policy, requests), r).None?
    requires !r.call.Import? && !r.call.StartDecision?
    ensures var s := Reached(policy, requests);
      Handle(policy, s, r) == Reply(Next(policy, s, r), None)
  {
    hide Run, Inv, Guard, Next, Handle;
    ReachedKeeps(policy, requests);
    GuardsSuffice(policy, Reached(policy, requests), r);
  }

  /** After any run, the worklist's state, computed without the outcome, agrees with it. */
  lemma WorklistStates(policy: Policy, requests: seq<Request>, firmId: Id, clientId: Id, id: Id)
    requires id < |Reached(policy, requests).transactions|
    ensures var s := Reached(policy, requests);
      var item := ItemFor(s, firmId, clientId, id);
      && (item.outcome.None? <==> item.state !in {Reconciled, ResolvedUnmatched})
      && (item.state == Reconciled ==> s.settlements[item.outcome.value].matched.Some?)
      && (item.state == ResolvedUnmatched ==> s.settlements[item.outcome.value].matched.None?)
  {
    hide Run, Inv, ItemFor;
    ReachedKeeps(policy, requests);
    StateAgreesWithOutcome(policy, Reached(policy, requests), firmId, clientId, id);
  }
}
