/** A reconciliation review's action log, and the status and selection it replays to. */
module ReconciliationLog {
  import opened Prelude
  import opened Store
  import opened ReconciliationCalls

  datatype ReviewView = ReviewView(status: ReconciliationStatus, selected: Option<Id>)

  const NEW_REVIEW := ReviewView(ReviewOpen, None)

  function AfterAction(view: ReviewView, a: ReviewAction): ReviewView {
    match a.action
    case CandidateSelected => view.(selected := a.candidate)
    case DisputeRaised => view.(status := ReviewDisputed)
    case DisputeReopened => view.(status := ReviewOpen)
    case MatchApproved => view.(status := ReviewMatched)
    case MarkedUnmatched => view.(status := ReviewUnmatched)
  }

  function ReplayActions(log: seq<ReviewAction>): ReviewView {
    if log == [] then NEW_REVIEW else AfterAction(ReplayActions(log[..|log| - 1]), log[|log| - 1])
  }

  predicate IsTerminalAction(a: ReviewAction) { a.action in {MatchApproved, MarkedUnmatched} }

  /** Which action may come next, and which candidate it must log. */
  predicate MayAct(view: ReviewView, a: ReviewAction) {
    (a.action != CandidateSelected ==> a.candidate == view.selected) &&
    match a.action
    case CandidateSelected => view.status == ReviewOpen && a.candidate.Some?
    case DisputeRaised => view.status == ReviewOpen
    case DisputeReopened => view.status == ReviewDisputed
    case MatchApproved => view.status == ReviewOpen && view.selected.Some?
    case MarkedUnmatched => view.status == ReviewOpen || view.status == ReviewDisputed
  }

  predicate LegalActions(log: seq<ReviewAction>) {
    log == [] ||
    (LegalActions(log[..|log| - 1]) && MayAct(ReplayActions(log[..|log| - 1]), log[|log| - 1]))
  }

  /** The candidate of the newest selection. */
  function LastSelected(log: seq<ReviewAction>): Option<Id> {
    if log == [] then None
    else if log[|log| - 1].action == CandidateSelected then log[|log| - 1].candidate
    else LastSelected(log[..|log| - 1])
  }

  lemma ActionAppend(log: seq<ReviewAction>, a: ReviewAction)
    ensures ReplayActions(log + [a]) == AfterAction(ReplayActions(log), a)
    ensures LegalActions(log + [a]) <==> LegalActions(log) && MayAct(ReplayActions(log), a)
  {
    assert (log + [a])[..|log|] == log;
  }

  lemma {:induction false} SelectionIsLast(log: seq<ReviewAction>)
    ensures ReplayActions(log).selected == LastSelected(log)
  {
    if log != [] {
      SelectionIsLast(log[..|log| - 1]);
    }
  }

  lemma {:induction false} LegalActionsPrefix(log: seq<ReviewAction>, n: nat)
    requires LegalActions(log) && n <= |log|
    ensures LegalActions(log[..n])
  {
    if n < |log| {
      LegalActionsPrefix(log[..|log| - 1], n);
      assert log[..|log| - 1][..n] == log[..n];
    } else {
      assert log[..n] == log;
    }
  }

  /** Every logged candidate is the last one selected up to and including that action. */
  lemma LoggedCandidate(log: seq<ReviewAction>, k: nat)
    requires LegalActions(log) && k < |log|
    ensures log[k].candidate == LastSelected(log[..k + 1])
  {
    LegalActionsPrefix(log, k + 1);
    assert log[..k + 1][..k] == log[..k];
    SelectionIsLast(log[..k]);
  }

  lemma {:induction false} TerminalEnds(log: seq<ReviewAction>)
    requires LegalActions(log)
    ensures IsTerminalReview(ReplayActions(log).status) <==> log != [] && IsTerminalAction(log[|log| - 1])
  {
    if log != [] {
      TerminalEnds(log[..|log| - 1]);
    }
  }

  /** A terminal action can only be the last entry. */
  lemma TerminalIsLast(log: seq<ReviewAction>, k: nat)
    requires LegalActions(log) && k < |log| && IsTerminalAction(log[k])
    ensures k == |log| - 1
  {
    if k < |log| - 1 {
      LegalActionsPrefix(log, k + 1);
      TerminalEnds(log[..k + 1]);
      assert log[..k + 2][..k + 1] == log[..k + 1];
      LegalActionsPrefix(log, k + 2);
    }
  }

  lemma {:induction false} NoActions(actions: seq<ReviewAction>, reviewId: Id)
    requires forall k | 0 <= k < |actions| :: actions[k].reviewId != reviewId
    ensures ActionsFor(actions, reviewId) == []
  {
    if actions != [] {
      NoActions(actions[..|actions| - 1], reviewId);
    }
  }

  lemma ActionsAppend(actions: seq<ReviewAction>, a: ReviewAction, reviewId: Id)
    ensures ActionsFor(actions + [a], reviewId) ==
      if a.reviewId == reviewId then ActionsFor(actions, reviewId) + [a] else ActionsFor(actions, reviewId)
  {
    assert (actions + [a])[..|actions|] == actions;
  }
}
