/** What every reconciliation call answers in a reachable state, in terms of the request and the
    rows: which refusal comes first, and otherwise exactly what is committed. */
module ReconciliationAnswers {
  import opened Prelude
  import opened Text
  import opened Engine
  import opened Matching
  import opened Store
  import opened Targets
  import opened EvidenceCalls
  import opened ReconciliationCalls
  import opened ReconciliationInvariant
  import opened System
  import opened Reachability
  import opened Settlements
  import opened TaskAnswers

  // ----- the conditions

  predicate NamesTransaction(s: Store, ctx: Context, clientId: Id, transactionId: Id) {
    transactionId < |s.transactions| &&
    s.transactions[transactionId].value.firmId == ctx.principal.firmId &&
    s.transactions[transactionId].value.clientId == clientId
  }

  /** The path names a transaction of the client and a review of that transaction. */
  predicate NamesReview(s: Store, ctx: Context, path: ReviewPath) {
    NamesTransaction(s, ctx, path.clientId, path.transactionId) && path.reviewId < |s.reviews| &&
    s.reviews[path.reviewId].transactionId == path.transactionId &&
    s.reviews[path.reviewId].firmId == ctx.principal.firmId && s.reviews[path.reviewId].clientId == path.clientId
  }

  /** The run is one of the transaction's own. */
  predicate NamesRun(s: Store, ctx: Context, clientId: Id, transactionId: Id, runId: Id) {
    runId < |s.matchRuns| && s.matchRuns[runId].transactionId == transactionId &&
    s.matchRuns[runId].firmId == ctx.principal.firmId && s.matchRuns[runId].clientId == clientId
  }

  ghost predicate IsReviewed(s: Store, transactionId: Id) {
    exists r | r in s.reviews :: r.transactionId == transactionId
  }

  /** The review's own match run offers the outcome. */
  ghost predicate IsOffered(s: Store, review: ReconciliationReview, outcomeId: Id) {
    review.matchRunId < |s.matchRuns| &&
    exists c | c in s.matchRuns[review.matchRunId].result.candidates :: c.target.outcomeId == outcomeId
  }

  /** Some review of the client has been settled with the outcome. */
  ghost predicate IsTaken(s: Store, firmId: Id, clientId: Id, outcomeId: Id) {
    exists x | x in s.settlements :: x.firmId == firmId && x.clientId == clientId && x.matched == Some(outcomeId)
  }

  lemma ReviewedExact(s: Store, transactionId: Id)
    ensures HasReviewFor(s.reviews, transactionId) <==> IsReviewed(s, transactionId)
  {
    if HasReviewFor(s.reviews, transactionId) {
      var k :| 0 <= k < |s.reviews| && s.reviews[k].transactionId == transactionId;
      assert s.reviews[k] in s.reviews;
    }
    if r :| r in s.reviews && r.transactionId == transactionId {
      var k :| 0 <= k < |s.reviews| && s.reviews[k] == r;
      assert s.reviews[k].transactionId == transactionId;
    }
  }

  lemma OfferedExact(policy: Policy, s: Store, reviewId: nat, outcomeId: Id)
    requires Inv(policy, s) && reviewId < |s.reviews|
    ensures IsRunCandidate(s, s.reviews[reviewId], outcomeId) <==> IsOffered(s, s.reviews[reviewId], outcomeId)
  {
    hide EvidenceInvariant.EvidenceInv, ReviewInvariant.ReviewInv, TransactionsInv, MatchRunsInv, ActionsReplay;
    var review := s.reviews[reviewId];
    assert ValidReview(s.transactions, s.matchRuns, review);
    var candidates := s.matchRuns[review.matchRunId].result.candidates;
    if HasCandidate(candidates, outcomeId) {
      var k :| 0 <= k < |candidates| && candidates[k].target.outcomeId == outcomeId;
      assert candidates[k] in candidates;
    }
    if c :| c in candidates && c.target.outcomeId == outcomeId {
      var k :| 0 <= k < |candidates| && candidates[k] == c;
      assert candidates[k].target.outcomeId == outcomeId;
    }
  }

  lemma TakenExact(s: Store, firmId: Id, clientId: Id, outcomeId: Id)
    ensures IsAlreadyMatched(s.settlements, firmId, clientId, outcomeId) <==> IsTaken(s, firmId, clientId, outcomeId)
  {
    if IsAlreadyMatched(s.settlements, firmId, clientId, outcomeId) {
      var k :| 0 <= k < |s.settlements| && Settles(s.settlements[k], firmId, clientId, outcomeId);
      assert s.settlements[k] in s.settlements;
    }
    if x :| x in s.settlements && x.firmId == firmId && x.clientId == clientId && x.matched == Some(outcomeId) {
      var k :| 0 <= k < |s.settlements| && s.settlements[k] == x;
      assert Settles(s.settlements[k], firmId, clientId, outcomeId);
    }
  }

  /** The first refusal that access, scope and status give a call on an open review. */
  function NotOpen(s: Store, ctx: Context, path: ReviewPath): Option<ErrorCode> {
    if !Reaches(ctx, path.clientId) then Some(Forbidden)
    else if !NamesReview(s, ctx, path) then Some(NotFound)
    else
      match s.reviews[path.reviewId].status
      case ReviewOpen => None
      case ReviewDisputed => Some(ErrorCode.ReconciliationDisputed)
      case _ => Some(ReconciliationReviewTerminal)
  }

  lemma OpenGuarded(s: Store, ctx: Context, path: ReviewPath)
    ensures OpenReviewGuard(s, ctx, path) == NotOpen(s, ctx, path)
  {
  }

  /** The review as an action leaves it, and the action logged under the caller. */
  function Logged(s: Store, ctx: Context, path: ReviewPath, review: ReconciliationReview, action: ActionType,
                  candidate: Option<Id>, reason: Option<string>): Store
    requires path.reviewId < |s.reviews|
  {
    s.(clock := s.clock + 1,
       reviews := s.reviews[path.reviewId := review.(updatedAt := s.clock + 1)],
       actions := s.actions + [ReviewAction(path.reviewId, ctx.principal.membershipId, action, candidate, reason)])
  }

  // ----- generate_match_run and create_review

  lemma GenerateMatchAnswer(policy: Policy, s: Store, ctx: Context, clientId: Id, transactionId: Id)
    requires Inv(policy, s)
    ensures Handle(policy, s, Request(ctx, GenerateMatch(clientId, transactionId))) ==
      if !Reaches(ctx, clientId) then Reply(s, Some(Forbidden))
      else if !NamesTransaction(s, ctx, clientId, transactionId) then Reply(s, Some(NotFound))
      else if IsReviewed(s, transactionId) then Reply(s, Some(ReconciliationReviewStarted))
      else
        var targets := ApprovedTargets(policy.lexicon, s, ctx.principal.firmId, clientId);
        Reply(s.(clock := s.clock + 1, matchRuns := s.matchRuns + [MatchRun(
          transactionId, ctx.principal.firmId, clientId,
          MatchTargets(DEFAULT_POLICY, s.transactions[transactionId].value, targets), s.clock + 1)]), None)
  {
    hide Inv, Handle, HasReviewFor, IsReviewed, ApprovedTargets, MatchTargets;
    ReviewedExact(s, transactionId);
    Answered(policy, s, Request(ctx, GenerateMatch(clientId, transactionId)));
  }

  /** A review starts exactly on a match run of the transaction's own, when there is none yet. */
  lemma CreateReviewAnswer(policy: Policy, s: Store, ctx: Context, clientId: Id, transactionId: Id, runId: Id)
    requires Inv(policy, s)
    ensures var reply := Handle(policy, s, Request(ctx, CreateReview(clientId, transactionId, runId)));
      && (reply.error.None? <==>
            Reaches(ctx, clientId) && NamesTransaction(s, ctx, clientId, transactionId) &&
            NamesRun(s, ctx, clientId, transactionId, runId) && !IsReviewed(s, transactionId))
      && reply ==
        if !Reaches(ctx, clientId) then Reply(s, Some(Forbidden))
        else if !NamesTransaction(s, ctx, clientId, transactionId) then Reply(s, Some(NotFound))
        else if IsReviewed(s, transactionId) then Reply(s, Some(ReconciliationReviewExists))
        else if !NamesRun(s, ctx, clientId, transactionId, runId) then Reply(s, Some(NotFound))
        else
          Reply(s.(clock := s.clock + 1, reviews := s.reviews + [ReconciliationReview(
            transactionId, ctx.principal.firmId, clientId, runId, ReviewOpen, None, s.clock + 1)]), None)
  {
    hide Inv, Handle, HasReviewFor, IsReviewed;
    ReviewedExact(s, transactionId);
    Answered(policy, s, Request(ctx, CreateReview(clientId, transactionId, runId)));
  }

  // ----- actions on a review

  /** A selection commits exactly on an open review, for a candidate of its own match run. */
  lemma SelectAnswer(policy: Policy, s: Store, ctx: Context, path: ReviewPath, outcomeId: Id)
    requires Inv(policy, s)
    ensures var reply := Handle(policy, s, Request(ctx, Select(path, outcomeId)));
      && (reply.error.None? <==>
            && Reaches(ctx, path.clientId) && NamesReview(s, ctx, path)
            && s.reviews[path.reviewId].status == ReviewOpen && IsOffered(s, s.reviews[path.reviewId], outcomeId))
      && reply ==
        if NotOpen(s, ctx, path).Some? then Reply(s, NotOpen(s, ctx, path))
        else
          var review := s.reviews[path.reviewId];
          if !IsOffered(s, review, outcomeId) then Reply(s, Some(CandidateNotInReviewMatchRun))
          else
            Reply(Logged(s, ctx, path, review.(selected := Some(outcomeId)), CandidateSelected, Some(outcomeId), None),
                  None)
  {
    hide Inv, Handle, SelectGuard, IsOffered;
    SelectGuarded(policy, s, ctx, path, outcomeId);
    Answered(policy, s, Request(ctx, Select(path, outcomeId)));
  }

  lemma SelectGuarded(policy: Policy, s: Store, ctx: Context, path: ReviewPath, outcomeId: Id)
    requires Inv(policy, s)
    ensures SelectGuard(s, ctx, path, outcomeId) ==
      if NotOpen(s, ctx, path).Some? then NotOpen(s, ctx, path)
      else if !IsOffered(s, s.reviews[path.reviewId], outcomeId) then Some(CandidateNotInReviewMatchRun)
      else None
  {
    hide Inv, OpenReviewGuard, IsRunCandidate, IsOffered;
    OpenGuarded(s, ctx, path);
    if NotOpen(s, ctx, path).None? {
      OfferedExact(policy, s, path.reviewId, outcomeId);
    }
  }

  /** A dispute commits exactly on an open review, with a reason. */
  lemma DisputeAnswer(policy: Policy, s: Store, ctx: Context, path: ReviewPath, text: string)
    requires Inv(policy, s)
    ensures var reply := Handle(policy, s, Request(ctx, Dispute(path, text)));
      && (reply.error.None? <==>
            && Strip(text) != "" && Reaches(ctx, path.clientId) && NamesReview(s, ctx, path)
            && s.reviews[path.reviewId].status == ReviewOpen)
      && reply ==
        if Strip(text) == "" then Reply(s, Some(DisputeReasonRequired))
        else if NotOpen(s, ctx, path).Some? then Reply(s, NotOpen(s, ctx, path))
        else
          var review := s.reviews[path.reviewId];
          Reply(Logged(s, ctx, path, review.(status := ReviewDisputed), DisputeRaised, review.selected,
                       Some(Strip(text))), None)
  {
    hide Inv, Handle, OpenReviewGuard, Strip;
    OpenGuarded(s, ctx, path);
    Answered(policy, s, Request(ctx, Dispute(path, text)));
  }

  /** A disputed review reopens, and no other does. */
  lemma ReopenAnswer(policy: Policy, s: Store, ctx: Context, path: ReviewPath, text: string)
    requires Inv(policy, s)
    ensures var reply := Handle(policy, s, Request(ctx, Reopen(path, text)));
      && (reply.error.None? <==>
            && Strip(text) != "" && Reaches(ctx, path.clientId) && NamesReview(s, ctx, path)
            && s.reviews[path.reviewId].status == ReviewDisputed)
      && reply ==
        if Strip(text) == "" then Reply(s, Some(ReopenReasonRequired))
        else if !Reaches(ctx, path.clientId) then Reply(s, Some(Forbidden))
        else if !NamesReview(s, ctx, path) then Reply(s, Some(NotFound))
        else
          var review := s.reviews[path.reviewId];
          if review.status != ReviewDisputed then Reply(s, Some(ReconciliationReviewNotDisputed))
          else
            Reply(Logged(s, ctx, path, review.(status := ReviewOpen), DisputeReopened, review.selected,
                         Some(Strip(text))), None)
  {
    hide Inv, Handle, Strip;
    Answered(policy, s, Request(ctx, Reopen(path, text)));
  }

  /** The tables once a review is settled: matched with an outcome, or with none. */
  function Settled(s: Store, ctx: Context, path: ReviewPath, matched: Option<Id>, reason: Option<string>): Store
    requires path.reviewId < |s.reviews|
  {
    var review := s.reviews[path.reviewId];
    var status := if matched.Some? then ReviewMatched else ReviewUnmatched;
    var action := if matched.Some? then MatchApproved else MarkedUnmatched;
    Logged(s, ctx, path, review.(status := status), action, review.selected, reason)
      .(settlements := s.settlements + [ReconciliationOutcome(
          path.reviewId, path.transactionId, ctx.principal.firmId, path.clientId, review.matchRunId, matched,
          ctx.principal.membershipId, reason, s.clock + 1)])
  }

  /** A match is approved exactly on an open review whose selection is still free. */
  lemma ApproveMatchAnswer(policy: Policy, s: Store, ctx: Context, path: ReviewPath, note: Option<string>)
    requires Inv(policy, s)
    ensures var reply := Handle(policy, s, Request(ctx, ApproveMatch(path, note)));
      && (reply.error.None? <==>
            && Reaches(ctx, path.clientId) && NamesReview(s, ctx, path)
            && s.reviews[path.reviewId].status == ReviewOpen && s.reviews[path.reviewId].selected.Some?
            && !IsTaken(s, ctx.principal.firmId, path.clientId, s.reviews[path.reviewId].selected.value))
      && reply ==
        if NotOpen(s, ctx, path).Some? then Reply(s, NotOpen(s, ctx, path))
        else
          var selected := s.reviews[path.reviewId].selected;
          if selected.None? then Reply(s, Some(ReconciliationCandidateRequired))
          else if IsTaken(s, ctx.principal.firmId, path.clientId, selected.value)
            then Reply(s, Some(ReconciliationTargetAlreadyMatched))
          else
            Reply(Settled(s, ctx, path, selected,
                          if note.Some? && Strip(note.value) != "" then Some(Strip(note.value)) else None), None)
  {
    hide Inv, Handle, ApproveMatchGuard, ApproveMatchNext, Settled, Strip, IsTaken;
    ApproveMatchGuarded(policy, s, ctx, path);
    Answered(policy, s, Request(ctx, ApproveMatch(path, note)));
    if ApproveMatchGuard(s, ctx, path).None? {
      MatchCommits(s, ctx, path, note);
    }
  }

  lemma ApproveMatchGuarded(policy: Policy, s: Store, ctx: Context, path: ReviewPath)
    requires Inv(policy, s)
    ensures ApproveMatchGuard(s, ctx, path) ==
      if NotOpen(s, ctx, path).Some? then NotOpen(s, ctx, path)
      else if s.reviews[path.reviewId].selected.None? then Some(ReconciliationCandidateRequired)
      else if IsTaken(s, ctx.principal.firmId, path.clientId, s.reviews[path.reviewId].selected.value)
        then Some(ReconciliationTargetAlreadyMatched)
      else None
  {
    hide Inv, OpenReviewGuard, IsRunCandidate, IsTaken, IsAlreadyMatched, HasSettlement;
    OpenGuarded(s, ctx, path);
    if NotOpen(s, ctx, path).None? {
      SettledExactly(policy, s, path.reviewId);
      var selected := s.reviews[path.reviewId].selected;
      if selected.Some? {
        TakenExact(s, ctx.principal.firmId, path.clientId, selected.value);
      }
    }
  }

  /** A review is settled as unmatched exactly while it is open or disputed, with a reason. */
  lemma MarkUnmatchedAnswer(policy: Policy, s: Store, ctx: Context, path: ReviewPath, text: string)
    requires Inv(policy, s)
    ensures var reply := Handle(policy, s, Request(ctx, MarkUnmatched(path, text)));
      && (reply.error.None? <==>
            && Strip(text) != "" && Reaches(ctx, path.clientId) && NamesReview(s, ctx, path)
            && (s.reviews[path.reviewId].status == ReviewOpen || s.reviews[path.reviewId].status == ReviewDisputed))
      && reply ==
        if Strip(text) == "" then Reply(s, Some(UnmatchedReasonRequired))
        else if !Reaches(ctx, path.clientId) then Reply(s, Some(Forbidden))
        else if !NamesReview(s, ctx, path) then Reply(s, Some(NotFound))
        else if IsTerminalReview(s.reviews[path.reviewId].status) then Reply(s, Some(ReconciliationReviewTerminal))
        else Reply(Settled(s, ctx, path, None, Some(Strip(text))), None)
  {
    hide Inv, Handle, Guard, Next, MarkUnmatchedGuard, MarkUnmatchedNext, Settled, Strip, NamesReview, Reaches;
    MarkUnmatchedGuarded(policy, s, ctx, path, text);
    MarkUnmatchedRouted(policy, s, ctx, path, text);
    Answered(policy, s, Request(ctx, MarkUnmatched(path, text)));
    if MarkUnmatchedGuard(s, ctx, path, text).None? {
      UnmatchedCommits(s, ctx, path, text);
    }
  }

  lemma MarkUnmatchedRouted(policy: Policy, s: Store, ctx: Context, path: ReviewPath, text: string)
    ensures var r := Request(ctx, MarkUnmatched(path, text));
      && Guard(policy, s, r) == MarkUnmatchedGuard(s, ctx, path, text)
      && (Guard(policy, s, r).None? ==>
            path.reviewId < |s.reviews| && Next(policy, s, r) == MarkUnmatchedNext(s, ctx, path, text))
  {
    hide Strip, HasSettlement, MarkUnmatchedNext;
  }

  lemma UnmatchedCommits(s: Store, ctx: Context, path: ReviewPath, text: string)
    requires NamesReview(s, ctx, path)
    ensures MarkUnmatchedNext(s, ctx, path, text) == Settled(s, ctx, path, None, Some(Strip(text)))
  {
    hide Strip;
  }

  lemma MatchCommits(s: Store, ctx: Context, path: ReviewPath, note: Option<string>)
    requires NamesReview(s, ctx, path) && s.reviews[path.reviewId].selected.Some?
    ensures ApproveMatchNext(s, ctx, path, note) ==
      Settled(s, ctx, path, s.reviews[path.reviewId].selected,
              if note.Some? && Strip(note.value) != "" then Some(Strip(note.value)) else None)
  {
    hide Strip;
  }

  lemma MarkUnmatchedGuarded(policy: Policy, s: Store, ctx: Context, path: ReviewPath, text: string)
    requires Inv(policy, s)
    ensures MarkUnmatchedGuard(s, ctx, path, text) ==
      if Strip(text) == "" then Some(UnmatchedReasonRequired)
      else if !Reaches(ctx, path.clientId) then Some(Forbidden)
      else if !NamesReview(s, ctx, path) then Some(NotFound)
      else if IsTerminalReview(s.reviews[path.reviewId].status) then Some(ReconciliationReviewTerminal)
      else None
  {
    hide Inv, Strip, HasSettlement;
    if path.reviewId < |s.reviews| {
      SettledExactly(policy, s, path.reviewId);
    }
  }
}
