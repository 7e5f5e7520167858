/** A database session: the rows one request works on, and what has been committed. */
module Session {
  import opened Prelude
  import opened EffectiveValues
  import opened Store

  class Session {
    /** The tables as the open transaction sees them; services append and update rows here. */
    var tables: Store
    var committed: Store

    /** Nothing is pending. */
    predicate Clean()
      reads this
    {
      tables == committed
    }

    /** The instant every row of the open transaction is stamped with. */
    function Now(): nat
      reads this
    {
      tables.clock + 1
    }

    constructor ()
      ensures Clean() && committed == EMPTY_STORE
    {
      tables := EMPTY_STORE;
      committed := EMPTY_STORE;
    }

    // ----- rows the repositories add

    method AddExtraction(run: ExtractionRun)
      modifies this`tables
      ensures tables == old(tables).(extractions := old(tables.extractions) + [run])
    {
      tables := tables.(extractions := tables.extractions + [run]);
    }

    method AddCorrection(correction: Correction)
      modifies this`tables
      ensures tables == old(tables).(corrections := old(tables.corrections) + [correction])
    {
      tables := tables.(corrections := tables.corrections + [correction]);
    }

    method AddDecision(run: DecisionRun)
      modifies this`tables
      ensures tables == old(tables).(decisions := old(tables.decisions) + [run])
    {
      tables := tables.(decisions := tables.decisions + [run]);
    }

    method AddTask(task: ReviewTask)
      modifies this`tables
      ensures tables == old(tables).(tasks := old(tables.tasks) + [task])
    {
      tables := tables.(tasks := tables.tasks + [task]);
    }

    method AddComment(comment: Comment)
      modifies this`tables
      ensures tables == old(tables).(comments := old(tables.comments) + [comment])
    {
      tables := tables.(comments := tables.comments + [comment]);
    }

    method AddOutcome(outcome: ReviewOutcome)
      modifies this`tables
      ensures tables == old(tables).(outcomes := old(tables.outcomes) + [outcome])
    {
      tables := tables.(outcomes := tables.outcomes + [outcome]);
    }

    method AddBatch(batch: BatchRecord)
      modifies this`tables
      ensures tables == old(tables).(batches := old(tables.batches) + [batch])
    {
      tables := tables.(batches := tables.batches + [batch]);
    }

    method AddTransaction(transaction: TransactionRecord)
      modifies this`tables
      ensures tables == old(tables).(transactions := old(tables.transactions) + [transaction])
    {
      tables := tables.(transactions := tables.transactions + [transaction]);
    }

    method AddMatchRun(run: MatchRun)
      modifies this`tables
      ensures tables == old(tables).(matchRuns := old(tables.matchRuns) + [run])
    {
      tables := tables.(matchRuns := tables.matchRuns + [run]);
    }

    method AddReview(review: ReconciliationReview)
      modifies this`tables
      ensures tables == old(tables).(reviews := old(tables.reviews) + [review])
    {
      tables := tables.(reviews := tables.reviews + [review]);
    }

    method AddAction(action: ReviewAction)
      modifies this`tables
      ensures tables == old(tables).(actions := old(tables.actions) + [action])
    {
      tables := tables.(actions := tables.actions + [action]);
    }

    method AddSettlement(outcome: ReconciliationOutcome)
      modifies this`tables
      ensures tables == old(tables).(settlements := old(tables.settlements) + [outcome])
    {
      tables := tables.(settlements := tables.settlements + [outcome]);
    }

    // ----- rows the services update in place

    method PutDecision(id: Id, run: DecisionRun)
      requires id < |tables.decisions|
      modifies this`tables
      ensures tables == old(tables).(decisions := old(tables.decisions)[id := run])
    {
      tables := tables.(decisions := tables.decisions[id := run]);
    }

    method PutTask(id: Id, task: ReviewTask)
      requires id < |tables.tasks|
      modifies this`tables
      ensures tables == old(tables).(tasks := old(tables.tasks)[id := task])
    {
      tables := tables.(tasks := tables.tasks[id := task]);
    }

    method PutReview(id: Id, review: ReconciliationReview)
      requires id < |tables.reviews|
      modifies this`tables
      ensures tables == old(tables).(reviews := old(tables.reviews)[id := review])
    {
      tables := tables.(reviews := tables.reviews[id := review]);
    }

    // ----- the transaction's end

    method Rollback()
      modifies this`tables
      ensures Clean()
    {
      tables := committed;
    }

    /** Publishes the pending rows if every constraint holds; otherwise rolls them back. */
    method CommitOrRaise(conflict: ErrorCode) returns (check: Check)
      modifies this
      ensures Clean()
      ensures var pending := old(tables).(clock := old(Now()));
        if Constraints(pending) then committed == pending && check == Pass
        else committed == old(committed) && check == Fail(conflict)
    {
      tables := tables.(clock := Now());
      if Constraints(tables) {
        committed := tables;
        return Pass;
      }
      Rollback();
      return Fail(conflict);
    }
  }

  /** How a call ends: refused by a guard, rolled back on a conflict, or committed. */
  predicate Ended(
      before: Store, after: Store, refused: Option<ErrorCode>, next: Store, conflict: ErrorCode,
      raised: Option<ErrorCode>)
  {
    if refused.Some? then after == before && raised == refused
    else if Constraints(next) then after == next && raised == None
    else after == before && raised == Some(conflict)
  }
}
