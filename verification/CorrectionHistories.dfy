/** The correction log of every reachable extraction run, and the values read from it. */
module CorrectionHistories {
  import opened Prelude
  import opened EffectiveValues
  import opened Engine
  import opened Store
  import opened EvidenceInvariant
  import opened System
  import opened Reachability

  lemma NumberedFront(corrections: seq<Correction>)
    requires Numbered(corrections) && corrections != []
    ensures Numbered(corrections[..|corrections| - 1])
  {
    var front := corrections[..|corrections| - 1];
    forall k | 0 <= k < |front|
      ensures front[k].revision == 1 + RevisionCount(front[..k], front[k].runId, front[k].fieldId)
    {
      assert front[..k] == corrections[..k];
    }
  }

  /** A field's revisions, in log order, are exactly 1, 2, 3 and so on. */
  lemma {:induction false} RevisionsAreRanks(corrections: seq<Correction>, runId: Id, fieldId: Id)
    requires Numbered(corrections)
    ensures var group := Grouped(CorrectionsFor(corrections, runId), fieldId);
      && |group| == RevisionCount(corrections, runId, fieldId)
      && forall k | 0 <= k < |group| :: group[k].revision == k + 1
  {
    if corrections != [] {
      var n := |corrections| - 1;
      NumberedFront(corrections);
      RevisionsAreRanks(corrections[..n], runId, fieldId);
      var front := CorrectionsFor(corrections[..n], runId);
      if corrections[n].runId == runId {
        assert CorrectionsFor(corrections, runId)[..|front|] == front;
      } else {
        assert CorrectionsFor(corrections, runId) == front;
      }
    }
  }

  lemma {:induction false} RevisionBounded(corrections: seq<Correction>, runId: Id, c: Correction)
    requires Numbered(corrections) && c in CorrectionsFor(corrections, runId)
    ensures c.runId == runId && 1 <= c.revision <= RevisionCount(corrections, runId, c.fieldId)
  {
    var n := |corrections| - 1;
    NumberedFront(corrections);
    if c in CorrectionsFor(corrections[..n], runId) {
      RevisionBounded(corrections[..n], runId, c);
    }
  }

  lemma {:induction false} LogRises(corrections: seq<Correction>, runId: Id)
    requires Numbered(corrections)
    ensures RisingRevisions(CorrectionsFor(corrections, runId))
  {
    if corrections != [] {
      var n := |corrections| - 1;
      NumberedFront(corrections);
      LogRises(corrections[..n], runId);
      var front, all := CorrectionsFor(corrections[..n], runId), CorrectionsFor(corrections, runId);
      if corrections[n].runId == runId {
        forall i | 0 <= i < |front| && front[i].fieldId == corrections[n].fieldId
          ensures front[i].revision < corrections[n].revision
        {
          RevisionBounded(corrections[..n], runId, front[i]);
        }
      } else {
        assert all == front;
      }
    }
  }

  lemma RisingIsDistinct(corrections: seq<Correction>)
    requires RisingRevisions(corrections)
    ensures DistinctRevisions(corrections)
  {
    forall c, d | c in corrections && d in corrections && c.fieldId == d.fieldId && c.revision == d.revision
      ensures c == d
    {
      var i :| 0 <= i < |corrections| && corrections[i] == c;
      var j :| 0 <= j < |corrections| && corrections[j] == d;
      assert i == j;
    }
  }

  /** In every reachable state a field's revisions are exactly 1 to n in log order, and the
      API's reading of a field, by the last entry of its group, is the engine's, by the
      highest revision. */
  lemma ReadersAgree(policy: Policy, requests: seq<Request>, runId: nat, i: nat)
    requires runId < |Reached(policy, requests).extractions|
    requires i < |Reached(policy, requests).extractions[runId].fields|
    ensures var s := Reached(policy, requests);
      var fields, log := s.extractions[runId].fields, CorrectionsFor(s.corrections, runId);
      var group := Grouped(log, i);
      var values := EffectiveNow(s.extractions, s.corrections, runId);
      && (forall k | 0 <= k < |group| :: group[k].revision == k + 1)
      && fields[i].path in values && values[fields[i].path] == EffectiveField(fields[i], i, LastOf(group))
  {
    hide Run, Grouped, Effective;
    var s := Reached(policy, requests);
    ReachedKeeps(policy, requests);
    RevisionsAreRanks(s.corrections, runId, i);
    LogRises(s.corrections, runId);
    GroupTailIsLatest(CorrectionsFor(s.corrections, runId), i);
    EffectiveAt(s.extractions[runId].fields, CorrectionsFor(s.corrections, runId), i);
  }

  /** And no reordering of a reachable run's corrections changes any effective value. */
  lemma ReachableOrderIndependent(policy: Policy, requests: seq<Request>, runId: Id, reordered: seq<Correction>)
    requires multiset(reordered) == multiset(CorrectionsFor(Reached(policy, requests).corrections, runId))
    ensures var s := Reached(policy, requests);
      Effective(FieldsOf(s.extractions, runId), reordered) == EffectiveNow(s.extractions, s.corrections, runId)
  {
    hide Run, Effective;
    var s := Reached(policy, requests);
    ReachedKeeps(policy, requests);
    LogRises(s.corrections, runId);
    RisingIsDistinct(CorrectionsFor(s.corrections, runId));
    EffectiveOrderIndependent(FieldsOf(s.extractions, runId), CorrectionsFor(s.corrections, runId), reordered);
  }

  /** The provider's observations and every logged correction stay as first recorded. */
  lemma ObservationsNeverChange(policy: Policy, requests: seq<Request>, i: nat)
    requires i <= |requests|
    ensures Reached(policy, requests[..i]).extractions <= Reached(policy, requests).extractions
    ensures Reached(policy, requests[..i]).corrections <= Reached(policy, requests).corrections
  {
    hide Run, Inv;
    ReachedEvolves(policy, requests, i);
  }
}
