/** The deterministic bank matcher and its value objects. */
module Matching {
  import opened Prelude
  import opened Text

  datatype Direction = Debit | Credit

  datatype CandidateStatus = NoCandidates | CandidatesAvailable

  datatype MatchReason =
    | ExactAmount
    | ExactCurrency
    | ExactDirection
    | SameDate
    | NearDate
    | ExactReference
    | ReferenceContains
    | ExactCounterparty

  /** Dates are day numbers; amounts are scaled by 10,000. */
  datatype BankTransaction = BankTransaction(
    firmId: Id,
    clientId: Id,
    sourceId: string,
    bookingDate: int,
    valueDate: Option<int>,
    direction: Direction,
    amount: int,
    currency: string,
    description: string,
    reference: Option<string>,
    counterparty: Option<string>)

  datatype Target = Target(
    firmId: Id,
    clientId: Id,
    outcomeId: Id,
    decisionRunId: Id,
    documentId: Id,
    date: int,
    direction: Direction,
    amount: int,
    currency: string,
    reference: Option<string>,
    counterparty: Option<string>)

  datatype Candidate = Candidate(target: Target, score: real, reasons: seq<MatchReason>)

  datatype MatchResult = MatchResult(status: CandidateStatus, candidates: seq<Candidate>)

  datatype MatchingPolicy = MatchingPolicy(
    dateWindowDays: int,
    minimumScore: real,
    sameDate: real,
    nearDate: real,
    exactReference: real,
    referenceContains: real,
    exactCounterparty: real,
    baseScore: real)

  const DEFAULT_POLICY := MatchingPolicy(7, 0.60, 0.20, 0.08, 0.15, 0.08, 0.10, 0.55)

  predicate IsUnit(score: real) { 0.0 <= score <= 1.0 }

  /** What the policy's constructor accepts. */
  predicate ValidPolicy(policy: MatchingPolicy) {
    policy.dateWindowDays >= 0 && IsUnit(policy.minimumScore) && IsUnit(policy.sameDate) &&
    IsUnit(policy.nearDate) && IsUnit(policy.exactReference) && IsUnit(policy.referenceContains) &&
    IsUnit(policy.exactCounterparty) && IsUnit(policy.baseScore)
  }

  predicate ValidCurrency(currency: string) {
    var code := Strip(currency);
    |code| == 3 && IsAsciiLetter(code[0]) && IsAsciiLetter(code[1]) && IsAsciiLetter(code[2])
  }

  /** What the transaction's constructor accepts. */
  predicate ValidTransaction(t: BankTransaction) {
    t.amount > 0 && ValidCurrency(t.currency) && Strip(t.sourceId) != "" && Strip(t.description) != ""
  }

  /** What the target's constructor accepts. */
  predicate ValidTarget(t: Target) {
    t.amount > 0 && ValidCurrency(t.currency)
  }

  /** What the candidate's constructor accepts. */
  predicate ValidCandidate(c: Candidate) {
    IsUnit(c.score) && c.reasons != []
  }

  /** What the result's constructor accepts. */
  predicate ValidResult(r: MatchResult) {
    (r.status == NoCandidates <==> r.candidates == []) &&
    forall i | 0 <= i < |r.candidates| :: ValidCandidate(r.candidates[i])
  }

  function NormalizedCurrency(currency: string): string { Upper(Strip(currency)) }

  function DaysBetween(a: int, b: int): nat { if a < b then b - a else a - b }

  function CompactText(text: Option<string>): string {
    match text
    case None => ""
    case Some(t) => KeepUpperAlnum(Upper(t))
  }

  datatype ReferenceEvidence = ReferenceEvidence(score: real, reasons: seq<MatchReason>)

  function ReferenceScore(policy: MatchingPolicy, left: string, right: string): ReferenceEvidence {
    if left == "" || right == "" then ReferenceEvidence(0.0, [])
    else if left == right then ReferenceEvidence(policy.exactReference, [ExactReference])
    else if Occurs(left, right) || Occurs(right, left) then
      ReferenceEvidence(policy.referenceContains, [ReferenceContains])
    else ReferenceEvidence(0.0, [])
  }

  /** The hard gates: nothing past them is ever a candidate. */
  predicate PassesGates(window: int, t: BankTransaction, target: Target) {
    t.firmId == target.firmId && t.clientId == target.clientId && t.amount == target.amount &&
    NormalizedCurrency(t.currency) == NormalizedCurrency(target.currency) &&
    t.direction == target.direction && DaysBetween(t.bookingDate, target.date) <= window
  }

  predicate SameCounterparty(t: BankTransaction, target: Target) {
    CompactText(t.counterparty) != "" && CompactText(t.counterparty) == CompactText(target.counterparty)
  }

  function RawScore(policy: MatchingPolicy, t: BankTransaction, target: Target): real {
    policy.baseScore +
    (if t.bookingDate == target.date then policy.sameDate else policy.nearDate) +
    ReferenceScore(policy, CompactText(t.reference), CompactText(target.reference)).score +
    (if SameCounterparty(t, target) then policy.exactCounterparty else 0.0)
  }

  function Reasons(policy: MatchingPolicy, t: BankTransaction, target: Target): seq<MatchReason> {
    [ExactAmount, ExactCurrency, ExactDirection] +
    (if t.bookingDate == target.date then [SameDate] else [NearDate]) +
    ReferenceScore(policy, CompactText(t.reference), CompactText(target.reference)).reasons +
    (if SameCounterparty(t, target) then [ExactCounterparty] else [])
  }

  function Capped(score: real): real { if score > 1.0 then 1.0 else score }

  function ScoreTarget(policy: MatchingPolicy, t: BankTransaction, target: Target): Option<Candidate> {
    if !PassesGates(policy.dateWindowDays, t, target) ||
       Capped(RawScore(policy, t, target)) < policy.minimumScore
    then None
    else Some(Candidate(target, Capped(RawScore(policy, t, target)), Reasons(policy, t, target)))
  }

  function Scored(policy: MatchingPolicy, t: BankTransaction, targets: seq<Target>): seq<Candidate> {
    if targets == [] then []
    else
      var n := |targets| - 1;
      var candidate := ScoreTarget(policy, t, targets[n]);
      Scored(policy, t, targets[..n]) + if candidate.Some? then [candidate.value] else []
  }

  /** Descending score, then ascending outcome id. */
  predicate Precedes(a: Candidate, b: Candidate) {
    a.score > b.score || (a.score == b.score && a.target.outcomeId < b.target.outcomeId)
  }

  /** Stable insertion: c goes after every element it does not precede. */
  function Insert(sorted: seq<Candidate>, c: Candidate): seq<Candidate> {
    if sorted == [] then [c]
    else
      var n := |sorted| - 1;
      if Precedes(c, sorted[n]) then Insert(sorted[..n], c) + [sorted[n]] else sorted + [c]
  }

  function Sort(candidates: seq<Candidate>): seq<Candidate> {
    if candidates == [] then []
    else Insert(Sort(candidates[..|candidates| - 1]), candidates[|candidates| - 1])
  }

  function MatchTargets(policy: MatchingPolicy, t: BankTransaction, targets: seq<Target>): MatchResult {
    var candidates := Sort(Scored(policy, t, targets));
    MatchResult(if candidates == [] then NoCandidates else CandidatesAvailable, candidates)
  }

  // ----- the matcher object

  class DeterministicMatcher {
    const policy: MatchingPolicy

    constructor (policy: MatchingPolicy)
      ensures this.policy == policy
    {
      this.policy := policy;
    }

    /** _score_candidate: early returns on the gates, then an accumulated score. */
    method ScoreCandidate(t: BankTransaction, target: Target) returns (candidate: Option<Candidate>)
      ensures candidate == ScoreTarget(policy, t, target)
    {
      candidate := None;
      if t.firmId != target.firmId || t.clientId != target.clientId { return; }
      if t.amount != target.amount { return; }
      if NormalizedCurrency(t.currency) != NormalizedCurrency(target.currency) { return; }
      if t.direction != target.direction { return; }
      var delta := DaysBetween(t.bookingDate, target.date);
      if delta > policy.dateWindowDays { return; }
      var score := policy.baseScore;
      var reasons := [ExactAmount, ExactCurrency, ExactDirection];
      if delta == 0 {
        score := score + policy.sameDate;
        reasons := reasons + [SameDate];
      } else {
        score := score + policy.nearDate;
        reasons := reasons + [NearDate];
      }
      var evidence := ReferenceScore(policy, CompactText(t.reference), CompactText(target.reference));
      score := score + evidence.score;
      reasons := reasons + evidence.reasons;
      if CompactText(t.counterparty) != "" && CompactText(t.counterparty) == CompactText(target.counterparty) {
        score := score + policy.exactCounterparty;
        reasons := reasons + [ExactCounterparty];
      }
      score := if score > 1.0 then 1.0 else score;
      assert reasons == Reasons(policy, t, target);
      if score < policy.minimumScore { return; }
      candidate := Some(Candidate(target, score, reasons));
    }

    method Match(t: BankTransaction, targets: seq<Target>) returns (result: MatchResult)
      ensures result == MatchTargets(policy, t, targets)
    {
      var candidates := [];
      for k := 0 to |targets|
        invariant candidates == Scored(policy, t, targets[..k])
      {
        assert targets[..k + 1][..k] == targets[..k];
        var candidate := ScoreCandidate(t, targets[k]);
        if candidate.Some? {
          candidates := candidates + [candidate.value];
        }
      }
      assert targets[..|targets|] == targets;
      candidates := Sort(candidates);
      if candidates == [] {
        result := MatchResult(NoCandidates, []);
      } else {
        result := MatchResult(CandidatesAvailable, candidates);
      }
    }
  }

  // ----- scores

  lemma ScoreIsUnit(policy: MatchingPolicy, t: BankTransaction, target: Target)
    requires ValidPolicy(policy)
    ensures ScoreTarget(policy, t, target).Some? ==> ValidCandidate(ScoreTarget(policy, t, target).value)
  {
    assert |Reasons(policy, t, target)| >= 4;
  }

  /** Under the default policy the threshold and the cap exclude nothing: a target is a
      candidate exactly when it passes the gates. */
  lemma DefaultPolicyIsGates(t: BankTransaction, target: Target)
    ensures ScoreTarget(DEFAULT_POLICY, t, target).Some? <==> PassesGates(7, t, target)
    ensures RawScore(DEFAULT_POLICY, t, target) <= 1.0
    ensures 0.63 <= RawScore(DEFAULT_POLICY, t, target)
  {
    hide CompactText;
  }

  // ----- what the result contains, and in which order

  ghost predicate StrictlySorted(candidates: seq<Candidate>) {
    forall i, j | 0 <= i < j < |candidates| :: Precedes(candidates[i], candidates[j])
  }

  ghost predicate DistinctOutcomes(targets: seq<Target>) {
    forall i, j | 0 <= i < j < |targets| :: targets[i].outcomeId != targets[j].outcomeId
  }

  lemma {:induction false} ScoredMembers(
      policy: MatchingPolicy, t: BankTransaction, targets: seq<Target>, c: Candidate)
    ensures c in Scored(policy, t, targets) <==>
      c.target in targets && ScoreTarget(policy, t, c.target) == Some(c)
  {
    hide PassesGates, RawScore, Reasons;
    if targets != [] {
      var n := |targets| - 1;
      ScoredMembers(policy, t, targets[..n], c);
      assert targets == targets[..n] + [targets[n]];
    }
  }

  lemma {:induction false} InsertMembers(sorted: seq<Candidate>, c: Candidate)
    ensures multiset(Insert(sorted, c)) == multiset(sorted) + multiset{c}
  {
    if sorted != [] {
      var n := |sorted| - 1;
      assert sorted == sorted[..n] + [sorted[n]];
      if Precedes(c, sorted[n]) {
        InsertMembers(sorted[..n], c);
      }
    }
  }

  lemma {:induction false} SortMembers(candidates: seq<Candidate>)
    ensures multiset(Sort(candidates)) == multiset(candidates)
  {
    hide Insert;
    if candidates != [] {
      var n := |candidates| - 1;
      SortMembers(candidates[..n]);
      InsertMembers(Sort(candidates[..n]), candidates[n]);
      assert candidates == candidates[..n] + [candidates[n]];
    }
  }

  lemma InsertedMember(sorted: seq<Candidate>, c: Candidate, x: Candidate)
    ensures x in Insert(sorted, c) <==> x in sorted || x == c
  {
    InsertMembers(sorted, c);
    assert x in Insert(sorted, c) <==> x in multiset(Insert(sorted, c));
  }

  lemma {:induction false} InsertSorts(sorted: seq<Candidate>, c: Candidate)
    requires StrictlySorted(sorted)
    requires forall x | x in sorted :: x.target.outcomeId != c.target.outcomeId
    ensures StrictlySorted(Insert(sorted, c))
  {
    if sorted != [] {
      var n := |sorted| - 1;
      if Precedes(c, sorted[n]) {
        InsertSorts(sorted[..n], c);
        var front := Insert(sorted[..n], c);
        forall i | 0 <= i < |front|
          ensures Precedes(front[i], sorted[n])
        {
          InsertedMember(sorted[..n], c, front[i]);
        }
      } else {
        assert Precedes(sorted[n], c);
        forall i | 0 <= i < n
          ensures Precedes(sorted[i], c)
        {
          assert Precedes(sorted[i], sorted[n]);
        }
      }
    }
  }

  ghost predicate DistinctTargets(candidates: seq<Candidate>) {
    forall i, j | 0 <= i < j < |candidates| ::
      candidates[i].target.outcomeId != candidates[j].target.outcomeId
  }

  lemma {:induction false} SortSorts(candidates: seq<Candidate>)
    requires DistinctTargets(candidates)
    ensures StrictlySorted(Sort(candidates))
  {
    if candidates != [] {
      var n := |candidates| - 1;
      var front := candidates[..n];
      SortSorts(front);
      SortMembers(front);
      forall x | x in Sort(front)
        ensures x.target.outcomeId != candidates[n].target.outcomeId
      {
        assert x in multiset(front);
        var k :| 0 <= k < n && front[k] == x;
      }
      InsertSorts(Sort(front), candidates[n]);
    }
  }

  lemma {:induction false} ScoredDistinct(policy: MatchingPolicy, t: BankTransaction, targets: seq<Target>)
    requires DistinctOutcomes(targets)
    ensures DistinctTargets(Scored(policy, t, targets))
  {
    hide PassesGates, RawScore, Reasons;
    if targets != [] {
      var n := |targets| - 1;
      var front := Scored(policy, t, targets[..n]);
      ScoredDistinct(policy, t, targets[..n]);
      forall i | 0 <= i < |front|
        ensures front[i].target.outcomeId != targets[n].outcomeId
      {
        ScoredMembers(policy, t, targets[..n], front[i]);
        assert front[i].target in targets[..n];
      }
    }
  }

  lemma TailMember(sorted: seq<Candidate>, x: Candidate)
    requires StrictlySorted(sorted) && sorted != []
    ensures x in sorted[1..] <==> x in sorted && x != sorted[0]
  {
    assert sorted == [sorted[0]] + sorted[1..];
    if x in sorted[1..] {
      var i :| 1 <= i < |sorted| && sorted[i] == x;
      assert Precedes(sorted[0], sorted[i]);
    }
  }

  /** Two strictly sorted lists with the same members are the same list. */
  lemma {:induction false} SortedUnique(a: seq<Candidate>, b: seq<Candidate>)
    requires StrictlySorted(a) && StrictlySorted(b)
    requires forall x :: x in a <==> x in b
    ensures a == b
    decreases |a|
  {
    assert b != [] ==> b[0] in b;
    if a != [] {
      assert a[0] in b && b[0] in a;
      assert a[0] == b[0];
      forall x
        ensures x in a[1..] <==> x in b[1..]
      {
        TailMember(a, x);
        TailMember(b, x);
      }
      SortedUnique(a[1..], b[1..]);
    }
  }

  lemma MatchMembers(policy: MatchingPolicy, t: BankTransaction, targets: seq<Target>, c: Candidate)
    ensures c in MatchTargets(policy, t, targets).candidates <==>
      c.target in targets && ScoreTarget(policy, t, c.target) == Some(c)
  {
    ScoredMembers(policy, t, targets, c);
    SortMembers(Scored(policy, t, targets));
    assert c in Sort(Scored(policy, t, targets)) <==> c in multiset(Sort(Scored(policy, t, targets)));
  }

  /** The result's constructors accept it, it is in descending score then ascending id order,
      and it holds exactly the targets that score, for any valid policy and any targets. */
  lemma MatchIsSound(policy: MatchingPolicy, t: BankTransaction, targets: seq<Target>)
    requires ValidPolicy(policy)
    ensures ValidResult(MatchTargets(policy, t, targets))
    ensures DistinctOutcomes(targets) ==> StrictlySorted(MatchTargets(policy, t, targets).candidates)
    ensures forall target | target in targets && ScoreTarget(policy, t, target).Some? ::
      ScoreTarget(policy, t, target).value in MatchTargets(policy, t, targets).candidates
    ensures forall c | c in MatchTargets(policy, t, targets).candidates ::
      c.target in targets && ScoreTarget(policy, t, c.target) == Some(c)
  {
    hide PassesGates, RawScore, Reasons, Sort, Scored, ScoreTarget;
    var result := MatchTargets(policy, t, targets);
    forall c | c in result.candidates
      ensures ValidCandidate(c) && c.target in targets && ScoreTarget(policy, t, c.target) == Some(c)
    {
      MatchMembers(policy, t, targets, c);
      ScoreIsUnit(policy, t, c.target);
    }
    forall target | target in targets && ScoreTarget(policy, t, target).Some?
      ensures ScoreTarget(policy, t, target).value in result.candidates
    {
      var c := ScoreTarget(policy, t, target).value;
      CandidateTarget(policy, t, target);
      MatchMembers(policy, t, targets, c);
    }
    if DistinctOutcomes(targets) {
      ScoredDistinct(policy, t, targets);
      SortSorts(Scored(policy, t, targets));
    }
  }

  lemma CandidateTarget(policy: MatchingPolicy, t: BankTransaction, target: Target)
    ensures ScoreTarget(policy, t, target).Some? ==> ScoreTarget(policy, t, target).value.target == target
  {
  }

  /** The result does not depend on the order in which the targets are listed. */
  lemma MatchOrderIndependent(
      policy: MatchingPolicy, t: BankTransaction, targets: seq<Target>, reordered: seq<Target>)
    requires DistinctOutcomes(targets) && multiset(reordered) == multiset(targets)
    ensures MatchTargets(policy, t, reordered) == MatchTargets(policy, t, targets)
  {
    hide PassesGates, RawScore, Reasons, Sort, Scored, ScoreTarget;
    var a, b := MatchTargets(policy, t, reordered).candidates, MatchTargets(policy, t, targets).candidates;
    ReorderedDistinct(targets, reordered);
    ScoredDistinct(policy, t, targets);
    ScoredDistinct(policy, t, reordered);
    SortSorts(Scored(policy, t, targets));
    SortSorts(Scored(policy, t, reordered));
    forall x
      ensures x in a <==> x in b
    {
      MatchMembers(policy, t, targets, x);
      MatchMembers(policy, t, reordered, x);
      assert x.target in reordered <==> x.target in multiset(reordered);
    }
    SortedUnique(a, b);
  }

  lemma ReorderedDistinct(targets: seq<Target>, reordered: seq<Target>)
    requires DistinctOutcomes(targets) && multiset(reordered) == multiset(targets)
    ensures DistinctOutcomes(reordered)
  {
    forall i, j | 0 <= i < j < |reordered|
      ensures reordered[i].outcomeId != reordered[j].outcomeId
    {
      var x, y := reordered[i], reordered[j];
      assert x in multiset(targets) && y in multiset(targets);
      if x.outcomeId == y.outcomeId {
        var k :| 0 <= k < |targets| && targets[k] == x;
        var l :| 0 <= l < |targets| && targets[l] == y;
        assert k == l;
        OccursTwice(reordered, i, j);
        OccursOnce(targets, k);
      }
    }
  }

  lemma OccursTwice(s: seq<Target>, i: nat, j: nat)
    requires i < j < |s| && s[i] == s[j]
    ensures multiset(s)[s[i]] >= 2
  {
    assert s == s[..j] + s[j..];
    assert s[..j][i] == s[i] && s[j..][0] == s[i];
  }

  lemma OccursOnce(s: seq<Target>, k: nat)
    requires DistinctOutcomes(s) && k < |s|
    ensures multiset(s)[s[k]] == 1
  {
    assert s == s[..k] + [s[k]] + s[k + 1..];
    assert s[k] !in s[..k] && s[k] !in s[k + 1..];
  }
}
