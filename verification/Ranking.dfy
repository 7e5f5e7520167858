/** What a candidate's reasons, score and rank say about the transaction and its target. */
module Ranking {
  import opened Prelude
  import opened Text
  import opened Matching

  // ----- the texts that are compared

  /** Compact text is built character by character: letters in upper case and digits stay,
      everything else is dropped. */
  lemma {:induction false} KeepConcat(a: string, b: string)
    ensures KeepUpperAlnum(a + b) == KeepUpperAlnum(a) + KeepUpperAlnum(b)
  {
    hide KeepUpperAlnum, IsUpperAlnum;
    if a == "" {
      KeepCons('0', "");
      assert a + b == b;
    } else {
      KeepConcat(a[1..], b);
      KeepCons(a[0], a[1..]);
      KeepCons(a[0], a[1..] + b);
      assert [a[0]] + a[1..] == a && [a[0]] + (a[1..] + b) == a + b;
    }
  }

  lemma KeepCons(c: char, rest: string)
    ensures KeepUpperAlnum([c] + rest) == (if IsUpperAlnum(c) then [c] else []) + KeepUpperAlnum(rest)
    ensures KeepUpperAlnum("") == ""
  {
    assert ([c] + rest)[1..] == rest;
  }

  lemma CompactCharacterwise(a: string, c: char, b: string)
    ensures CompactText(Some(a + [c] + b)) ==
      CompactText(Some(a)) + (if IsAsciiLetter(c) || IsDigit(c) then [UpperChar(c)] else "") + CompactText(Some(b))
    ensures CompactText(Some("")) == "" && CompactText(None) == ""
  {
    assert Upper(a + [c] + b) == Upper(a) + [UpperChar(c)] + Upper(b);
    KeepConcat(Upper(a) + [UpperChar(c)], Upper(b));
    KeepConcat(Upper(a), [UpperChar(c)]);
    assert [UpperChar(c)][1..] == "";
    assert KeepUpperAlnum([UpperChar(c)]) == if IsUpperAlnum(UpperChar(c)) then [UpperChar(c)] else "";
  }

  /** One text stands inside another, with something before and after it. */
  ghost predicate Inside(needle: string, text: string) {
    exists before: string, after: string :: text == before + needle + after
  }

  lemma OccursInside(needle: string, text: string)
    ensures Occurs(needle, text) <==> Inside(needle, text)
  {
    if Occurs(needle, text) {
      var i :| 0 <= i <= |text| && OccursAt(needle, text, i);
      assert text == text[..i] + needle + text[i + |needle|..];
    }
    if Inside(needle, text) {
      var before: string, after: string :| text == before + needle + after;
      assert OccursAt(needle, text, |before|);
    }
  }

  // ----- when a reason holds

  predicate SameReference(t: BankTransaction, target: Target) {
    CompactText(t.reference) != "" && CompactText(t.reference) == CompactText(target.reference)
  }

  /** Both references are there and one stands inside the other, without being equal. */
  ghost predicate ContainedReference(t: BankTransaction, target: Target) {
    var left, right := CompactText(t.reference), CompactText(target.reference);
    left != "" && right != "" && left != right && (Inside(left, right) || Inside(right, left))
  }

  ghost predicate Holds(reason: MatchReason, t: BankTransaction, target: Target) {
    match reason
    case ExactAmount => t.amount == target.amount
    case ExactCurrency => EqualIgnoringCase(Strip(t.currency), Strip(target.currency))
    case ExactDirection => t.direction == target.direction
    case SameDate => t.bookingDate == target.date
    case NearDate => t.bookingDate != target.date
    case ExactReference => SameReference(t, target)
    case ReferenceContains => ContainedReference(t, target)
    case ExactCounterparty =>
      CompactText(t.counterparty) != "" && CompactText(t.counterparty) == CompactText(target.counterparty)
  }

  const REASON_ORDER := [
    ExactAmount, ExactCurrency, ExactDirection, SameDate, NearDate, ExactReference, ReferenceContains,
    ExactCounterparty]

  /** What a reason adds to the base score; the gates add nothing. */
  function Weight(policy: MatchingPolicy, reason: MatchReason): real {
    match reason
    case SameDate => policy.sameDate
    case NearDate => policy.nearDate
    case ExactReference => policy.exactReference
    case ReferenceContains => policy.referenceContains
    case ExactCounterparty => policy.exactCounterparty
    case _ => 0.0
  }

  /** The reasons of the list that hold, in its order. */
  ghost function Holding(order: seq<MatchReason>, t: BankTransaction, target: Target): seq<MatchReason> {
    if order == [] then []
    else (if Holds(order[0], t, target) then [order[0]] else []) + Holding(order[1..], t, target)
  }

  function TotalWeight(policy: MatchingPolicy, reasons: seq<MatchReason>): real {
    if reasons == [] then 0.0 else Weight(policy, reasons[0]) + TotalWeight(policy, reasons[1..])
  }

  /** The weight of every reason that holds, on top of the base score and capped at one. */
  ghost function Merit(policy: MatchingPolicy, t: BankTransaction, target: Target): real {
    var score := policy.baseScore + TotalWeight(policy, Holding(REASON_ORDER, t, target));
    if score > 1.0 then 1.0 else score
  }

  /** Same owner, amount, currency and direction, and dates no further apart than the window. */
  predicate WithinGates(window: int, t: BankTransaction, target: Target) {
    t.firmId == target.firmId && t.clientId == target.clientId && t.amount == target.amount &&
    EqualIgnoringCase(Strip(t.currency), Strip(target.currency)) && t.direction == target.direction &&
    -window <= t.bookingDate - target.date <= window
  }

  // ----- the score function says the same

  lemma SameCurrency(a: string, b: string)
    ensures NormalizedCurrency(a) == NormalizedCurrency(b) <==> EqualIgnoringCase(Strip(a), Strip(b))
  {
    hide Strip;
    var x, y := Strip(a), Strip(b);
    if Upper(x) == Upper(y) {
      forall i | 0 <= i < |x|
        ensures LowerChar(x[i]) == LowerChar(y[i])
      {
        assert Upper(x)[i] == Upper(y)[i];
      }
    } else if |x| == |y| {
      var i :| 0 <= i < |x| && Upper(x)[i] != Upper(y)[i];
      assert LowerChar(x[i]) != LowerChar(y[i]);
    }
  }

  lemma GatesExact(window: int, t: BankTransaction, target: Target)
    ensures PassesGates(window, t, target) <==> WithinGates(window, t, target)
  {
    hide Strip, NormalizedCurrency, EqualIgnoringCase;
    SameCurrency(t.currency, target.currency);
  }

  ghost function Held(reason: MatchReason, t: BankTransaction, target: Target): seq<MatchReason> {
    if Holds(reason, t, target) then [reason] else []
  }

  lemma HoldingCons(reason: MatchReason, rest: seq<MatchReason>, t: BankTransaction, target: Target)
    ensures Holding([reason] + rest, t, target) == Held(reason, t, target) + Holding(rest, t, target)
  {
    assert ([reason] + rest)[1..] == rest;
  }

  lemma HoldingUnrolled(t: BankTransaction, target: Target)
    ensures Holding(REASON_ORDER, t, target) ==
      Held(ExactAmount, t, target) + (Held(ExactCurrency, t, target) + (Held(ExactDirection, t, target) +
      (Held(SameDate, t, target) + (Held(NearDate, t, target) + (Held(ExactReference, t, target) +
      (Held(ReferenceContains, t, target) + Held(ExactCounterparty, t, target)))))))
  {
    hide Held;
    var none: seq<MatchReason> := [];
    var counterparty := [ExactCounterparty] + none;
    var contains := [ReferenceContains] + counterparty;
    var exact := [ExactReference] + contains;
    var near := [NearDate] + exact;
    var same := [SameDate] + near;
    var direction := [ExactDirection] + same;
    var currency := [ExactCurrency] + direction;
    HoldingCons(ExactCounterparty, none, t, target);
    HoldingCons(ReferenceContains, counterparty, t, target);
    HoldingCons(ExactReference, contains, t, target);
    HoldingCons(NearDate, exact, t, target);
    HoldingCons(SameDate, near, t, target);
    HoldingCons(ExactDirection, same, t, target);
    HoldingCons(ExactCurrency, direction, t, target);
    HoldingCons(ExactAmount, currency, t, target);
    assert REASON_ORDER == [ExactAmount] + currency;
  }

  lemma {:induction false} WeightConcat(policy: MatchingPolicy, a: seq<MatchReason>, b: seq<MatchReason>)
    ensures TotalWeight(policy, a + b) == TotalWeight(policy, a) + TotalWeight(policy, b)
  {
    if a == [] {
      assert a + b == b;
    } else {
      assert (a + b)[1..] == a[1..] + b;
      WeightConcat(policy, a[1..], b);
    }
  }

  /** The evidence of the references: the reason that holds of them, with its weight. */
  lemma ReferenceEvidenceExact(policy: MatchingPolicy, t: BankTransaction, target: Target)
    ensures var evidence := ReferenceScore(policy, CompactText(t.reference), CompactText(target.reference));
      && evidence.reasons == Held(ExactReference, t, target) + Held(ReferenceContains, t, target)
      && evidence.score == TotalWeight(policy, evidence.reasons)
  {
    hide CompactText, Occurs, Inside;
    OccursInside(CompactText(t.reference), CompactText(target.reference));
    OccursInside(CompactText(target.reference), CompactText(t.reference));
  }

  lemma ScoreExact(policy: MatchingPolicy, t: BankTransaction, target: Target)
    ensures ScoreTarget(policy, t, target) ==
      if WithinGates(policy.dateWindowDays, t, target) && Merit(policy, t, target) >= policy.minimumScore
      then Some(Candidate(target, Merit(policy, t, target), Holding(REASON_ORDER, t, target))) else None
  {
    hide PassesGates, WithinGates, RawScore, Reasons, Holding, TotalWeight;
    GatesExact(policy.dateWindowDays, t, target);
    if WithinGates(policy.dateWindowDays, t, target) {
      ReasonsAre(policy, t, target);
    }
  }

  lemma ReasonsAre(policy: MatchingPolicy, t: BankTransaction, target: Target)
    requires WithinGates(policy.dateWindowDays, t, target)
    ensures Reasons(policy, t, target) == Holding(REASON_ORDER, t, target)
    ensures RawScore(policy, t, target) == policy.baseScore + TotalWeight(policy, Holding(REASON_ORDER, t, target))
  {
    hide CompactText, ReferenceScore, ContainedReference, SameReference, EqualIgnoringCase, Strip, Holding, TotalWeight,
      RawScore;
    HoldingUnrolled(t, target);
    ReferenceEvidenceExact(policy, t, target);
    ReasonsWeigh(policy, t, target);
  }

  lemma ReasonsWeigh(policy: MatchingPolicy, t: BankTransaction, target: Target)
    ensures RawScore(policy, t, target) == policy.baseScore + TotalWeight(policy, Reasons(policy, t, target))
  {
    hide CompactText, ReferenceScore, Held;
    var evidence := ReferenceScore(policy, CompactText(t.reference), CompactText(target.reference));
    ReferenceEvidenceExact(policy, t, target);
    var gates, date := [ExactAmount, ExactCurrency, ExactDirection],
                       if t.bookingDate == target.date then [SameDate] else [NearDate];
    var counterparty := if SameCounterparty(t, target) then [ExactCounterparty] else [];
    WeightConcat(policy, gates + date + evidence.reasons, counterparty);
    WeightConcat(policy, gates + date, evidence.reasons);
    WeightConcat(policy, gates, date);
    GatesWeighNothing(policy);
  }

  lemma GatesWeighNothing(policy: MatchingPolicy)
    ensures TotalWeight(policy, [ExactAmount, ExactCurrency, ExactDirection]) == 0.0
  {
    var one, two, three := [ExactDirection], [ExactCurrency, ExactDirection],
                           [ExactAmount, ExactCurrency, ExactDirection];
    assert one[1..] == [] && two[1..] == one && three[1..] == two;
    assert TotalWeight(policy, one) == 0.0;
    assert TotalWeight(policy, two) == 0.0;
  }

  // ----- candidates

  /** For every policy: a target becomes a candidate exactly when it is within the gates and what
      holds of it reaches the minimum; and then its reasons are exactly those that hold, in the
      fixed order, and its score is the capped sum of their weights. */
  lemma CandidatesExact(policy: MatchingPolicy, t: BankTransaction, targets: seq<Target>, c: Candidate)
    ensures c in MatchTargets(policy, t, targets).candidates <==>
      && c.target in targets && WithinGates(policy.dateWindowDays, t, c.target)
      && Merit(policy, t, c.target) >= policy.minimumScore
      && c.score == Merit(policy, t, c.target) && c.reasons == Holding(REASON_ORDER, t, c.target)
  {
    hide MatchTargets, WithinGates, Merit, Holding, ScoreTarget;
    MatchMembers(policy, t, targets, c);
    ScoreExact(policy, t, c.target);
  }

  lemma {:induction false} HoldingMembers(
      order: seq<MatchReason>, t: BankTransaction, target: Target, reason: MatchReason)
    ensures reason in Holding(order, t, target) <==> reason in order && Holds(reason, t, target)
  {
    hide Holds;
    if order != [] {
      HoldingMembers(order[1..], t, target, reason);
      assert order == [order[0]] + order[1..];
    }
  }

  lemma EveryReason(reason: MatchReason)
    ensures reason in REASON_ORDER
  {
    assert REASON_ORDER[0] == ExactAmount && REASON_ORDER[1] == ExactCurrency && REASON_ORDER[2] == ExactDirection;
    assert REASON_ORDER[3] == SameDate && REASON_ORDER[4] == NearDate && REASON_ORDER[5] == ExactReference;
    assert REASON_ORDER[6] == ReferenceContains && REASON_ORDER[7] == ExactCounterparty;
  }

  /** A candidate lists a reason exactly when the reason holds of the transaction and its target. */
  lemma ReasonsHold(
      policy: MatchingPolicy, t: BankTransaction, targets: seq<Target>, c: Candidate, reason: MatchReason)
    requires c in MatchTargets(policy, t, targets).candidates
    ensures reason in c.reasons <==> Holds(reason, t, c.target)
  {
    hide MatchTargets, Holds, Holding, REASON_ORDER;
    CandidatesExact(policy, t, targets, c);
    EveryReason(reason);
    HoldingMembers(REASON_ORDER, t, c.target, reason);
  }

  // ----- ranks

  /** Two for equal references, one for a contained one, zero for none. */
  ghost function ReferenceRank(t: BankTransaction, target: Target): nat {
    if SameReference(t, target) then 2 else if ContainedReference(t, target) then 1 else 0
  }

  /** The two targets stand alike to the transaction in date and counterparty. */
  ghost predicate AlikeButReference(t: BankTransaction, a: Target, b: Target) {
    (Holds(SameDate, t, a) <==> Holds(SameDate, t, b)) &&
    (Holds(ExactCounterparty, t, a) <==> Holds(ExactCounterparty, t, b))
  }

  lemma DefaultMerit(t: BankTransaction, target: Target)
    requires WithinGates(7, t, target)
    ensures Merit(DEFAULT_POLICY, t, target) ==
      0.55 + (if t.bookingDate == target.date then 0.20 else 0.08) +
      (if ReferenceRank(t, target) == 2 then 0.15 else if ReferenceRank(t, target) == 1 then 0.08 else 0.0) +
      (if Holds(ExactCounterparty, t, target) then 0.10 else 0.0)
  {
    hide CompactText, Occurs, Inside, Holding, TotalWeight, WithinGates;
    ReasonsAre(DEFAULT_POLICY, t, target);
    OccursInside(CompactText(t.reference), CompactText(target.reference));
    OccursInside(CompactText(target.reference), CompactText(t.reference));
  }

  /** Under the default policy, with date and counterparty alike, an exact reference is listed
      above a contained one, and a contained one above none. */
  lemma ReferencesRank(t: BankTransaction, targets: seq<Target>, i: nat, j: nat)
    requires DistinctOutcomes(targets)
    requires i < |MatchTargets(DEFAULT_POLICY, t, targets).candidates|
    requires j < |MatchTargets(DEFAULT_POLICY, t, targets).candidates|
    ensures var candidates := MatchTargets(DEFAULT_POLICY, t, targets).candidates;
      var a, b := candidates[i], candidates[j];
      AlikeButReference(t, a.target, b.target) && ReferenceRank(t, a.target) > ReferenceRank(t, b.target) ==>
        i < j && a.score > b.score
  {
    hide MatchTargets, WithinGates, Merit, Holding, SameReference, ContainedReference, CompactText;
    var candidates := MatchTargets(DEFAULT_POLICY, t, targets).candidates;
    var a, b := candidates[i], candidates[j];
    CandidatesExact(DEFAULT_POLICY, t, targets, a);
    CandidatesExact(DEFAULT_POLICY, t, targets, b);
    DefaultMerit(t, a.target);
    DefaultMerit(t, b.target);
    MatchIsSound(DEFAULT_POLICY, t, targets);
    assert i > j ==> Precedes(b, a);
  }

  /** Candidates stand in descending order of score and, at equal scores, in ascending order of the
      outcome's id. */
  lemma CandidatesOrdered(policy: MatchingPolicy, t: BankTransaction, targets: seq<Target>, i: nat, j: nat)
    requires ValidPolicy(policy) && DistinctOutcomes(targets)
    requires i < j < |MatchTargets(policy, t, targets).candidates|
    ensures var a, b := MatchTargets(policy, t, targets).candidates[i], MatchTargets(policy, t, targets).candidates[j];
      a.score >= b.score && (a.score == b.score ==> a.target.outcomeId < b.target.outcomeId)
  {
    hide MatchTargets;
    MatchIsSound(policy, t, targets);
    var candidates := MatchTargets(policy, t, targets).candidates;
    assert Precedes(candidates[i], candidates[j]);
  }
}
