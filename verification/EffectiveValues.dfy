/** Extracted fields, their append-only corrections, and the two ways the services fold
    them into effective values. */
module EffectiveValues {
  import opened Prelude

  datatype ValueType = TextValue | DecimalValue | DateValue | IntegerValue | BooleanValue

  /** A provider observation; its id is its position in its extraction run. */
  datatype ExtractedField = ExtractedField(
    path: string,
    valueType: ValueType,
    rawValue: string,
    normalizedValue: Option<string>,
    confidence: Option<int>)

  datatype Correction = Correction(
    runId: Id,
    fieldId: Id,
    revision: nat,
    rawValue: string,
    normalizedValue: Option<string>,
    valueType: ValueType,
    correctedBy: Id,
    reason: string,
    createdAt: nat)

  datatype EffectiveValue = EffectiveValue(
    fieldId: Id,
    path: string,
    valueType: ValueType,
    rawValue: string,
    normalizedValue: Option<string>,
    confidence: Option<int>,
    latestRevision: Option<nat>)
  {
    function Value(): string {
      if normalizedValue.Some? then normalizedValue.value else rawValue
    }
  }

  /** The correction a left-to-right pass keeps for a field: a later entry replaces the one
      held only when its revision is larger. */
  function LatestCorrection(corrections: seq<Correction>, fieldId: Id): Option<Correction> {
    if corrections == [] then None
    else
      var held := LatestCorrection(corrections[..|corrections| - 1], fieldId);
      var c := corrections[|corrections| - 1];
      if c.fieldId == fieldId && (held.None? || c.revision > held.value.revision)
      then Some(c) else held
  }

  function EffectiveField(field: ExtractedField, fieldId: Id, latest: Option<Correction>): EffectiveValue {
    match latest
    case None =>
      EffectiveValue(fieldId, field.path, field.valueType, field.rawValue,
                     field.normalizedValue, field.confidence, None)
    case Some(c) =>
      EffectiveValue(fieldId, field.path, c.valueType, c.rawValue,
                     c.normalizedValue, field.confidence, Some(c.revision))
  }

  /** Path to effective value; a later field overwrites an earlier one with the same path. */
  function Effective(fields: seq<ExtractedField>, corrections: seq<Correction>): map<string, EffectiveValue> {
    if fields == [] then map[]
    else
      var n := |fields| - 1;
      Effective(fields[..n], corrections)
        [fields[n].path := EffectiveField(fields[n], n, LatestCorrection(corrections, n))]
  }

  predicate UniquePaths(fields: seq<ExtractedField>) {
    forall i, j | 0 <= i < j < |fields| :: fields[i].path != fields[j].path
  }

  // ----- what an effective value shows

  /** The value is the provider's observation of field i. */
  predicate ShowsObservation(v: EffectiveValue, field: ExtractedField, i: Id) {
    v.fieldId == i && v.path == field.path && v.confidence == field.confidence && v.latestRevision.None? &&
    v.valueType == field.valueType && v.rawValue == field.rawValue && v.normalizedValue == field.normalizedValue
  }

  /** The value is field i as corrected: the correction's texts, type and revision, and the
      confidence of the observation. */
  predicate ShowsCorrection(v: EffectiveValue, field: ExtractedField, i: Id, c: Correction) {
    v.fieldId == i && v.path == field.path && v.confidence == field.confidence &&
    v.latestRevision == Some(c.revision) && v.valueType == c.valueType && v.rawValue == c.rawValue &&
    v.normalizedValue == c.normalizedValue
  }

  ghost predicate IsUncorrected(corrections: seq<Correction>, i: Id) {
    forall c | c in corrections :: c.fieldId != i
  }

  /** The engine's reading: the observation, or a correction of highest revision. */
  ghost predicate ReadsHighest(v: EffectiveValue, field: ExtractedField, i: Id, corrections: seq<Correction>) {
    if IsUncorrected(corrections, i) then ShowsObservation(v, field, i)
    else exists c | c in corrections ::
      c.fieldId == i && IsHighestRevision(c, corrections) && ShowsCorrection(v, field, i, c)
  }

  ghost predicate IsLastOf(corrections: seq<Correction>, k: nat, i: Id) {
    k < |corrections| && corrections[k].fieldId == i && forall j | k < j < |corrections| :: corrections[j].fieldId != i
  }

  /** The API's reading: the observation, or the correction listed last. */
  ghost predicate ReadsLast(v: EffectiveValue, field: ExtractedField, i: Id, corrections: seq<Correction>) {
    if IsUncorrected(corrections, i) then ShowsObservation(v, field, i)
    else exists k: nat :: IsLastOf(corrections, k, i) && ShowsCorrection(v, field, i, corrections[k])
  }

  ghost predicate AllReadHighest(
      values: map<string, EffectiveValue>, fields: seq<ExtractedField>, corrections: seq<Correction>)
  {
    (forall i | 0 <= i < |fields| ::
       fields[i].path in values && ReadsHighest(values[fields[i].path], fields[i], i, corrections)) &&
    forall path | path in values :: exists i | 0 <= i < |fields| :: fields[i].path == path
  }

  lemma HighestRead(fields: seq<ExtractedField>, corrections: seq<Correction>)
    requires UniquePaths(fields)
    ensures AllReadHighest(Effective(fields, corrections), fields, corrections)
  {
    hide LatestCorrection, Effective, IsHighestRevision;
    forall i | 0 <= i < |fields|
      ensures fields[i].path in Effective(fields, corrections)
      ensures ReadsHighest(Effective(fields, corrections)[fields[i].path], fields[i], i, corrections)
    {
      EffectiveAt(fields, corrections, i);
      LatestIsHighestRevision(corrections, i);
      var latest := LatestCorrection(corrections, i);
      assert latest.Some? ==> latest.value in corrections by { HighestIsMember(corrections, i); }
    }
    EffectivePaths(fields, corrections);
  }

  lemma HighestIsMember(corrections: seq<Correction>, i: Id)
    ensures LatestCorrection(corrections, i).Some? ==> LatestCorrection(corrections, i).value in corrections
  {
    LatestIsHighestRevision(corrections, i);
  }

  lemma {:induction false} EffectivePaths(fields: seq<ExtractedField>, corrections: seq<Correction>)
    ensures forall path | path in Effective(fields, corrections) ::
      exists i | 0 <= i < |fields| :: fields[i].path == path
  {
    if fields != [] {
      var n := |fields| - 1;
      EffectivePaths(fields[..n], corrections);
      forall path | path in Effective(fields, corrections)
        ensures exists i | 0 <= i < |fields| :: fields[i].path == path
      {
        if path != fields[n].path {
          assert path in Effective(fields[..n], corrections);
          var i :| 0 <= i < n && fields[..n][i].path == path;
          assert fields[i].path == path;
        }
      }
    }
  }

  lemma {:induction false} GroupLast(corrections: seq<Correction>, i: Id) returns (k: nat)
    ensures LastOf(Grouped(corrections, i)).None? <==> IsUncorrected(corrections, i)
    ensures LastOf(Grouped(corrections, i)).Some? ==>
      IsLastOf(corrections, k, i) && LastOf(Grouped(corrections, i)) == Some(corrections[k])
  {
    k := 0;
    if corrections != [] {
      var n := |corrections| - 1;
      k := GroupLast(corrections[..n], i);
      assert corrections == corrections[..n] + [corrections[n]];
      if corrections[n].fieldId == i {
        k := n;
      }
    }
  }

  lemma LastRead(fields: seq<ExtractedField>, corrections: seq<Correction>, i: nat)
    requires i < |fields|
    ensures ReadsLast(Responses(fields, corrections)[i], fields[i], i, corrections)
  {
    var k := GroupLast(corrections, i);
  }

  /** build_effective_extraction_values: two dictionaries, each filled by one pass. */
  method BuildEffectiveValues(fields: seq<ExtractedField>, corrections: seq<Correction>)
    returns (values: map<string, EffectiveValue>)
    ensures values == Effective(fields, corrections)
    ensures UniquePaths(fields) ==> AllReadHighest(values, fields, corrections)
  {
    hide AllReadHighest;
    var latest: map<Id, Correction> := map[];
    for k := 0 to |corrections|
      invariant forall f ::
        (f in latest <==> LatestCorrection(corrections[..k], f).Some?) &&
        (f in latest ==> LatestCorrection(corrections[..k], f) == Some(latest[f]))
    {
      var c := corrections[k];
      assert corrections[..k + 1][..k] == corrections[..k];
      if c.fieldId !in latest || c.revision > latest[c.fieldId].revision {
        latest := latest[c.fieldId := c];
      }
    }
    assert corrections[..|corrections|] == corrections;
    values := map[];
    for n := 0 to |fields|
      invariant values == Effective(fields[..n], corrections)
    {
      assert fields[..n + 1][..n] == fields[..n];
      var held := if n in latest then Some(latest[n]) else None;
      values := values[fields[n].path := EffectiveField(fields[n], n, held)];
    }
    assert fields[..|fields|] == fields;
    if UniquePaths(fields) {
      HighestRead(fields, corrections);
    }
  }

  /** A field's corrections in list order, as from_run groups them. */
  function Grouped(corrections: seq<Correction>, fieldId: Id): seq<Correction> {
    if corrections == [] then []
    else
      var rest := Grouped(corrections[..|corrections| - 1], fieldId);
      var c := corrections[|corrections| - 1];
      if c.fieldId == fieldId then rest + [c] else rest
  }

  /** The API's list of fields. */
  function Responses(fields: seq<ExtractedField>, corrections: seq<Correction>): (responses: seq<EffectiveValue>)
    ensures |responses| == |fields|
  {
    seq(|fields|, i requires 0 <= i < |fields| => EffectiveField(fields[i], i, LastOf(Grouped(corrections, i))))
  }

  /** from_run with from_field: the last entry of each field's group decides. */
  method FieldResponses(fields: seq<ExtractedField>, corrections: seq<Correction>)
    returns (responses: seq<EffectiveValue>)
    ensures responses == Responses(fields, corrections)
    ensures forall i | 0 <= i < |fields| :: ReadsLast(responses[i], fields[i], i, corrections)
  {
    hide ReadsLast;
    var groups: map<Id, seq<Correction>> := map[];
    for k := 0 to |corrections|
      invariant forall f ::
        (f in groups ==> groups[f] == Grouped(corrections[..k], f)) &&
        (f !in groups ==> Grouped(corrections[..k], f) == [])
    {
      var c := corrections[k];
      assert corrections[..k + 1][..k] == corrections[..k];
      var group := if c.fieldId in groups then groups[c.fieldId] else [];
      groups := groups[c.fieldId := group + [c]];
    }
    assert corrections[..|corrections|] == corrections;
    responses := [];
    for i := 0 to |fields|
      invariant |responses| == i
      invariant forall j | 0 <= j < i ::
        responses[j] == EffectiveField(fields[j], j, LastOf(Grouped(corrections, j)))
    {
      var group := if i in groups then groups[i] else [];
      responses := responses + [EffectiveField(fields[i], i, LastOf(group))];
    }
    assert responses == Responses(fields, corrections);
    forall i | 0 <= i < |fields|
      ensures ReadsLast(responses[i], fields[i], i, corrections)
    {
      LastRead(fields, corrections, i);
    }
  }

  function LastOf(group: seq<Correction>): Option<Correction> {
    if group == [] then None else Some(group[|group| - 1])
  }

  // ----- what the fold means

  ghost predicate IsHighestRevision(c: Correction, corrections: seq<Correction>) {
    c in corrections && forall d | d in corrections && d.fieldId == c.fieldId :: d.revision <= c.revision
  }

  /** The kept correction is one of highest revision for its field, and one is kept whenever
      the field has any. */
  lemma {:induction false} LatestIsHighestRevision(corrections: seq<Correction>, fieldId: Id)
    ensures LatestCorrection(corrections, fieldId).None? <==>
            forall c | c in corrections :: c.fieldId != fieldId
    ensures LatestCorrection(corrections, fieldId).Some? ==>
            var c := LatestCorrection(corrections, fieldId).value;
            c.fieldId == fieldId && IsHighestRevision(c, corrections)
  {
    if corrections != [] {
      var front := corrections[..|corrections| - 1];
      LatestIsHighestRevision(front, fieldId);
      assert corrections == front + [corrections[|corrections| - 1]];
    }
  }

  ghost predicate DistinctRevisions(corrections: seq<Correction>) {
    forall c, d | c in corrections && d in corrections && c.fieldId == d.fieldId && c.revision == d.revision ::
      c == d
  }

  lemma SameLatest(corrections: seq<Correction>, reordered: seq<Correction>, fieldId: Id)
    requires multiset(reordered) == multiset(corrections) && DistinctRevisions(corrections)
    ensures LatestCorrection(reordered, fieldId) == LatestCorrection(corrections, fieldId)
  {
    forall c: Correction
      ensures c in reordered <==> c in corrections
    {
      assert c in reordered <==> c in multiset(reordered);
    }
    LatestIsHighestRevision(corrections, fieldId);
    LatestIsHighestRevision(reordered, fieldId);
  }

  /** The effective values do not depend on the order in which corrections are listed. */
  lemma {:induction false} EffectiveOrderIndependent(
      fields: seq<ExtractedField>, corrections: seq<Correction>, reordered: seq<Correction>)
    requires multiset(reordered) == multiset(corrections) && DistinctRevisions(corrections)
    ensures Effective(fields, reordered) == Effective(fields, corrections)
  {
    if fields != [] {
      EffectiveOrderIndependent(fields[..|fields| - 1], corrections, reordered);
      SameLatest(corrections, reordered, |fields| - 1);
    }
  }

  /** With unique paths, a field's effective value is that field under its latest correction. */
  lemma {:induction false} EffectiveAt(fields: seq<ExtractedField>, corrections: seq<Correction>, i: nat)
    requires UniquePaths(fields) && i < |fields|
    ensures fields[i].path in Effective(fields, corrections)
    ensures Effective(fields, corrections)[fields[i].path] ==
            EffectiveField(fields[i], i, LatestCorrection(corrections, i))
  {
    var n := |fields| - 1;
    if i < n {
      EffectiveAt(fields[..n], corrections, i);
    }
  }

  /** Within every field, revisions rise from left to right. */
  ghost predicate RisingRevisions(corrections: seq<Correction>) {
    forall i, j | 0 <= i < j < |corrections| && corrections[i].fieldId == corrections[j].fieldId ::
      corrections[i].revision < corrections[j].revision
  }

  /** On a log whose revisions rise, taking the last entry of a field's group agrees with
      taking the highest revision: the API and the engine see the same values. */
  lemma {:induction false} GroupTailIsLatest(corrections: seq<Correction>, fieldId: Id)
    requires RisingRevisions(corrections)
    ensures LastOf(Grouped(corrections, fieldId)) == LatestCorrection(corrections, fieldId)
  {
    if corrections != [] {
      var n := |corrections| - 1;
      GroupTailIsLatest(corrections[..n], fieldId);
      LatestIsHighestRevision(corrections[..n], fieldId);
      var held := LatestCorrection(corrections[..n], fieldId);
      if corrections[n].fieldId == fieldId && held.Some? {
        var k :| 0 <= k < n && corrections[..n][k] == held.value;
        assert corrections[k].revision < corrections[n].revision;
      }
    }
  }
}
