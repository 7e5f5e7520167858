/** The engine's verdict and journal in terms of the texts on the document and the entries of the
    directory, with every field, limit and threshold written out. */
module PlainVerdicts {
  import opened Prelude
  import opened Text
  import opened EffectiveValues
  import opened Engine
  import opened ReviewPolicy
  import opened DecisionCommits
  import ApprovedEvidence

  // ----- the text of a field

  /** The text is what is left of the value's normalized text, or of its raw text when there is no
      normalized one, without the blanks around it; a blank value has none. */
  ghost predicate HasText(values: map<string, EffectiveValue>, path: string, text: string) {
    path in values && text != "" && Stripped(text) &&
    exists before: string, after: string | AllSpaces(before) && AllSpaces(after) ::
      (match values[path].normalizedValue case Some(shown) => shown case None => values[path].rawValue) ==
      before + text + after
  }

  lemma TextExact(values: map<string, EffectiveValue>, path: string, text: string)
    ensures FieldText(values, path) == Some(text) <==> HasText(values, path, text)
  {
    hide StripLeft, StripRight;
    if path in values {
      var shown := values[path].Value();
      var before := StripLeftParts(shown);
      var after := StripRightParts(StripLeft(shown));
      StripIsStripped(shown);
      assert shown == before + Strip(shown) + after;
      if HasText(values, path, text) {
        var b: string, a: string :| AllSpaces(b) && AllSpaces(a) && shown == b + text + a;
        StripRemoves(b, text, a);
      }
    }
  }

  // ----- money and currency

  /** The field's text is a decimal of at most four places that is the amount, in ten-thousandths,
      and neither negative nor above what the tables hold. */
  predicate IsMoney(lexicon: Lexicon, values: map<string, EffectiveValue>, path: string, amount: int) {
    FieldText(values, path).Some? &&
    match lexicon.parseDecimal(FieldText(values, path).value)
    case Some(Finite(coefficient, exponent)) =>
      exponent >= -4 && amount == coefficient * Pow10(exponent + 4) && 0 <= amount <= 999_999_999_999_999_999
    case _ => false
  }

  lemma MoneyExact(
      lexicon: Lexicon, values: map<string, EffectiveValue>, path: string, mustBePositive: bool, amount: int)
    ensures ReadMoney(lexicon, values, path, mustBePositive) == Amount(amount) <==>
      IsMoney(lexicon, values, path, amount) && (mustBePositive ==> amount > 0)
    ensures ReadMoney(lexicon, values, path, mustBePositive) == MissingMoney <==> FieldText(values, path).None?
  {
    hide FieldText, Pow10;
  }

  /** An optional amount is absent, or readable. */
  ghost predicate IsAbsentOrMoney(lexicon: Lexicon, values: map<string, EffectiveValue>, path: string) {
    FieldText(values, path).None? || exists amount: int :: IsMoney(lexicon, values, path, amount)
  }

  lemma OptionalExact(lexicon: Lexicon, values: map<string, EffectiveValue>, path: string)
    ensures !ReadMoney(lexicon, values, path, false).InvalidMoney? <==> IsAbsentOrMoney(lexicon, values, path)
  {
    hide IsMoney, FieldText, ReadMoney;
    var reading := ReadMoney(lexicon, values, path, false);
    MoneyExact(lexicon, values, path, false, if reading.Amount? then reading.value else 0);
    if amount: int :| IsMoney(lexicon, values, path, amount) {
      MoneyExact(lexicon, values, path, false, amount);
    }
  }

  /** A positive total; subtotal and tax, where given, readable and adding up to it. */
  ghost predicate AddsUp(lexicon: Lexicon, values: map<string, EffectiveValue>) {
    exists total: int | IsMoney(lexicon, values, "invoice.total", total) ::
      total > 0 && IsAbsentOrMoney(lexicon, values, "invoice.subtotal") &&
      IsAbsentOrMoney(lexicon, values, "invoice.tax") &&
      forall subtotal: int, tax: int |
        IsMoney(lexicon, values, "invoice.subtotal", subtotal) && IsMoney(lexicon, values, "invoice.tax", tax) ::
        subtotal + tax == total
  }

  lemma AddsUpExact(policy: Policy, values: map<string, EffectiveValue>)
    ensures ReadableMoney(policy, values) <==> AddsUp(policy.lexicon, values)
  {
    hide ReadMoney, IsMoney, FieldText, IsAbsentOrMoney;
    var total := ReadMoney(policy.lexicon, values, INVOICE_TOTAL, true);
    OptionalExact(policy.lexicon, values, INVOICE_SUBTOTAL);
    OptionalExact(policy.lexicon, values, INVOICE_TAX);
    forall amount: int
      ensures total == Amount(amount) <==> IsMoney(policy.lexicon, values, INVOICE_TOTAL, amount) && amount > 0
      ensures ReadMoney(policy.lexicon, values, INVOICE_SUBTOTAL, false) == Amount(amount) <==>
              IsMoney(policy.lexicon, values, INVOICE_SUBTOTAL, amount)
      ensures ReadMoney(policy.lexicon, values, INVOICE_TAX, false) == Amount(amount) <==>
              IsMoney(policy.lexicon, values, INVOICE_TAX, amount)
    {
      MoneyExact(policy.lexicon, values, INVOICE_TOTAL, true, amount);
      MoneyExact(policy.lexicon, values, INVOICE_SUBTOTAL, false, amount);
      MoneyExact(policy.lexicon, values, INVOICE_TAX, false, amount);
    }
  }

  /** Three letters. */
  predicate HasCurrency(values: map<string, EffectiveValue>) {
    FieldText(values, "invoice.currency").Some? &&
    var text := FieldText(values, "invoice.currency").value;
    |text| == 3 && forall i | 0 <= i < 3 :: IsAsciiLetter(text[i])
  }

  lemma CurrencyExact(values: map<string, EffectiveValue>)
    ensures ReadCurrency(values).CurrencyCode? <==> HasCurrency(values)
    ensures HasCurrency(values) ==>
      ReadCurrency(values).code == Upper(FieldText(values, "invoice.currency").value)
  {
    hide FieldText;
  }

  // ----- suppliers

  /** The entry is for every firm or this one, and for every client or this one. */
  predicate Serves(e: SupplierEntry, firmId: Id, clientId: Id) {
    e.firmId in {None, Some(firmId)} && e.clientId in {None, Some(clientId)}
  }

  /** The entry's name or one of its aliases has the same words as the supplier on the document. */
  predicate IsNamed(e: SupplierEntry, supplier: string) {
    NameWords(e.name) == NameWords(supplier) || exists a | a in e.aliases :: NameWords(a) == NameWords(supplier)
  }

  lemma NamedExact(e: SupplierEntry, supplier: string)
    ensures MatchesExactly(e, NormalizeName(supplier)) <==> IsNamed(e, supplier)
  {
    hide NameWords, NormalizeName;
    SameNames(e.name, supplier);
    forall a
      ensures NormalizeName(a) == NormalizeName(supplier) <==> NameWords(a) == NameWords(supplier)
    {
      SameNames(a, supplier);
    }
    var names := EntryNames(e);
    assert names == [e.name] + e.aliases && NormalizeName(names[0]) == NormalizeName(e.name);
    if MatchesExactly(e, NormalizeName(supplier)) {
      var k :| 0 <= k < |names| && NormalizeName(names[k]) == NormalizeName(supplier);
      assert k > 0 ==> names[k] in e.aliases;
    }
    if a :| a in e.aliases && NameWords(a) == NameWords(supplier) {
      var k :| 0 <= k < |e.aliases| && e.aliases[k] == a;
      assert NormalizeName(names[k + 1]) == NormalizeName(supplier);
    }
  }

  /** The first entry that serves the client and carries the supplier's name. */
  ghost predicate IsFirstNamed(directory: seq<SupplierEntry>, firmId: Id, clientId: Id, supplier: string, k: nat) {
    k < |directory| && Serves(directory[k], firmId, clientId) && IsNamed(directory[k], supplier) &&
    forall j | 0 <= j < k :: !(Serves(directory[j], firmId, clientId) && IsNamed(directory[j], supplier))
  }

  /** The first entry that serves the client under the reference. */
  ghost predicate IsFirstUnder(directory: seq<SupplierEntry>, firmId: Id, clientId: Id, reference: string, m: nat) {
    m < |directory| && Serves(directory[m], firmId, clientId) && directory[m].reference == reference &&
    forall j | 0 <= j < m :: !(Serves(directory[j], firmId, clientId) && directory[j].reference == reference)
  }

  lemma ScopeExact(e: SupplierEntry, firmId: Id, clientId: Id)
    ensures InScope(e, firmId, clientId) <==> Serves(e, firmId, clientId)
  {
  }

  lemma {:induction false} FirstUnderFound(
      directory: seq<SupplierEntry>, firmId: Id, clientId: Id, reference: string, m: nat)
    requires IsFirstUnder(directory, firmId, clientId, reference, m)
    ensures EntryByReference(ScopedDirectory(directory, firmId, clientId), reference) == Some(directory[m])
  {
    hide Serves, InScope;
    ScopeExact(directory[0], firmId, clientId);
    var rest := ScopedDirectory(directory[1..], firmId, clientId);
    if m > 0 {
      assert forall j | 0 <= j < m - 1 :: directory[1..][j] == directory[j + 1];
      assert IsFirstUnder(directory[1..], firmId, clientId, reference, m - 1);
      FirstUnderFound(directory[1..], firmId, clientId, reference, m - 1);
      assert ([directory[0]] + rest)[1..] == rest && [] + rest == rest;
      assert !(InScope(directory[0], firmId, clientId) && directory[0].reference == reference);
    } else {
      assert ([directory[0]] + rest)[0] == directory[0];
    }
  }

  lemma {:induction false} FirstNamedFound(
      directory: seq<SupplierEntry>, firmId: Id, clientId: Id, supplier: string, k: nat)
    returns (i: nat)
    requires IsFirstNamed(directory, firmId, clientId, supplier, k)
    ensures var entries := ScopedDirectory(directory, firmId, clientId);
      IsFirstExact(entries, NormalizeName(supplier), i) && entries[i] == directory[k]
  {
    hide Serves, InScope, IsNamed, MatchesExactly, NormalizeName;
    ScopeExact(directory[0], firmId, clientId);
    NamedExact(directory[0], supplier);
    var entries := ScopedDirectory(directory, firmId, clientId);
    var rest := ScopedDirectory(directory[1..], firmId, clientId);
    if k > 0 {
      assert forall j | 0 <= j < k - 1 :: directory[1..][j] == directory[j + 1];
      assert IsFirstNamed(directory[1..], firmId, clientId, supplier, k - 1);
      i := FirstNamedFound(directory[1..], firmId, clientId, supplier, k - 1);
      if InScope(directory[0], firmId, clientId) {
        assert entries == [directory[0]] + rest;
        i := i + 1;
      } else {
        assert entries == rest;
      }
    } else {
      i := 0;
      assert entries == [directory[0]] + rest;
    }
  }

  /** The least position at which the property holds. */
  lemma {:induction false} LeastNamed(
      directory: seq<SupplierEntry>, firmId: Id, clientId: Id, supplier: string, k: nat)
    returns (least: nat)
    requires k < |directory| && Serves(directory[k], firmId, clientId) && IsNamed(directory[k], supplier)
    ensures IsFirstNamed(directory, firmId, clientId, supplier, least)
  {
    hide Serves, IsNamed;
    if j :| 0 <= j < k && Serves(directory[j], firmId, clientId) && IsNamed(directory[j], supplier) {
      least := LeastNamed(directory, firmId, clientId, supplier, j);
    } else {
      least := k;
    }
  }

  lemma {:induction false} LeastUnder(
      directory: seq<SupplierEntry>, firmId: Id, clientId: Id, reference: string, k: nat)
    returns (least: nat)
    requires k < |directory| && Serves(directory[k], firmId, clientId) && directory[k].reference == reference
    ensures IsFirstUnder(directory, firmId, clientId, reference, least)
  {
    hide Serves;
    if j :| 0 <= j < k && Serves(directory[j], firmId, clientId) && directory[j].reference == reference {
      least := LeastUnder(directory, firmId, clientId, reference, j);
    } else {
      least := k;
    }
  }

  lemma {:induction false} ScopedMember(directory: seq<SupplierEntry>, firmId: Id, clientId: Id, e: SupplierEntry)
    ensures e in ScopedDirectory(directory, firmId, clientId) <==> e in directory && Serves(e, firmId, clientId)
  {
    hide Serves, InScope;
    if directory != [] {
      ScopedMember(directory[1..], firmId, clientId, e);
      ScopeExact(directory[0], firmId, clientId);
      assert directory == [directory[0]] + directory[1..];
    }
  }

  /** Some entry that serves the client carries the supplier's name. */
  ghost predicate IsKnown(policy: Policy, input: EngineInput) {
    FieldText(input.values, "supplier.name").Some? &&
    exists e | e in policy.directory ::
      Serves(e, input.firmId, input.clientId) && IsNamed(e, FieldText(input.values, "supplier.name").value)
  }

  lemma KnownExact(policy: Policy, input: EngineInput)
    ensures KnownSupplier(policy, input) <==> IsKnown(policy, input)
  {
    hide FieldText, Serves, IsNamed, MatchesExactly, NormalizeName, ScopedDirectory;
    var entries := ScopedDirectory(policy.directory, input.firmId, input.clientId);
    var text := FieldText(input.values, SUPPLIER_NAME);
    if text.Some? {
      forall e
        ensures MatchesExactly(e, NormalizeName(text.value)) <==> IsNamed(e, text.value)
        ensures e in entries <==> e in policy.directory && Serves(e, input.firmId, input.clientId)
      {
        NamedExact(e, text.value);
        ScopedMember(policy.directory, input.firmId, input.clientId, e);
      }
      if k :| 0 <= k < |entries| && MatchesExactly(entries[k], NormalizeName(text.value)) {
        assert entries[k] in entries;
      }
      if e :| e in policy.directory && Serves(e, input.firmId, input.clientId) && IsNamed(e, text.value) {
        var k :| 0 <= k < |entries| && entries[k] == e;
        assert MatchesExactly(entries[k], NormalizeName(text.value));
      }
    }
  }

  // ----- the supplier match

  function WordSet(names: seq<string>): set<string> {
    if names == [] then {} else (set w | w in NameWords(names[0])) + WordSet(names[1..])
  }

  /** The supplier's words and those of the entry's names have at least half of all in common. */
  predicate Overlaps(e: SupplierEntry, supplier: string) {
    var words, known := WordSet([supplier]), WordSet([e.name] + e.aliases);
    words != {} && known != {} && 2 * |words * known| >= |words + known|
  }

  lemma {:induction false} WordSetExact(names: seq<string>)
    ensures EntryTokens(names) == WordSet(names)
  {
    hide NormalizeName, NameTokens, NameWords;
    if names != [] {
      WordSetExact(names[1..]);
      TokensAreWords(names[0]);
    }
  }

  lemma TokensAreWords(name: string)
    ensures NameTokens(NormalizeName(name)) == set w | w in NameWords(name)
  {
    NormalizeNameCanonical(name);
  }

  lemma OverlapExact(e: SupplierEntry, supplier: string)
    ensures MatchesPartially(e, NormalizeName(supplier)) <==> Overlaps(e, supplier)
  {
    hide NormalizeName, NameTokens, NameWords, EntryTokens;
    WordSetExact([e.name] + e.aliases);
    TokensAreWords(supplier);
    assert [supplier][1..] == [];
    assert WordSet([supplier]) == set w | w in NameWords(supplier);
    assert EntryNames(e) == [e.name] + e.aliases;
  }

  /** The entries that serve the client and overlap with the supplier, in directory order. */
  function Resembling(directory: seq<SupplierEntry>, firmId: Id, clientId: Id, supplier: string)
    : seq<SupplierCandidate>
  {
    if directory == [] then []
    else
      (if Serves(directory[0], firmId, clientId) && Overlaps(directory[0], supplier)
       then [SupplierCandidate(directory[0].reference, directory[0].name, false)] else []) +
      Resembling(directory[1..], firmId, clientId, supplier)
  }

  lemma {:induction false} ResemblingExact(
      directory: seq<SupplierEntry>, firmId: Id, clientId: Id, supplier: string)
    ensures PartialOf(ScopedDirectory(directory, firmId, clientId), NormalizeName(supplier)) ==
            Resembling(directory, firmId, clientId, supplier)
  {
    hide Serves, InScope, Overlaps, MatchesPartially, NormalizeName;
    if directory != [] {
      var rest := ScopedDirectory(directory[1..], firmId, clientId);
      ResemblingExact(directory[1..], firmId, clientId, supplier);
      ScopeExact(directory[0], firmId, clientId);
      OverlapExact(directory[0], supplier);
      if InScope(directory[0], firmId, clientId) {
        assert ScopedDirectory(directory, firmId, clientId) == [directory[0]] + rest;
        assert ([directory[0]] + rest)[1..] == rest;
      } else {
        assert ScopedDirectory(directory, firmId, clientId) == rest;
      }
    }
  }

  lemma MatchExact(policy: Policy, input: EngineInput)
    ensures var found := MatchSupplier(ScopedDirectory(policy.directory, input.firmId, input.clientId), input.values);
      var supplier := FieldText(input.values, "supplier.name");
      if supplier.None? then found == SupplierMatch(NoMatch, [])
      else if IsKnown(policy, input) then
        exists k: nat | IsFirstNamed(policy.directory, input.firmId, input.clientId, supplier.value, k) ::
          found == SupplierMatch(ConfidentMatch,
            [SupplierCandidate(policy.directory[k].reference, policy.directory[k].name, true)])
      else
        var resembling := Resembling(policy.directory, input.firmId, input.clientId, supplier.value);
        found == SupplierMatch(if resembling == [] then NoMatch else CandidateMatches, resembling)
  {
    hide FieldText, MatchEntries, ScopedDirectory, NormalizeName, MatchesExactly, IsFirstExact, IsFirstNamed,
      PartialOf, Resembling, IsKnown;
    var entries := ScopedDirectory(policy.directory, input.firmId, input.clientId);
    var supplier := FieldText(input.values, SUPPLIER_NAME);
    KnownExact(policy, input);
    if supplier.Some? {
      if IsKnown(policy, input) {
        var k := KnownFirst(policy, input);
        var j := FirstNamedFound(policy.directory, input.firmId, input.clientId, supplier.value, k);
        FirstExactWins(entries, NormalizeName(supplier.value), [], j);
      } else {
        PartialsListed(entries, NormalizeName(supplier.value), []);
        ResemblingExact(policy.directory, input.firmId, input.clientId, supplier.value);
        var partial := PartialOf(entries, NormalizeName(supplier.value));
        assert [] + partial == partial;
      }
    }
  }

  /** On an invoice, a supplier in the directory by name is matched to the first entry that carries
      it, whatever overlaps there are; any other to the overlapping entries, in their order. */
  lemma PlainMatch(policy: Policy, input: EngineInput)
    ensures var found := Decide(policy, input).supplierMatch;
      var supplier := FieldText(input.values, "supplier.name");
      if FieldText(input.values, "document.type") != Some("purchase_invoice") || supplier.None?
        then found == SupplierMatch(NoMatch, [])
      else if IsKnown(policy, input) then
        exists k: nat | IsFirstNamed(policy.directory, input.firmId, input.clientId, supplier.value, k) ::
          found == SupplierMatch(ConfidentMatch,
            [SupplierCandidate(policy.directory[k].reference, policy.directory[k].name, true)])
      else
        var resembling := Resembling(policy.directory, input.firmId, input.clientId, supplier.value);
        found == SupplierMatch(if resembling == [] then NoMatch else CandidateMatches, resembling)
  {
    hide FieldText, ExtractionFindings, MatchSupplier, MatchedEntry, ScopedDirectory, DuplicateCandidates, JournalFor,
      IsFirstNamed, Resembling, IsKnown;
    MatchExact(policy, input);
  }

  lemma KnownFirst(policy: Policy, input: EngineInput) returns (k: nat)
    requires IsKnown(policy, input)
    ensures FieldText(input.values, "supplier.name").Some?
    ensures IsFirstNamed(policy.directory, input.firmId, input.clientId,
                         FieldText(input.values, "supplier.name").value, k)
  {
    hide FieldText, Serves, IsNamed;
    var supplier := FieldText(input.values, SUPPLIER_NAME).value;
    var e :| e in policy.directory && Serves(e, input.firmId, input.clientId) && IsNamed(e, supplier);
    var i :| 0 <= i < |policy.directory| && policy.directory[i] == e;
    k := LeastNamed(policy.directory, input.firmId, input.clientId, supplier, i);
  }

  // ----- controls, confidence and duplicates

  /** Everything the deterministic controls ask of a purchase invoice, field by field. */
  ghost predicate IsInOrder(policy: Policy, input: EngineInput) {
    FieldText(input.values, "document.type") == Some("purchase_invoice") &&
    FieldText(input.values, "supplier.name").Some? && FieldText(input.values, "invoice.number").Some? &&
    FieldText(input.values, "invoice.date").Some? && AddsUp(policy.lexicon, input.values) &&
    HasCurrency(input.values) && IsKnown(policy, input) && policy.creditAdjustment == 0
  }

  lemma InOrderExact(policy: Policy, input: EngineInput)
    ensures PassesControls(policy, input) <==> IsInOrder(policy, input)
  {
    hide FieldText, ReadableMoney, AddsUp, HasCurrency, KnownSupplier, IsKnown, ReadCurrency;
    AddsUpExact(policy, input.values);
    CurrencyExact(input.values);
    KnownExact(policy, input);
    AllPresentExact(input.values);
    TotalPresent(policy, input.values);
  }

  lemma AllPresentExact(values: map<string, EffectiveValue>)
    ensures AllPresent(values, INVOICE_FIELDS) <==>
      FieldText(values, "document.type").Some? && FieldText(values, "supplier.name").Some? &&
      FieldText(values, "invoice.number").Some? && FieldText(values, "invoice.date").Some? &&
      FieldText(values, "invoice.currency").Some? && FieldText(values, "invoice.total").Some?
  {
    hide FieldText;
    assert INVOICE_FIELDS[0] == "document.type" && INVOICE_FIELDS[1] == "supplier.name";
    assert INVOICE_FIELDS[2] == "invoice.number" && INVOICE_FIELDS[3] == "invoice.date";
    assert INVOICE_FIELDS[4] == "invoice.currency" && INVOICE_FIELDS[5] == "invoice.total";
  }

  lemma TotalPresent(policy: Policy, values: map<string, EffectiveValue>)
    ensures AddsUp(policy.lexicon, values) ==> FieldText(values, "invoice.total").Some?
    ensures HasCurrency(values) ==> FieldText(values, "invoice.currency").Some?
  {
    hide FieldText, IsAbsentOrMoney;
  }

  const DEMANDED_FIELDS := [
    "document.type", "supplier.name", "invoice.number", "invoice.date", "invoice.currency", "invoice.total"]

  const CHECKED_FIELDS := DEMANDED_FIELDS + ["invoice.subtotal", "invoice.tax"]

  /** One of the eight fields was extracted with a confidence below one half. */
  predicate IsUnsure(values: map<string, EffectiveValue>) {
    exists path | path in CHECKED_FIELDS ::
      path in values && values[path].confidence.Some? && values[path].confidence.value < 5_000
  }

  lemma UnsureExact(values: map<string, EffectiveValue>)
    ensures HasLowConfidence(values) <==> IsUnsure(values)
  {
    assert RelevantFields(Some(PURCHASE_INVOICE)) == CHECKED_FIELDS;
    if i :| 0 <= i < |CHECKED_FIELDS| && IsLowConfidence(values, CHECKED_FIELDS[i]) {
      assert CHECKED_FIELDS[i] in CHECKED_FIELDS;
    }
    if path :| path in CHECKED_FIELDS && path in values && values[path].confidence.Some? &&
               values[path].confidence.value < 5_000 {
      var i :| 0 <= i < |CHECKED_FIELDS| && CHECKED_FIELDS[i] == path;
      assert IsLowConfidence(values, RelevantFields(Some(PURCHASE_INVOICE))[i]);
    }
  }

  /** A prior decision on another document with the same file, or with at least four of supplier,
      number, date, currency and total the same. */
  ghost predicate HasTwin(input: EngineInput) {
    exists prior | prior in input.priors ::
      prior.documentId != input.documentId &&
      (prior.sourceSha == input.sourceSha || AgreementCount(input.values, prior.values) >= 4)
  }

  lemma TwinExact(input: EngineInput)
    ensures HasDuplicate(input) <==> HasTwin(input)
  {
    hide AgreementCount;
    if k :| 0 <= k < |input.priors| && IsDuplicateOf(input, input.priors[k]) {
      assert input.priors[k] in input.priors;
    }
    if prior :| prior in input.priors && prior.documentId != input.documentId &&
                (prior.sourceSha == input.sourceSha || AgreementCount(input.values, prior.values) >= 4) {
      var k :| 0 <= k < |input.priors| && input.priors[k] == prior;
      assert IsDuplicateOf(input, input.priors[k]);
    }
  }

  /** For every policy and every input: a document is blocked unless it is in order field by field,
      and otherwise needs a senior exactly for a twin or an unsure field. */
  lemma PlainVerdict(policy: Policy, input: EngineInput)
    ensures var decision := Decide(policy, input);
      ClassifyReviewRisk(decision.findings, decision.journal) ==
        if !IsInOrder(policy, input) then Blocked
        else if HasTwin(input) || IsUnsure(input.values) then SeniorRequired
        else Ordinary
  {
    hide Decide, ClassifyReviewRisk, PassesControls, IsInOrder, HasDuplicate, HasTwin, HasLowConfidence, IsUnsure;
    Verdict(policy, input);
    InOrderExact(policy, input);
    TwinExact(input);
    UnsureExact(input.values);
  }

  // ----- the journal

  /** Where the directory holds the mapping of a known supplier: the first entry that serves the
      client under the reference of the first one that carries the name. */
  lemma MappedEntry(policy: Policy, input: EngineInput) returns (k: nat, m: nat)
    requires IsKnown(policy, input)
    ensures IsFirstNamed(policy.directory, input.firmId, input.clientId,
                         FieldText(input.values, "supplier.name").value, k)
    ensures IsFirstUnder(policy.directory, input.firmId, input.clientId, policy.directory[k].reference, m)
    ensures FieldText(input.values, "supplier.name").Some?
    ensures var entries := ScopedDirectory(policy.directory, input.firmId, input.clientId);
      MatchedEntry(entries, MatchSupplier(entries, input.values)) == Some(policy.directory[m])
  {
    hide FieldText, IsKnown, Serves, IsNamed, MatchEntries, EntryByReference, ScopedDirectory, NormalizeName,
      IsFirstExact;
    KnownExact(policy, input);
    k := KnownFirst(policy, input);
    var supplier := FieldText(input.values, SUPPLIER_NAME).value;
    var entries := ScopedDirectory(policy.directory, input.firmId, input.clientId);
    var j := FirstNamedFound(policy.directory, input.firmId, input.clientId, supplier, k);
    FirstExactWins(entries, NormalizeName(supplier), [], j);
    m := LeastUnder(policy.directory, input.firmId, input.clientId, policy.directory[k].reference, k);
    FirstUnderFound(policy.directory, input.firmId, input.clientId, policy.directory[k].reference, m);
  }

  /** A journal debits the total to that entry's account, with its tax code and cost centre, in the
      document's own currency, and credits payables. */
  lemma PlainJournal(policy: Policy, input: EngineInput) returns (k: nat, m: nat, total: int)
    requires Decide(policy, input).journal.Some?
    ensures FieldText(input.values, "supplier.name").Some?
    ensures IsFirstNamed(policy.directory, input.firmId, input.clientId,
                         FieldText(input.values, "supplier.name").value, k)
    ensures IsFirstUnder(policy.directory, input.firmId, input.clientId, policy.directory[k].reference, m)
    ensures IsMoney(policy.lexicon, input.values, "invoice.total", total) && total > 0
    ensures var e, journal := policy.directory[m], Decide(policy, input).journal.value;
      && HasCurrency(input.values) && journal.currency == Upper(FieldText(input.values, "invoice.currency").value)
      && journal.totalDebits == total && journal.totalCredits == total + policy.creditAdjustment
      && (journal.isBalanced <==> policy.creditAdjustment == 0)
      && journal.lines == [
        JournalLine(1, e.glAccount, total, 0, Some(e.taxCode), e.costCentre),
        JournalLine(2, "liability:accounts_payable", 0, total + policy.creditAdjustment, None, None)]
  {
    hide Decide, JournalFor, FieldText, KnownSupplier, IsKnown, IsMoney, ReadMoney, ReadCurrency, HasCurrency,
      ScopedDirectory, MatchedEntry, MatchSupplier, IsFirstNamed, IsFirstUnder;
    ApprovedEvidence.DecisionJournal(policy, input);
    JournalExact(policy, input);
    JournalLines(policy, input);
    KnownExact(policy, input);
    CurrencyExact(input.values);
    total := ReadMoney(policy.lexicon, input.values, INVOICE_TOTAL, true).value;
    MoneyExact(policy.lexicon, input.values, INVOICE_TOTAL, true, total);
    k, m := MappedEntry(policy, input);
  }

  /** A known supplier on an invoice is recommended that entry's account, category and tax code,
      and its cost centre if it has one; no other document is recommended anything. */
  lemma PlainRecommendations(policy: Policy, input: EngineInput) returns (k: nat, m: nat)
    ensures var found := Decide(policy, input).recommendations;
      if FieldText(input.values, "document.type") == Some("purchase_invoice") && IsKnown(policy, input) then
        && IsFirstNamed(policy.directory, input.firmId, input.clientId,
                        FieldText(input.values, "supplier.name").value, k)
        && IsFirstUnder(policy.directory, input.firmId, input.clientId, policy.directory[k].reference, m)
        && var e := policy.directory[m];
        found ==
          [Recommendation(GlAccount, e.glAccount), Recommendation(Category, e.category),
           Recommendation(TaxCode, e.taxCode)] +
          (match e.costCentre case Some(centre) => [Recommendation(CostCentre, centre)] case None => [])
      else found == []
  {
    hide FieldText, ExtractionFindings, MatchSupplier, MatchedEntry, ScopedDirectory, DuplicateCandidates, JournalFor,
      IsFirstNamed, IsFirstUnder, IsKnown, KnownSupplier;
    k, m := 0, 0;
    MappedIffKnown(policy, input);
    KnownExact(policy, input);
    if IsKnown(policy, input) {
      k, m := MappedEntry(policy, input);
    }
  }
}
