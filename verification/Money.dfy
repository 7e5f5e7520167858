/** The front end's exact decimals: text to integers scaled by 10,000 and back. */
module Money {
  import opened Prelude
  import opened Text
  import opened Engine

  const SCALE_DECIMALS: nat := 4
  const SCALE_FACTOR := 10_000

  // ----- strings as the browser treats them

  predicate IsBlank(c: char) { 9 <= c as int <= 13 || c == ' ' }

  function TrimStart(s: string): string {
    if s != "" && IsBlank(s[0]) then TrimStart(s[1..]) else s
  }

  function TrimEnd(s: string): string {
    if s != "" && IsBlank(s[|s| - 1]) then TrimEnd(s[..|s| - 1]) else s
  }

  function Trim(s: string): string { TrimEnd(TrimStart(s)) }

  function SplitAtDots(s: string): (parts: seq<string>)
    ensures parts != []
  {
    if s == "" then [""]
    else if s[0] == '.' then [""] + SplitAtDots(s[1..])
    else
      var rest := SplitAtDots(s[1..]);
      [[s[0]] + rest[0]] + rest[1..]
  }

  function DigitOf(c: char): int {
    if '0' <= c <= '9' then c as int - 48
    else if 'a' <= c <= 'f' then c as int - 87
    else if 'A' <= c <= 'F' then c as int - 55
    else 16
  }

  /** The value of a non-empty digit string. */
  function DigitsValue(s: string, base: int): Option<int> {
    if s == "" then None
    else
      var n := |s| - 1;
      var rest := if n == 0 then Some(0) else DigitsValue(s[..n], base);
      if rest.None? || DigitOf(s[n]) >= base then None else Some(rest.value * base + DigitOf(s[n]))
  }

  function RadixOf(c: char): Option<int> {
    if c == 'x' || c == 'X' then Some(16)
    else if c == 'o' || c == 'O' then Some(8)
    else if c == 'b' || c == 'B' then Some(2)
    else None
  }

  /** BigInt(text): blank is zero, a radix prefix or one sign is allowed, anything else throws. */
  function BigIntOf(text: string): Option<int> {
    var t := Trim(text);
    if t == "" then Some(0)
    else if |t| > 1 && t[0] == '0' && RadixOf(t[1]).Some? then DigitsValue(t[2..], RadixOf(t[1]).value)
    else if t[0] == '-' then
      var digits := DigitsValue(t[1..], 10);
      if digits.None? then None else Some(-digits.value)
    else if t[0] == '+' then DigitsValue(t[1..], 10)
    else DigitsValue(t, 10)
  }

  // ----- parseDecimalToScaledBigInt

  function Zeros(n: nat): string { if n == 0 then "" else Zeros(n - 1) + "0" }

  function FourDigits(fraction: string): string {
    if |fraction| < SCALE_DECIMALS then fraction + Zeros(SCALE_DECIMALS - |fraction|)
    else fraction[..SCALE_DECIMALS]
  }

  function ParseUnsigned(clean: string): Option<int> {
    var parts := SplitAtDots(clean);
    if |parts| > 2 then None
    else
      var integer := BigIntOf(if parts[0] == "" then "0" else parts[0]);
      var fraction := BigIntOf(FourDigits(if |parts| == 2 then parts[1] else ""));
      if integer.None? || fraction.None? then None
      else Some(integer.value * SCALE_FACTOR + fraction.value)
  }

  /** None where the original throws. */
  function Parse(text: string): Option<int> {
    var trimmed := Trim(text);
    if trimmed == "" || trimmed == "-" then Some(0)
    else if trimmed[0] == '-' then
      var value := ParseUnsigned(trimmed[1..]);
      if value.None? then None else Some(-value.value)
    else ParseUnsigned(trimmed)
  }

  // ----- formatScaledBigIntToDecimal

  function Digits(n: nat): (s: string)
    ensures s != "" && forall i | 0 <= i < |s| :: IsDigit(s[i])
  {
    if n < 10 then [(48 + n) as char] else Digits(n / 10) + [(48 + n % 10) as char]
  }

  function PadStart(s: string, width: nat): string {
    if |s| < width then Zeros(width - |s|) + s else s
  }

  function Fraction(scaled: nat): string { PadStart(Digits(scaled % SCALE_FACTOR), SCALE_DECIMALS) }

  function Format(scaled: int, decimals: nat): string {
    var magnitude: nat := if scaled < 0 then -scaled else scaled;
    var fraction := Fraction(magnitude);
    (if scaled < 0 then "-" else "") + Digits(magnitude / SCALE_FACTOR) + "." +
    if decimals < SCALE_DECIMALS && decimals <= |fraction| then fraction[..decimals] else fraction
  }

  // ----- digit strings

  ghost predicate AllDigits(s: string) { forall i | 0 <= i < |s| :: IsDigit(s[i]) }

  lemma {:induction false} TrimDigits(s: string)
    requires AllDigits(s)
    ensures Trim(s) == s
  {
  }

  lemma {:induction false} DigitsOf(n: nat)
    ensures DigitsValue(Digits(n), 10) == Some(n)
  {
    if n >= 10 {
      DigitsOf(n / 10);
      assert Digits(n)[..|Digits(n)| - 1] == Digits(n / 10);
    }
  }

  lemma {:induction false} PrefixValue(s: string)
    requires AllDigits(s) && s != ""
    ensures DigitsValue(s, 10).Some? && 0 <= DigitsValue(s, 10).value < Pow10(|s|)
  {
    if |s| > 1 {
      PrefixValue(s[..|s| - 1]);
    } else {
      assert Pow10(1) == 10;
    }
  }

  /** Digit strings concatenate as their values shift and add. */
  lemma {:induction false} DigitsConcat(a: string, b: string)
    requires AllDigits(a) && AllDigits(b) && a != "" && b != ""
    ensures DigitsValue(a, 10).Some? && DigitsValue(b, 10).Some?
    ensures DigitsValue(a + b, 10) == Some(DigitsValue(a, 10).value * Pow10(|b|) + DigitsValue(b, 10).value)
  {
    PrefixValue(a);
    PrefixValue(b);
    var n := |b| - 1;
    assert (a + b)[..|a + b| - 1] == a + b[..n];
    if n == 0 {
      assert a + b[..0] == a;
      assert Pow10(1) == 10;
    } else {
      DigitsConcat(a, b[..n]);
      var x, y := DigitsValue(a, 10).value, DigitsValue(b[..n], 10).value;
      Distribute(x, Pow10(n), y, DigitOf(b[n]));
    }
  }

  lemma Distribute(x: int, p: int, y: int, d: int)
    ensures (x * p + y) * 10 + d == x * (10 * p) + (y * 10 + d)
  {
  }

  lemma {:induction false} ZerosAre(n: nat)
    ensures |Zeros(n)| == n && AllDigits(Zeros(n))
    ensures n > 0 ==> DigitsValue(Zeros(n), 10) == Some(0)
  {
    if n > 0 {
      ZerosAre(n - 1);
      assert Zeros(n)[..n - 1] == Zeros(n - 1);
    }
  }

  lemma {:induction false} DigitsWidth(n: nat, width: nat)
    requires width >= 1 && n < Pow10(width)
    ensures |Digits(n)| <= width
  {
    if n >= 10 {
      assert width > 1 by { assert Pow10(1) == 10; }
      DigitsWidth(n / 10, width - 1);
    }
  }

  /** The fraction is four digits and reads back as the last four digits of the value. */
  lemma FractionReads(scaled: nat)
    ensures |Fraction(scaled)| == 4 && AllDigits(Fraction(scaled))
    ensures DigitsValue(Fraction(scaled), 10) == Some(scaled % SCALE_FACTOR)
  {
    hide DigitsValue, Digits, Zeros;
    var n := scaled % SCALE_FACTOR;
    assert Pow10(4) == 10_000 by { assert Pow10(1) == 10 && Pow10(2) == 100 && Pow10(3) == 1000; }
    DigitsWidth(n, 4);
    DigitsOf(n);
    var digits := Digits(n);
    if |digits| < 4 {
      ZerosAre(4 - |digits|);
      DigitsConcat(Zeros(4 - |digits|), digits);
    }
  }

  // ----- one dot

  lemma {:induction false} SplitPlain(s: string)
    requires AllDigits(s)
    ensures SplitAtDots(s) == [s]
  {
    if s != "" {
      SplitPlain(s[1..]);
      assert [s[0]] + s[1..] == s;
    }
  }

  lemma {:induction false} SplitOnce(a: string, b: string)
    requires AllDigits(a) && AllDigits(b)
    ensures SplitAtDots(a + "." + b) == [a, b]
  {
    var s := a + "." + b;
    if a == "" {
      SplitPlain(b);
      assert s[1..] == b;
    } else {
      SplitOnce(a[1..], b);
      assert s[1..] == a[1..] + "." + b;
      assert s[0] == a[0] && [a[0]] + a[1..] == a;
    }
  }

  lemma BigIntOfDigits(s: string)
    requires AllDigits(s) && s != ""
    ensures BigIntOf(s) == DigitsValue(s, 10)
  {
    TrimDigits(s);
  }

  lemma FourDigitsAre(b: string)
    requires AllDigits(b)
    ensures AllDigits(FourDigits(b)) && |FourDigits(b)| == 4
  {
    hide Zeros, IsDigit;
    if |b| < 4 {
      var zeros := Zeros(4 - |b|);
      ZerosAre(4 - |b|);
      assert FourDigits(b) == b + zeros;
      forall i | 0 <= i < 4
        ensures IsDigit((b + zeros)[i])
      {
        assert (b + zeros)[i] == if i < |b| then b[i] else zeros[i - |b|];
      }
    }
  }

  lemma {:induction false} OnlyZeros(n: nat)
    ensures |Zeros(n)| == n && forall i | 0 <= i < n :: Zeros(n)[i] == '0'
  {
    if n > 0 {
      OnlyZeros(n - 1);
    }
  }

  lemma PaddedToFour(b: string)
    ensures FourDigits(b) == (b + "0000")[..4]
  {
    hide Zeros;
    if |b| < 4 {
      var n := 4 - |b|;
      OnlyZeros(n);
      assert "0000"[..n] == Zeros(n);
      assert (b + "0000")[..4] == b + "0000"[..n];
    } else {
      assert (b + "0000")[..4] == b[..4];
    }
  }

  /** An integer part and fraction digits, read as an unsigned amount. */
  lemma ParseParts(a: string, b: string)
    requires AllDigits(a) && a != "" && AllDigits(b)
    ensures DigitsValue(a, 10).Some? && DigitsValue(FourDigits(b), 10).Some?
    ensures ParseUnsigned(a + "." + b) ==
      Some(DigitsValue(a, 10).value * SCALE_FACTOR + DigitsValue(FourDigits(b), 10).value)
  {
    hide SplitAtDots, BigIntOf, DigitsValue, FourDigits;
    SplitOnce(a, b);
    FourDigitsAre(b);
    PrefixValue(a);
    PrefixValue(FourDigits(b));
    BigIntOfDigits(a);
    BigIntOfDigits(FourDigits(b));
  }

  lemma TrimAmount(a: string, b: string)
    requires AllDigits(a) && a != "" && AllDigits(b)
    ensures Trim(a + "." + b) == a + "." + b && Trim("-" + (a + "." + b)) == "-" + (a + "." + b)
  {
    var s := a + "." + b;
    assert IsDigit(s[0]) && !IsBlank(s[0]);
    assert !IsBlank(s[|s| - 1]);
    var t := "-" + s;
    assert t[|t| - 1] == s[|s| - 1];
  }

  lemma ParseSigned(a: string, b: string)
    requires AllDigits(a) && a != "" && AllDigits(b)
    ensures Parse(a + "." + b) == ParseUnsigned(a + "." + b)
    ensures Parse("-" + a + "." + b) ==
      var value := ParseUnsigned(a + "." + b); if value.None? then None else Some(-value.value)
  {
    hide ParseUnsigned, Trim;
    var s := a + "." + b;
    TrimAmount(a, b);
    assert "-" + a + "." + b == "-" + s;
    assert s[0] == a[0] && |s| > 0 && |"-" + s| > 1;
    assert ("-" + s)[1..] == s;
  }

  /** Any decimal is read as the integer whose digits are its own up to the fourth place, with
      zeros for missing ones and nothing rounded. */
  lemma ParseExact(a: string, b: string)
    requires AllDigits(a) && a != "" && AllDigits(b)
    ensures var value := DigitsValue(a + (b + "0000")[..4], 10);
      && value.Some? && Parse(a + "." + b) == value && Parse("-" + a + "." + b) == Some(-value.value)
  {
    hide Parse, ParseUnsigned, DigitsValue, Pow10, FourDigits;
    FourDigitsAre(b);
    PaddedToFour(b);
    ParseParts(a, b);
    ParseSigned(a, b);
    DigitsConcat(a, FourDigits(b));
    Powers();
  }

  // ----- round trips

  lemma Powers()
    ensures Pow10(0) == 1 && Pow10(1) == 10 && Pow10(2) == 100 && Pow10(3) == 1_000 && Pow10(4) == 10_000
  {
  }

  lemma AtLeastOnce(k: int, unit: int)
    requires k >= 1 && unit > 0
    ensures k * unit >= unit
  {
  }

  lemma Remainder(x: int, unit: int, y: int)
    requires unit > 0 && 0 <= y < unit
    ensures (x * unit + y) % unit == y
  {
    var n := x * unit + y;
    var q, r := n / unit, n % unit;
    assert n == q * unit + r;
    assert (x - q) * unit == r - y && (q - x) * unit == y - r;
    if x - q >= 1 {
      AtLeastOnce(x - q, unit);
    } else if q - x >= 1 {
      AtLeastOnce(q - x, unit);
    }
  }

  /** Cutting a four-digit fraction to fewer digits and padding it again clears the rest. */
  lemma CutFraction(f: string, d: nat)
    requires |f| == 4 && AllDigits(f) && d <= 4
    ensures AllDigits(FourDigits(f[..d])) && |FourDigits(f[..d])| == 4
    ensures DigitsValue(f, 10).Some? && DigitsValue(FourDigits(f[..d]), 10).Some?
    ensures var whole, cut := DigitsValue(f, 10).value, DigitsValue(FourDigits(f[..d]), 10).value;
      cut == whole - whole % Pow10(4 - d)
  {
    hide DigitsValue, Zeros, Pow10;
    Powers();
    FourDigitsAre(f[..d]);
    PrefixValue(f);
    ZerosAre(4 - d);
    if d == 4 {
      assert f[..4] == f;
    } else if d == 0 {
      assert FourDigits(f[..0]) == Zeros(4);
    } else {
      PrefixValue(f[..d]);
      PrefixValue(f[d..]);
      assert f == f[..d] + f[d..];
      DigitsConcat(f[..d], f[d..]);
      DigitsConcat(f[..d], Zeros(4 - d));
      Remainder(DigitsValue(f[..d], 10).value, Pow10(4 - d), DigitsValue(f[d..], 10).value);
    }
  }

  lemma Regroup(q: int, k: int, unit: int, g: int)
    requires k * unit == 10_000
    ensures (q * k + g) * unit == q * 10_000 + g * unit
  {
    assert (q * k) * unit == q * (k * unit);
  }

  /** Clearing the last digits of a value clears them in its fraction only. */
  lemma Kept(magnitude: nat, unit: int, k: int)
    requires unit > 0 && k * unit == 10_000
    ensures var fraction := magnitude % 10_000;
      magnitude - magnitude % unit == (magnitude / 10_000) * 10_000 + (fraction - fraction % unit)
  {
    var q, fraction := magnitude / 10_000, magnitude % 10_000;
    var g, r := fraction / unit, fraction % unit;
    assert fraction == g * unit + r;
    Regroup(q, k, unit, g);
    Remainder(q * k + g, unit, r);
  }

  /** Formatting to any number of decimals and parsing back truncates toward zero to that many
      decimals: exactly, with nothing lost, from four on. */
  lemma FormatParse(x: int, decimals: nat)
    ensures var magnitude: nat := if x < 0 then -x else x;
      var kept := magnitude - magnitude % Pow10(if decimals < 4 then 4 - decimals else 0);
      Parse(Format(x, decimals)) == Some(if x < 0 then -kept else kept)
  {
    hide Parse, ParseUnsigned, DigitsValue, Digits, Fraction, FourDigits, Pow10;
    var magnitude: nat := if x < 0 then -x else x;
    var a, f := Digits(magnitude / SCALE_FACTOR), Fraction(magnitude);
    FractionReads(magnitude);
    DigitsOf(magnitude / SCALE_FACTOR);
    var d := if decimals < 4 then decimals else 4;
    var b := f[..d];
    assert d == 4 ==> b == f;
    CutFraction(f, d);
    ParseParts(a, b);
    ParseSigned(a, b);
    Powers();
    assert Pow10(d) * Pow10(4 - d) == 10_000;
    Kept(magnitude, Pow10(4 - d), Pow10(d));
    if x >= 0 {
      assert Format(x, decimals) == a + "." + b;
    } else {
      assert Format(x, decimals) == "-" + a + "." + b;
    }
  }

  /** Four decimals lose nothing. */
  lemma RoundTrip(x: int)
    ensures Parse(Format(x, 4)) == Some(x)
  {
    hide Parse, Format, Pow10;
    Powers();
    FormatParse(x, 4);
  }

  /** Two decimals truncate toward zero, by less than 0.01. */
  lemma TwoDecimals(x: int)
    ensures Parse(Format(x, 2)).Some?
    ensures var y := Parse(Format(x, 2)).value;
      && y % 100 == 0 && (x >= 0 ==> 0 <= y <= x < y + 100) && (x <= 0 ==> y - 100 < x <= y <= 0)
  {
    hide Parse, Format, Pow10;
    Powers();
    FormatParse(x, 2);
  }

  // ----- verifyJournalBalance

  /** A journal line as the API prints it. */
  datatype PrintedLine = PrintedLine(debit: Option<string>, credit: Option<string>)

  datatype Verification = Verification(
    isBalanced: bool, totalDebits: string, totalCredits: string, variance: string, isPositive: bool)

  function ReadAmount(text: Option<string>): Option<int> {
    if text.None? || text.value == "" || text.value == "-" then Some(0) else Parse(text.value)
  }

  function ReadDebits(lines: seq<PrintedLine>): Option<int> {
    if lines == [] then Some(0)
    else
      var n := |lines| - 1;
      var rest, amount := ReadDebits(lines[..n]), ReadAmount(lines[n].debit);
      if rest.None? || amount.None? then None else Some(rest.value + amount.value)
  }

  function ReadCredits(lines: seq<PrintedLine>): Option<int> {
    if lines == [] then Some(0)
    else
      var n := |lines| - 1;
      var rest, amount := ReadCredits(lines[..n]), ReadAmount(lines[n].credit);
      if rest.None? || amount.None? then None else Some(rest.value + amount.value)
  }

  lemma {:induction false} UnreadableStays(lines: seq<PrintedLine>, n: nat)
    requires n <= |lines|
    ensures ReadDebits(lines[..n]).None? ==> ReadDebits(lines).None?
    ensures ReadCredits(lines[..n]).None? ==> ReadCredits(lines).None?
  {
    if n < |lines| {
      UnreadableStays(lines[..|lines| - 1], n);
      assert lines[..|lines| - 1][..n] == lines[..n];
    } else {
      assert lines[..n] == lines;
    }
  }

  /** None where the original throws on a malformed amount. */
  method VerifyJournalBalance(lines: seq<PrintedLine>) returns (result: Option<Verification>)
    ensures result.Some? <==> ReadDebits(lines).Some? && ReadCredits(lines).Some?
    ensures result.Some? ==>
      var debits, credits := ReadDebits(lines).value, ReadCredits(lines).value;
      var variance := debits - credits;
      result.value == Verification(
        debits == credits, Format(debits, 2), Format(credits, 2),
        Format(if variance < 0 then -variance else variance, 2), debits > 0 && credits > 0)
  {
    hide Parse, Format;
    var totalDebits, totalCredits := 0, 0;
    for n := 0 to |lines|
      invariant ReadDebits(lines[..n]) == Some(totalDebits)
      invariant ReadCredits(lines[..n]) == Some(totalCredits)
    {
      var line := lines[n];
      assert lines[..n + 1][..n] == lines[..n];
      UnreadableStays(lines, n + 1);
      if line.debit.Some? && line.debit.value != "" && line.debit.value != "-" {
        var amount := Parse(line.debit.value);
        if amount.None? { return None; }
        totalDebits := totalDebits + amount.value;
      }
      if line.credit.Some? && line.credit.value != "" && line.credit.value != "-" {
        var amount := Parse(line.credit.value);
        if amount.None? { return None; }
        totalCredits := totalCredits + amount.value;
      }
    }
    assert lines[..|lines|] == lines;
    var variance := totalDebits - totalCredits;
    result := Some(Verification(
      totalDebits == totalCredits, Format(totalDebits, 2), Format(totalCredits, 2),
      Format(if variance < 0 then -variance else variance, 2), totalDebits > 0 && totalCredits > 0));
  }

  // ----- the server's own journals

  /** Amounts leave the server with four decimals. */
  function Printed(lines: seq<JournalLine>): seq<PrintedLine> {
    if lines == [] then []
    else
      var n := |lines| - 1;
      Printed(lines[..n]) + [PrintedLine(Some(Format(lines[n].debit, 4)), Some(Format(lines[n].credit, 4)))]
  }

  lemma {:induction false} PrintedReadsBack(lines: seq<JournalLine>)
    ensures ReadDebits(Printed(lines)) == Some(SumDebits(lines))
    ensures ReadCredits(Printed(lines)) == Some(SumCredits(lines))
  {
    hide Parse, Format, ReadAmount;
    if lines != [] {
      var n := |lines| - 1;
      var front := Printed(lines[..n]);
      var last := PrintedLine(Some(Format(lines[n].debit, 4)), Some(Format(lines[n].credit, 4)));
      PrintedReadsBack(lines[..n]);
      AmountReadsBack(lines[n].debit);
      AmountReadsBack(lines[n].credit);
      assert Printed(lines) == front + [last] && (front + [last])[..|front|] == front;
    }
  }

  lemma AmountReadsBack(x: int)
    ensures ReadAmount(Some(Format(x, 4))) == Some(x)
  {
    hide Parse, Format;
    RoundTrip(x);
    PrintedIsText(x);
  }

  lemma PrintedIsText(x: int)
    ensures Format(x, 4) != "" && Format(x, 4) != "-"
  {
    var magnitude: nat := if x < 0 then -x else x;
    assert |Digits(magnitude / SCALE_FACTOR)| >= 1;
    assert |Format(x, 4)| >= 2;
  }

  /** The front end's verdict on a printed engine journal is the engine's own, and its totals
      are the engine's: the mismatch warning can never show. */
  lemma VerdictAgrees(policy: Policy, input: EngineInput)
    requires JournalFor(policy, input.firmId, input.clientId, input.values).Some?
    ensures var journal := JournalFor(policy, input.firmId, input.clientId, input.values).value;
      var debits, credits := ReadDebits(Printed(journal.lines)), ReadCredits(Printed(journal.lines));
      && debits == Some(journal.totalDebits) && credits == Some(journal.totalCredits)
      && (debits.value == credits.value <==> journal.isBalanced)
  {
    hide Printed, ReadDebits, ReadCredits, FieldText, MonetaryFindings, MatchSupplier, MatchedEntry;
    PrintedReadsBack(JournalFor(policy, input.firmId, input.clientId, input.values).value.lines);
  }

  // ----- formatMoney

  function WithCommas(digits: string): string {
    if |digits| <= 3 then digits else WithCommas(digits[..|digits| - 3]) + "," + digits[|digits| - 3..]
  }

  function WithoutCommas(text: string): string {
    if text == "" then ""
    else WithoutCommas(text[..|text| - 1]) + if text[|text| - 1] == ',' then "" else [text[|text| - 1]]
  }

  /** An unreadable amount is shown as it came. */
  function FormatMoney(amount: string, currency: string, includeCurrency: bool): string {
    var prefix := if includeCurrency then currency + " " else "";
    if Trim(amount) == "" || amount == "-" then prefix + "0.00"
    else
      match Parse(amount)
      case None => prefix + amount
      case Some(scaled) =>
        var magnitude: nat := if scaled < 0 then -scaled else scaled;
        prefix + (if scaled < 0 then "-" else "") + WithCommas(Digits(magnitude / SCALE_FACTOR)) + "." +
        (FractionReads(magnitude); Fraction(magnitude)[..2])
  }

  lemma {:induction false} CommasConcat(a: string, b: string)
    ensures WithoutCommas(a + b) == WithoutCommas(a) + WithoutCommas(b)
  {
    if b == "" {
      assert a + b == a;
    } else {
      assert (a + b)[..|a + b| - 1] == a + b[..|b| - 1];
      CommasConcat(a, b[..|b| - 1]);
    }
  }

  lemma {:induction false} NoCommas(s: string)
    requires forall i | 0 <= i < |s| :: s[i] != ','
    ensures WithoutCommas(s) == s
  {
    if s != "" {
      var n := |s| - 1;
      assert s == s[..n] + [s[n]];
      NoCommas(s[..n]);
    }
  }

  lemma CommasParts(a: string, b: string, c: string, d: string)
    ensures WithoutCommas(a + b + c + d) == WithoutCommas(a) + WithoutCommas(b) + WithoutCommas(c) + WithoutCommas(d)
  {
    hide WithoutCommas;
    CommasConcat(a + b + c, d);
    CommasConcat(a + b, c);
    CommasConcat(a, b);
  }

  lemma GroupedBy(digits: string)
    ensures |digits| <= 3 ==> WithCommas(digits) == digits
    ensures |digits| > 3 ==>
      WithCommas(digits) == WithCommas(digits[..|digits| - 3]) + "," + digits[|digits| - 3..] + ""
  {
  }

  /** Counting from the right, every fourth character of the grouped digits is a separator and
      no other is, and none comes first. */
  lemma {:induction false} CommaPlaces(digits: string, i: nat)
    requires AllDigits(digits) && i < |WithCommas(digits)|
    ensures WithCommas(digits)[i] == ',' <==> (|WithCommas(digits)| - i) % 4 == 0
    ensures |WithCommas(digits)| % 4 != 0
  {
    hide WithCommas, IsDigit;
    GroupedBy(digits);
    NoCommaIn(digits);
    if |digits| > 3 {
      var front, last := digits[..|digits| - 3], digits[|digits| - 3..];
      var shown, all := WithCommas(front), WithCommas(digits);
      assert all == shown + "," + last && |all| == |shown| + 4;
      GroupedBy(front);
      FourMore(|shown|);
      if i < |shown| {
        CommaPlaces(front, i);
        FourMore(|shown| - i);
        assert all[i] == shown[i];
      } else {
        CommaPlaces(front, 0);
        if i > |shown| {
          assert all[i] == last[i - |shown| - 1] == digits[i - |shown| - 4 + |digits|];
        }
      }
    }
  }

  lemma FourMore(n: int)
    ensures (n + 4) % 4 == n % 4
  {
  }

  lemma NoCommaIn(digits: string)
    requires AllDigits(digits)
    ensures forall i | 0 <= i < |digits| :: digits[i] != ','
  {
  }

  lemma JustComma()
    ensures WithoutCommas(",") == "" && WithoutCommas("") == ""
  {
  }

  lemma {:induction false} CommasOnlySeparate(digits: string)
    requires AllDigits(digits)
    ensures WithoutCommas(WithCommas(digits)) == digits
  {
    hide WithoutCommas, WithCommas;
    GroupedBy(digits);
    if |digits| <= 3 {
      NoCommas(digits);
    } else {
      var head, tail := digits[..|digits| - 3], digits[|digits| - 3..];
      CommasOnlySeparate(head);
      CommasParts(WithCommas(head), ",", tail, "");
      NoCommas(tail);
      JustComma();
      assert digits == head + "" + tail + "";
    }
  }

  function Sign(x: int): string { if x < 0 then "-" else "" }

  function Magnitude(x: int): nat { if x < 0 then -x else x }

  lemma MoneyText(amount: string)
    requires Trim(amount) != "" && amount != "-" && Parse(amount).Some?
    ensures var x := Parse(amount).value;
      && |Fraction(Magnitude(x))| == 4
      && FormatMoney(amount, "", false) ==
        "" + Sign(x) + WithCommas(Digits(Magnitude(x) / SCALE_FACTOR)) + "." + Fraction(Magnitude(x))[..2]
      && Format(x, 2) == Sign(x) + Digits(Magnitude(x) / SCALE_FACTOR) + "." + Fraction(Magnitude(x))[..2]
  {
    hide Parse, Trim, Fraction, Digits, WithCommas;
    FractionReads(Magnitude(Parse(amount).value));
  }

  /** The displayed amount without its separators is the two-decimal form of what was parsed. */
  lemma MoneyShowsAmount(amount: string)
    requires Trim(amount) != "" && amount != "-" && Parse(amount).Some?
    ensures WithoutCommas(FormatMoney(amount, "", false)) == Format(Parse(amount).value, 2)
  {
    hide Parse, Trim, Fraction, Digits, WithCommas, WithoutCommas, Format, FormatMoney;
    MoneyText(amount);
    var x := Parse(amount).value;
    FractionReads(Magnitude(x));
    var digits, cents := Digits(Magnitude(x) / SCALE_FACTOR), Fraction(Magnitude(x))[..2];
    assert "" + Sign(x) == Sign(x);
    CommasParts(Sign(x), WithCommas(digits), ".", cents);
    CommasOnlySeparate(digits);
    NoCommas(Sign(x));
    NoCommas(".");
    NoCommas(cents);
  }
}
