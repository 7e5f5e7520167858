/** The text operations the services use, on ASCII text. */
module Text {

  /** Python's str.isspace on ASCII. */
  predicate IsSpace(c: char) {
    9 <= c as int <= 13 || 28 <= c as int <= 32
  }

  predicate IsLower(c: char) { 'a' <= c <= 'z' }

  predicate IsUpper(c: char) { 'A' <= c <= 'Z' }

  predicate IsDigit(c: char) { '0' <= c <= '9' }

  predicate IsAsciiLetter(c: char) { IsLower(c) || IsUpper(c) }

  predicate IsLowerAlnum(c: char) { IsLower(c) || IsDigit(c) }

  predicate IsUpperAlnum(c: char) { IsUpper(c) || IsDigit(c) }

  predicate IsNotBlank(c: char) { c != ' ' }

  function LowerChar(c: char): char {
    if IsUpper(c) then (c as int + 32) as char else c
  }

  function UpperChar(c: char): char {
    if IsLower(c) then (c as int - 32) as char else c
  }

  function Lower(s: string): string {
    seq(|s|, i requires 0 <= i < |s| => LowerChar(s[i]))
  }

  function Upper(s: string): string {
    seq(|s|, i requires 0 <= i < |s| => UpperChar(s[i]))
  }

  function StripLeft(s: string): string {
    if s != [] && IsSpace(s[0]) then StripLeft(s[1..]) else s
  }

  function StripRight(s: string): string {
    if s != [] && IsSpace(s[|s| - 1]) then StripRight(s[..|s| - 1]) else s
  }

  function Strip(s: string): string {
    StripRight(StripLeft(s))
  }

  /** True when nothing is left to strip. */
  predicate Stripped(s: string) {
    s == [] || (!IsSpace(s[0]) && !IsSpace(s[|s| - 1]))
  }

  lemma {:induction false} StripRightKeepsHead(s: string)
    requires s != [] && !IsSpace(s[0])
    ensures StripRight(s) != [] && StripRight(s)[0] == s[0]
    ensures !IsSpace(StripRight(s)[|StripRight(s)| - 1])
  {
    if IsSpace(s[|s| - 1]) {
      StripRightKeepsHead(s[..|s| - 1]);
    }
  }

  lemma {:induction false} StripLeftHead(s: string)
    ensures StripLeft(s) == [] || !IsSpace(StripLeft(s)[0])
  {
    if s != [] && IsSpace(s[0]) {
      StripLeftHead(s[1..]);
    }
  }

  lemma {:induction false} StripIsStripped(s: string)
    ensures Stripped(Strip(s))
    ensures Strip(Strip(s)) == Strip(s)
  {
    StripLeftHead(s);
    if StripLeft(s) != [] {
      StripRightKeepsHead(StripLeft(s));
    }
  }

  predicate AllSpaces(s: string) {
    forall i | 0 <= i < |s| :: IsSpace(s[i])
  }

  lemma {:induction false} StripLeftSpaces(a: string, s: string)
    requires AllSpaces(a)
    ensures StripLeft(a + s) == StripLeft(s)
  {
    if a == "" {
      assert a + s == s;
    } else {
      assert (a + s)[1..] == a[1..] + s;
      StripLeftSpaces(a[1..], s);
    }
  }

  lemma {:induction false} StripRightSpaces(s: string, b: string)
    requires AllSpaces(b)
    ensures StripRight(s + b) == StripRight(s)
  {
    if b == "" {
      assert s + b == s;
    } else {
      assert (s + b)[..|s + b| - 1] == s + b[..|b| - 1];
      StripRightSpaces(s, b[..|b| - 1]);
    }
  }

  /** Stripping removes exactly the surrounding blanks. */
  lemma StripRemoves(a: string, t: string, b: string)
    requires AllSpaces(a) && AllSpaces(b) && Stripped(t)
    ensures Strip(a + t + b) == t
  {
    if t == "" {
      assert a + t + b == (a + b) + "";
      StripLeftSpaces(a + b, "");
    } else {
      assert a + t + b == a + (t + b);
      StripLeftSpaces(a, t + b);
      assert (t + b)[0] == t[0];
      StripRightSpaces(t, b);
    }
  }

  lemma {:induction false} StripLeftParts(s: string) returns (before: string)
    ensures AllSpaces(before) && s == before + StripLeft(s)
  {
    before := "";
    if s != [] && IsSpace(s[0]) {
      before := StripLeftParts(s[1..]);
      before := [s[0]] + before;
    }
  }

  lemma {:induction false} StripRightParts(s: string) returns (after: string)
    ensures AllSpaces(after) && s == StripRight(s) + after
  {
    after := "";
    if s != [] && IsSpace(s[|s| - 1]) {
      after := StripRightParts(s[..|s| - 1]);
      after := after + [s[|s| - 1]];
    }
  }

  predicate EqualIgnoringCase(s: string, t: string) {
    |s| == |t| && forall i | 0 <= i < |s| :: LowerChar(s[i]) == LowerChar(t[i])
  }

  lemma LowerEqual(s: string, t: string)
    ensures Lower(s) == Lower(t) <==> EqualIgnoringCase(s, t)
  {
    if Lower(s) == Lower(t) {
      forall i | 0 <= i < |s|
        ensures LowerChar(s[i]) == LowerChar(t[i])
      {
        assert Lower(s)[i] == Lower(t)[i];
      }
    }
  }

  /** Lower-casing keeps blanks where they are. */
  lemma StrippedLower(s: string)
    requires Stripped(s)
    ensures Strip(Lower(s)) == Lower(s)
  {
    assert "" + Lower(s) + "" == Lower(s);
    StripRemoves("", Lower(s), "");
  }

  /** Length of the longest prefix whose characters all satisfy keep. */
  function WordLength(s: string, keep: char -> bool): (n: nat)
    ensures n <= |s|
    ensures forall i | 0 <= i < n :: keep(s[i])
    ensures n < |s| ==> !keep(s[n])
  {
    if s == [] || !keep(s[0]) then 0 else 1 + WordLength(s[1..], keep)
  }

  /** The maximal runs of kept characters, in order. */
  function Words(s: string, keep: char -> bool): (words: seq<string>)
    decreases |s|
  {
    if s == [] then []
    else if !keep(s[0]) then Words(s[1..], keep)
    else
      var n := WordLength(s, keep);
      [s[..n]] + Words(s[n..], keep)
  }

  function JoinWords(words: seq<string>): string {
    if |words| == 0 then ""
    else if |words| == 1 then words[0]
    else words[0] + " " + JoinWords(words[1..])
  }

  /** Case-folded words of letters and digits, separated by single blanks. */
  function NormalizeName(value: string): string {
    JoinWords(Words(Lower(value), IsLowerAlnum))
  }

  /** A name's words: what splitting the normalized name at blanks yields. */
  function NameTokens(normalized: string): set<string> {
    set w | w in Words(normalized, IsNotBlank)
  }

  /** The letters and digits of the upper-cased text, with everything else dropped. */
  function KeepUpperAlnum(s: string): string {
    if s == [] then []
    else (if IsUpperAlnum(s[0]) then [s[0]] else []) + KeepUpperAlnum(s[1..])
  }

  predicate OccursAt(needle: string, haystack: string, i: nat) {
    i + |needle| <= |haystack| && haystack[i..i + |needle|] == needle
  }

  /** Whether needle occurs inside haystack. */
  predicate Occurs(needle: string, haystack: string) {
    exists i | 0 <= i <= |haystack| :: OccursAt(needle, haystack, i)
  }

  ghost predicate IsWord(w: string, keep: char -> bool) {
    w != [] && forall i | 0 <= i < |w| :: keep(w[i])
  }

  ghost predicate AllWords(words: seq<string>, keep: char -> bool) {
    forall i | 0 <= i < |words| :: IsWord(words[i], keep)
  }

  lemma {:induction false} WordsAreWords(s: string, keep: char -> bool)
    ensures AllWords(Words(s, keep), keep)
    decreases |s|
  {
    if s == [] {
    } else if !keep(s[0]) {
      WordsAreWords(s[1..], keep);
    } else {
      WordsAreWords(s[WordLength(s, keep)..], keep);
    }
  }

  lemma {:induction false} WordLengthStops(w: string, rest: string, keep: char -> bool)
    requires IsWord(w, keep)
    requires rest == [] || !keep(rest[0])
    ensures WordLength(w + rest, keep) == |w|
  {
    assert forall i | 0 <= i < |w| :: (w + rest)[i] == w[i] && keep(w[i]);
    assert rest != [] ==> (w + rest)[|w|] == rest[0];
  }

  /** Joining words with blanks and splitting again gives the same words. */
  lemma {:induction false} WordsOfJoin(words: seq<string>, keep: char -> bool)
    requires AllWords(words, keep) && !keep(' ')
    ensures Words(JoinWords(words), keep) == words
    decreases |words|
  {
    if |words| > 0 {
      var w, rest := words[0], if |words| == 1 then "" else " " + JoinWords(words[1..]);
      assert JoinWords(words) == w + rest;
      assert IsWord(w, keep);
      WordLengthStops(w, rest, keep);
      assert (w + rest)[..|w|] == w && (w + rest)[|w|..] == rest;
      assert (w + rest)[0] == w[0];
      WordsOfJoin(words[1..], keep);
      if |words| > 1 {
        assert rest[1..] == JoinWords(words[1..]);
      }
      assert words == [w] + words[1..];
    }
  }

  lemma {:induction false} JoinIsLower(words: seq<string>)
    requires AllWords(words, IsLowerAlnum)
    ensures Lower(JoinWords(words)) == JoinWords(words)
    decreases |words|
  {
    if |words| > 0 {
      var w := words[0];
      assert IsWord(w, IsLowerAlnum) && Lower(w) == w;
      if |words| > 1 {
        var tail := JoinWords(words[1..]);
        JoinIsLower(words[1..]);
        assert Lower(w + " " + tail) == Lower(w) + " " + Lower(tail);
      }
    }
  }

  /** Splitting determines its result: a word alone is itself, and any other character parts
      what stands on its left from what stands on its right. */
  lemma {:induction false} WordsParted(left: string, c: char, right: string, keep: char -> bool)
    requires !keep(c)
    ensures Words(left + [c] + right, keep) == Words(left, keep) + Words(right, keep)
    decreases |left|
  {
    var s := left + [c] + right;
    if left == "" {
      assert s[1..] == right;
    } else if !keep(left[0]) {
      assert s[1..] == left[1..] + [c] + right;
      WordsParted(left[1..], c, right, keep);
    } else {
      var n := WordLength(left, keep);
      var w, rest := left[..n], left[n..] + [c] + right;
      assert s == w + rest;
      WordLengthStops(w, rest, keep);
      assert s[..n] == w && s[n..] == rest;
      WordsParted(left[n..], c, right, keep);
    }
  }

  lemma WordAlone(w: string, keep: char -> bool)
    requires IsWord(w, keep)
    ensures Words(w, keep) == [w] && Words("", keep) == []
  {
    assert w + "" == w;
    WordLengthStops(w, "", keep);
    assert w[..|w|] == w && w[|w|..] == "";
  }

  /** A name's words: its letters and digits in lower case, parted by everything else. */
  function NameWords(name: string): seq<string> { Words(Lower(name), IsLowerAlnum) }

  /** A name's words are parted by every character that is no letter or digit, and an unbroken run
      of letters and digits is one word, in lower case. */
  lemma NameWordsParted(left: string, c: char, right: string)
    ensures !IsAsciiLetter(c) && !IsDigit(c) ==> NameWords(left + [c] + right) == NameWords(left) + NameWords(right)
    ensures left != "" && (forall i | 0 <= i < |left| :: IsAsciiLetter(left[i]) || IsDigit(left[i])) ==>
      NameWords(left) == [Lower(left)]
    ensures NameWords("") == []
  {
    assert Lower(left + [c] + right) == Lower(left) + [LowerChar(c)] + Lower(right);
    if !IsAsciiLetter(c) && !IsDigit(c) {
      WordsParted(Lower(left), LowerChar(c), Lower(right), IsLowerAlnum);
    }
    if left != "" && forall i | 0 <= i < |left| :: IsAsciiLetter(left[i]) || IsDigit(left[i]) {
      WordAlone(Lower(left), IsLowerAlnum);
    }
  }

  /** Two names normalize to the same text exactly when they have the same words in order. */
  lemma SameNames(a: string, b: string)
    ensures NormalizeName(a) == NormalizeName(b) <==> NameWords(a) == NameWords(b)
  {
    WordsAreWords(Lower(a), IsLowerAlnum);
    WordsAreWords(Lower(b), IsLowerAlnum);
    WordsOfJoin(NameWords(a), IsLowerAlnum);
    WordsOfJoin(NameWords(b), IsLowerAlnum);
  }

  /** Normalizing a name twice changes nothing, and its tokens are exactly the words that
      normalization kept. */
  lemma NormalizeNameCanonical(value: string)
    ensures NormalizeName(NormalizeName(value)) == NormalizeName(value)
    ensures NameTokens(NormalizeName(value)) == (set w | w in Words(Lower(value), IsLowerAlnum))
  {
    var words := Words(Lower(value), IsLowerAlnum);
    WordsAreWords(Lower(value), IsLowerAlnum);
    JoinIsLower(words);
    WordsOfJoin(words, IsLowerAlnum);
    forall i | 0 <= i < |words|
      ensures IsWord(words[i], IsNotBlank)
    {
      assert IsWord(words[i], IsLowerAlnum);
    }
    WordsOfJoin(words, IsNotBlank);
  }
}
