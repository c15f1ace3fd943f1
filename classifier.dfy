/** The abbreviation classifier `is_abbreviation`: a full match of the regular
    expression `([A-Z]+\.)+|[A-Z]+`. */
module Classifier {

  /** An ASCII capital letter, the class `[A-Z]`. */
  predicate IsCapital(c: char) {
    'A' <= c <= 'Z'
  }

  /** A full match of `[A-Z]+`: a non-empty run of capitals. */
  predicate IsCapitals(s: string) {
    |s| > 0 && forall i :: 0 <= i < |s| ==> IsCapital(s[i])
  }

  /** Length of the run of capitals at the start of `s`. */
  function CapitalRun(s: string): (k: nat)
    ensures k <= |s|
    ensures forall i :: 0 <= i < k ==> IsCapital(s[i])
    ensures k < |s| ==> !IsCapital(s[k])
  {
    if s != [] && IsCapital(s[0]) then 1 + CapitalRun(s[1..]) else 0
  }

  /** A full match of `([A-Z]+\.)+`, read as the matcher reads it: a run of
      capitals, a period, and then either the end or another such group. */
  predicate IsDottedGroups(w: string)
    decreases |w|
  {
    var k := CapitalRun(w);
    0 < k < |w| && w[k] == '.' && (k + 1 == |w| || IsDottedGroups(w[k + 1..]))
  }

  /** `is_abbreviation(word)`: `word` fully matches `([A-Z]+\.)+|[A-Z]+`. */
  predicate IsAbbreviation(word: string) {
    IsDottedGroups(word) || IsCapitals(word)
  }

  // ---------------------------------------------------------------------------
  // The language of the regular expression, stated independently
  // ---------------------------------------------------------------------------

  /** The string `g1 + "." + g2 + "." + ... + gn + "."`. */
  function Dotted(groups: seq<string>): string {
    if groups == [] then "" else groups[0] + "." + Dotted(groups[1..])
  }

  predicate AllCapitals(groups: seq<string>) {
    forall i :: 0 <= i < |groups| ==> IsCapitals(groups[i])
  }

  /** `w` is in the language of `([A-Z]+\.)+|[A-Z]+`: a run of capitals, or
      one or more groups of capitals, each followed by a period. */
  ghost predicate InPatternLanguage(w: string) {
    IsCapitals(w) || exists groups :: |groups| > 0 && AllCapitals(groups) && w == Dotted(groups)
  }

  lemma {:induction false} CapitalRunOfDotted(g: string, rest: string)
    requires IsCapitals(g)
    ensures CapitalRun(g + "." + rest) == |g|
    decreases |g|
  {
    var s := g + "." + rest;
    if |g| > 1 {
      assert s[1..] == g[1..] + "." + rest;
      CapitalRunOfDotted(g[1..], rest);
    } else {
      assert s[1..] == "." + rest;
    }
  }

  /** The groups the matcher found, when it accepts. */
  lemma {:induction false} DottedGroupsWitness(w: string) returns (groups: seq<string>)
    requires IsDottedGroups(w)
    ensures |groups| > 0 && AllCapitals(groups) && w == Dotted(groups)
    decreases |w|
  {
    var k := CapitalRun(w);
    var g := w[..k];
    if k + 1 == |w| {
      groups := [g];
      assert w == g + "." + Dotted([]);
    } else {
      var more := DottedGroupsWitness(w[k + 1..]);
      groups := [g] + more;
      assert groups[1..] == more;
      assert w == g + "." + w[k + 1..];
    }
  }

  /** The matcher accepts every string built from groups. */
  lemma {:induction false} DottedGroupsComplete(groups: seq<string>)
    requires |groups| > 0 && AllCapitals(groups)
    ensures IsDottedGroups(Dotted(groups))
    decreases |groups|
  {
    var w := Dotted(groups);
    var rest := Dotted(groups[1..]);
    CapitalRunOfDotted(groups[0], rest);
    var k := |groups[0]|;
    assert w[k] == '.';
    assert w[k + 1..] == rest;
    if |groups| > 1 {
      DottedGroupsComplete(groups[1..]);
    }
  }

  /** The classifier accepts exactly the language of `([A-Z]+\.)+|[A-Z]+`. */
  lemma IsAbbreviationMatchesPattern(w: string)
    ensures IsAbbreviation(w) <==> InPatternLanguage(w)
  {
    if IsDottedGroups(w) {
      var groups := DottedGroupsWitness(w);
    }
    if exists groups :: |groups| > 0 && AllCapitals(groups) && w == Dotted(groups) {
      var groups :| |groups| > 0 && AllCapitals(groups) && w == Dotted(groups);
      DottedGroupsComplete(groups);
    }
  }

  // ---------------------------------------------------------------------------
  // A character-level description of the same language
  // ---------------------------------------------------------------------------

  /** Only capitals and periods; a capital first; a period last; never two
      periods side by side. */
  predicate WellDotted(w: string) {
    && |w| >= 2
    && IsCapital(w[0])
    && w[|w| - 1] == '.'
    && (forall i :: 0 <= i < |w| ==> IsCapital(w[i]) || w[i] == '.')
    && (forall i :: 0 <= i < |w| - 1 ==> w[i] == '.' ==> w[i + 1] != '.')
  }

  lemma {:induction false} DottedGroupsAreWellDotted(w: string)
    ensures IsDottedGroups(w) <==> WellDotted(w)
    decreases |w|
  {
    var k := CapitalRun(w);
    if IsDottedGroups(w) {
      if k + 1 < |w| {
        DottedGroupsAreWellDotted(w[k + 1..]);
        var rest := w[k + 1..];
        assert forall i :: k + 1 <= i < |w| ==> w[i] == rest[i - (k + 1)];
      }
    }
    if WellDotted(w) {
      assert 0 < k < |w| && w[k] == '.';
      if k + 1 < |w| {
        var rest := w[k + 1..];
        assert forall i :: 0 <= i < |rest| ==> rest[i] == w[i + k + 1];
        assert rest[0] != '.';
        DottedGroupsAreWellDotted(rest);
      }
    }
  }

  /** Everything the classifier accepts is non-empty and made only of capitals
      and periods: a lower-case letter, a digit, an underscore or any other
      character causes rejection. */
  lemma AcceptedAlphabet(w: string)
    requires IsAbbreviation(w)
    ensures |w| > 0
    ensures forall i :: 0 <= i < |w| ==> IsCapital(w[i]) || w[i] == '.'
  {
    DottedGroupsAreWellDotted(w);
  }

  /** An accepted word never holds a line break, so it is one line of a prompt. */
  lemma AcceptedHasNoNewline(w: string)
    requires IsAbbreviation(w)
    ensures '\n' !in w
  {
    AcceptedAlphabet(w);
  }

  /** Capitals after the last period (as in U.S.A) are rejected: a word with a
      period that does not end in a period is not accepted. */
  lemma TrailingCapitalsRejected(w: string)
    requires '.' in w && w[|w| - 1] != '.'
    ensures !IsAbbreviation(w)
  {
    DottedGroupsAreWellDotted(w);
  }
}
