/** Models of the Python `str` built-ins the extractor relies on:
    `str.isspace`, `str.split()` without an argument, `str.split(sep)` with a
    one-character separator, `sep.join(parts)` and `str.strip()`. */
module PyStr {

  /** Python's `str.isspace` on one character: the code points that Python's
      Unicode database treats as whitespace. */
  predicate IsSpace(c: char) {
    c == ' ' || '\t' <= c <= '\r' || '\U{1C}' <= c <= '\U{1F}'
    || c == '\U{85}' || c == '\U{A0}' || c == '\U{1680}'
    || '\U{2000}' <= c <= '\U{200A}' || c == '\U{2028}' || c == '\U{2029}'
    || c == '\U{202F}' || c == '\U{205F}' || c == '\U{3000}'
  }

  predicate NoSpace(s: string) {
    forall i :: 0 <= i < |s| ==> !IsSpace(s[i])
  }

  predicate AllSpace(s: string) {
    forall i :: 0 <= i < |s| ==> IsSpace(s[i])
  }

  /** The characters of `s` that are not whitespace, in order. */
  function DropSpaces(s: string): string {
    if s == [] then [] else (if IsSpace(s[0]) then [] else [s[0]]) + DropSpaces(s[1..])
  }

  /** The concatenation of a list of strings (`''.join(xs)`). */
  function Concat(xs: seq<string>): string {
    if xs == [] then [] else xs[0] + Concat(xs[1..])
  }

  // ---------------------------------------------------------------------------
  // s.split() : maximal runs of non-whitespace characters
  // ---------------------------------------------------------------------------

  /** Length of the run of non-whitespace characters at the start of `s`. */
  function RunLength(s: string): (k: nat)
    ensures k <= |s| && NoSpace(s[..k])
    ensures k < |s| ==> IsSpace(s[k])
  {
    if s == [] || IsSpace(s[0]) then 0 else 1 + RunLength(s[1..])
  }

  /** Python's `s.split()`: whitespace of any length separates tokens, and
      leading and trailing whitespace produce no token. */
  function Words(s: string): seq<string>
    decreases |s|
  {
    if s == [] then []
    else if IsSpace(s[0]) then Words(s[1..])
    else var k := RunLength(s); [s[..k]] + Words(s[k..])
  }

  /** No token is empty and no token contains whitespace. */
  lemma {:induction false} WordsAreTokens(s: string)
    ensures forall i :: 0 <= i < |Words(s)| ==> Words(s)[i] != [] && NoSpace(Words(s)[i])
    decreases |s|
  {
    if s == [] {
    } else if IsSpace(s[0]) {
      WordsAreTokens(s[1..]);
    } else {
      var k := RunLength(s);
      WordsAreTokens(s[k..]);
      assert forall i :: 1 <= i < |Words(s)| ==> Words(s)[i] == Words(s[k..])[i - 1];
    }
  }

  /** A string that is empty or holds only whitespace yields no token. */
  lemma {:induction false} WordsOfBlank(s: string)
    requires AllSpace(s)
    ensures Words(s) == []
    decreases |s|
  {
    if s != [] {
      WordsOfBlank(s[1..]);
    }
  }

  lemma {:induction false} DropSpacesAppend(a: string, b: string)
    ensures DropSpaces(a + b) == DropSpaces(a) + DropSpaces(b)
    decreases |a|
  {
    if a == [] {
      assert a + b == b;
    } else {
      assert (a + b)[1..] == a[1..] + b;
      DropSpacesAppend(a[1..], b);
    }
  }

  lemma {:induction false} DropSpacesOfWord(t: string)
    requires NoSpace(t)
    ensures DropSpaces(t) == t
    decreases |t|
  {
    if t != [] {
      DropSpacesOfWord(t[1..]);
    }
  }

  lemma {:induction false} DropSpacesOfBlank(t: string)
    requires AllSpace(t)
    ensures DropSpaces(t) == []
    decreases |t|
  {
    if t != [] {
      DropSpacesOfBlank(t[1..]);
    }
  }

  /** The tokens hold exactly the non-whitespace characters of `s`, in order:
      splitting loses nothing but whitespace. */
  lemma {:induction false} WordsKeepAllText(s: string)
    ensures Concat(Words(s)) == DropSpaces(s)
    decreases |s|
  {
    if s == [] {
    } else if IsSpace(s[0]) {
      WordsKeepAllText(s[1..]);
    } else {
      var k := RunLength(s);
      WordsKeepAllText(s[k..]);
      assert s == s[..k] + s[k..];
      DropSpacesAppend(s[..k], s[k..]);
      DropSpacesOfWord(s[..k]);
      var ws := [s[..k]] + Words(s[k..]);
      assert ws[1..] == Words(s[k..]);
    }
  }

  lemma {:induction false} RunLengthOfWord(t: string)
    requires NoSpace(t)
    ensures RunLength(t) == |t|
    decreases |t|
  {
    if t != [] {
      RunLengthOfWord(t[1..]);
    }
  }

  lemma {:induction false} RunLengthStopsAtSpace(a: string, b: string)
    requires b != [] && IsSpace(b[0])
    ensures RunLength(a + b) == RunLength(a) <= |a|
    decreases |a|
  {
    if a == [] {
      assert a + b == b;
    } else if !IsSpace(a[0]) {
      assert (a + b)[1..] == a[1..] + b;
      RunLengthStopsAtSpace(a[1..], b);
    }
  }

  /** A whitespace character between two strings separates their tokens. */
  lemma {:induction false} WordsAroundSpace(a: string, c: char, b: string)
    requires IsSpace(c)
    ensures Words(a + [c] + b) == Words(a) + Words(b)
    decreases |a|
  {
    var s := a + [c] + b;
    if a == [] {
      assert s[1..] == b;
    } else if IsSpace(a[0]) {
      assert s[1..] == a[1..] + [c] + b;
      WordsAroundSpace(a[1..], c, b);
    } else {
      assert s == a + ([c] + b);
      RunLengthStopsAtSpace(a, [c] + b);
      var k := RunLength(a);
      assert s[0] == a[0] && RunLength(s) == k;
      assert s[..k] == a[..k];
      assert s[k..] == a[k..] + [c] + b;
      calc {
        Words(s);
        [a[..k]] + Words(a[k..] + [c] + b);
        { WordsAroundSpace(a[k..], c, b); }
        [a[..k]] + (Words(a[k..]) + Words(b));
        ([a[..k]] + Words(a[k..])) + Words(b);
        Words(a) + Words(b);
      }
    }
  }

  lemma {:induction false} WordsOfWord(t: string)
    requires t != [] && NoSpace(t)
    ensures Words(t) == [t]
  {
    RunLengthOfWord(t);
    assert t[..|t|] == t;
    assert t[|t|..] == [];
  }

  /** Round trip: joining non-empty, whitespace-free tokens with a space and
      splitting the result again gives back the tokens. */
  lemma {:induction false} WordsOfJoin(ts: seq<string>)
    requires forall i :: 0 <= i < |ts| ==> ts[i] != [] && NoSpace(ts[i])
    ensures Words(Join(ts, " ")) == ts
    decreases |ts|
  {
    if |ts| == 1 {
      WordsOfWord(ts[0]);
    } else if |ts| > 1 {
      WordsOfJoin(ts[1..]);
      WordsOfWord(ts[0]);
      assert Join(ts, " ") == ts[0] + [' '] + Join(ts[1..], " ");
      WordsAroundSpace(ts[0], ' ', Join(ts[1..], " "));
      assert ts == [ts[0]] + ts[1..];
    }
  }

  // ---------------------------------------------------------------------------
  // sep.join(xs) and s.split(sep)
  // ---------------------------------------------------------------------------

  /** No string of `xs` holds a line break. */
  predicate NoNewline(xs: seq<string>) {
    forall i :: 0 <= i < |xs| ==> '\n' !in xs[i]
  }

  /** Python's `sep.join(xs)`. */
  function Join(xs: seq<string>, sep: string): string {
    if xs == [] then ""
    else if |xs| == 1 then xs[0]
    else xs[0] + sep + Join(xs[1..], sep)
  }

  /** Python's `s.split(sep)` for a one-character separator: every occurrence
      of `sep` ends a piece, so empty pieces are kept and `""` gives `[""]`. */
  function Split(s: string, sep: char): (r: seq<string>)
    ensures |r| >= 1
    decreases |s|
  {
    if s == [] then [""]
    else
      var rest := Split(s[1..], sep);
      if s[0] == sep then [""] + rest
      else [[s[0]] + rest[0]] + rest[1..]
  }

  /** No piece contains the separator. */
  lemma {:induction false} SplitPiecesLackSeparator(s: string, sep: char)
    ensures forall i :: 0 <= i < |Split(s, sep)| ==> sep !in Split(s, sep)[i]
    decreases |s|
  {
    if s != [] {
      SplitPiecesLackSeparator(s[1..], sep);
      var rest := Split(s[1..], sep);
      if s[0] != sep {
        assert Split(s, sep)[0] == [s[0]] + rest[0];
        assert forall i :: 1 <= i < |Split(s, sep)| ==> Split(s, sep)[i] == rest[i];
      } else {
        assert forall i :: 1 <= i < |Split(s, sep)| ==> Split(s, sep)[i] == rest[i - 1];
      }
    }
  }

  /** There is one more piece than there are separators. */
  lemma {:induction false} SplitCount(s: string, sep: char)
    ensures |Split(s, sep)| == multiset(s)[sep] + 1
    decreases |s|
  {
    if s != [] {
      SplitCount(s[1..], sep);
      assert s == [s[0]] + s[1..];
    }
  }

  /** Splitting loses nothing: joining the pieces with the separator gives
      back the input. */
  lemma {:induction false} JoinSplit(s: string, sep: char)
    ensures Join(Split(s, sep), [sep]) == s
    decreases |s|
  {
    if s != [] {
      JoinSplit(s[1..], sep);
      var rest := Split(s[1..], sep);
      if s[0] == sep {
        assert ([""] + rest)[1..] == rest;
      } else {
        var r := [[s[0]] + rest[0]] + rest[1..];
        if |rest| == 1 {
          assert Join(rest, [sep]) == rest[0];
        } else {
          assert Join(rest, [sep]) == rest[0] + [sep] + Join(rest[1..], [sep]);
          assert r[1..] == rest[1..];
        }
      }
    }
  }

  /** Splitting a string that starts with character `c`. */
  lemma SplitCons(c: char, t: string, sep: char)
    ensures Split([c] + t, sep)
            == if c == sep then [""] + Split(t, sep)
               else [[c] + Split(t, sep)[0]] + Split(t, sep)[1..]
  {
    assert ([c] + t)[0] == c && ([c] + t)[1..] == t;
  }

  /** A separator-free prefix followed by the separator is one piece of its
      own, followed by the pieces of what comes after. */
  lemma {:induction false} SplitAfterPiece(a: string, sep: char, b: string)
    requires sep !in a
    ensures Split(a + [sep] + b, sep) == [a] + Split(b, sep)
    decreases |a|
  {
    if a == [] {
      assert a + [sep] + b == [sep] + b;
      SplitCons(sep, b, sep);
    } else {
      var tail := a[1..] + [sep] + b;
      assert a + [sep] + b == [a[0]] + tail;
      SplitAfterPiece(a[1..], sep, b);
      SplitCons(a[0], tail, sep);
      assert [a[0]] + a[1..] == a;
    }
  }

  /** Joined separator-free pieces followed by the separator split into those
      pieces, followed by the pieces of what comes after. */
  lemma {:induction false} SplitAfterJoin(xs: seq<string>, sep: char, b: string)
    requires |xs| >= 1
    requires forall i :: 0 <= i < |xs| ==> sep !in xs[i]
    ensures Split(Join(xs, [sep]) + [sep] + b, sep) == xs + Split(b, sep)
    decreases |xs|
  {
    if |xs| == 1 {
      SplitAfterPiece(xs[0], sep, b);
    } else {
      var rest := Join(xs[1..], [sep]) + [sep] + b;
      assert Join(xs, [sep]) + [sep] + b == xs[0] + [sep] + rest;
      SplitAfterJoin(xs[1..], sep, b);
      SplitAfterPiece(xs[0], sep, rest);
      assert xs == [xs[0]] + xs[1..];
    }
  }

  /** A string without the separator is a single piece. */
  lemma {:induction false} SplitWithoutSeparator(s: string, sep: char)
    requires sep !in s
    ensures Split(s, sep) == [s]
    decreases |s|
  {
    if s != [] {
      SplitWithoutSeparator(s[1..], sep);
      assert s == [s[0]] + s[1..];
    }
  }

  /** Round trip: joining separator-free pieces with the separator and splitting
      again gives back the pieces. */
  lemma {:induction false} SplitJoin(xs: seq<string>, sep: char)
    requires |xs| >= 1
    requires forall i :: 0 <= i < |xs| ==> sep !in xs[i]
    ensures Split(Join(xs, [sep]), sep) == xs
    decreases |xs|
  {
    if |xs| == 1 {
      SplitWithoutSeparator(xs[0], sep);
    } else {
      SplitJoin(xs[1..], sep);
      SplitAfterPiece(xs[0], sep, Join(xs[1..], [sep]));
      assert xs == [xs[0]] + xs[1..];
    }
  }

  /** Joining separator-free pieces puts exactly one separator between each
      neighbouring pair and nowhere else. */
  lemma {:induction false} JoinSeparatorCount(xs: seq<string>, sep: char)
    requires |xs| >= 1
    requires forall i :: 0 <= i < |xs| ==> sep !in xs[i]
    ensures multiset(Join(xs, [sep]))[sep] == |xs| - 1
    decreases |xs|
  {
    assert multiset(xs[0])[sep] == 0;
    if |xs| > 1 {
      JoinSeparatorCount(xs[1..], sep);
      assert Join(xs, [sep]) == xs[0] + [sep] + Join(xs[1..], [sep]);
    }
  }

  // ---------------------------------------------------------------------------
  // s.strip()
  // ---------------------------------------------------------------------------

  /** Python's `s.lstrip()`: `s` without its leading whitespace. */
  function StripLeading(s: string): (r: string)
    ensures |r| <= |s| && r == s[|s| - |r|..]
    ensures AllSpace(s[..|s| - |r|])
    ensures r != [] ==> !IsSpace(r[0])
    decreases |s|
  {
    if s != [] && IsSpace(s[0]) then
      var r := StripLeading(s[1..]);
      assert s[..|s| - |r|] == [s[0]] + s[1..][..|s| - 1 - |r|];
      r
    else s
  }

  /** Python's `s.rstrip()`: `s` without its trailing whitespace. */
  function StripTrailing(s: string): (r: string)
    ensures |r| <= |s| && r == s[..|r|]
    ensures AllSpace(s[|r|..])
    ensures r != [] ==> !IsSpace(r[|r| - 1])
    decreases |s|
  {
    if s != [] && IsSpace(s[|s| - 1]) then
      var r := StripTrailing(s[..|s| - 1]);
      assert s[|r|..] == s[..|s| - 1][|r|..] + [s[|s| - 1]];
      r
    else s
  }

  /** Python's `s.strip()`. */
  function Strip(s: string): string {
    StripTrailing(StripLeading(s))
  }

  /** `strip` removes a whitespace prefix and a whitespace suffix and nothing
      else, and what remains neither starts nor ends with whitespace. */
  lemma StripIsTrimmedInfix(s: string)
    ensures exists i, j :: 0 <= i <= j <= |s| && Strip(s) == s[i..j]
                           && AllSpace(s[..i]) && AllSpace(s[j..])
    ensures Strip(s) != [] ==> !IsSpace(Strip(s)[0]) && !IsSpace(Strip(s)[|Strip(s)| - 1])
  {
    StripHasNoOuterSpace(s);
    var l := StripLeading(s);
    var r := StripTrailing(l);
    var i := |s| - |l|;
    var j := i + |r|;
    assert s[i..j] == r by {
      assert s[i..] == l;
    }
    assert s[j..] == l[|r|..];
    assert 0 <= i <= j <= |s| && Strip(s) == s[i..j] && AllSpace(s[..i]) && AllSpace(s[j..]);
  }

  /** What `strip` leaves neither starts nor ends with whitespace. */
  lemma StripHasNoOuterSpace(s: string)
    ensures Strip(s) != [] ==> !IsSpace(Strip(s)[0]) && !IsSpace(Strip(s)[|Strip(s)| - 1])
  {
    var l := StripLeading(s);
    var r := StripTrailing(l);
    if r != [] {
      assert r[0] == l[0];
    }
  }

  /** Stripping twice is stripping once. */
  lemma StripIdempotent(s: string)
    ensures Strip(Strip(s)) == Strip(s)
  {
    var t := Strip(s);
    assert StripLeading(t) == t;
    assert StripTrailing(t) == t;
  }
}
