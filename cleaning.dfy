/** Token cleaning, `re.sub(r'[^\w.]', '', word)`: every character that is
    neither a word character nor a period is deleted. */
module Cleaning {

  /** The regular-expression class `\w`, restricted to ASCII: a letter, a digit
      or an underscore. */
  predicate IsWordChar(c: char) {
    'a' <= c <= 'z' || 'A' <= c <= 'Z' || '0' <= c <= '9' || c == '_'
  }

  /** The characters the substitution leaves in place, the class `[\w.]`. */
  predicate IsKept(c: char) {
    IsWordChar(c) || c == '.'
  }

  predicate AllKept(s: string) {
    forall i :: 0 <= i < |s| ==> IsKept(s[i])
  }

  /** The cleaned token. */
  function Clean(word: string): string {
    if word == [] then []
    else (if IsKept(word[0]) then [word[0]] else []) + Clean(word[1..])
  }

  /** Only characters of `[\w.]` survive cleaning. */
  lemma {:induction false} CleanKeepsOnlyKept(word: string)
    ensures AllKept(Clean(word))
    decreases |word|
  {
    if word != [] {
      CleanKeepsOnlyKept(word[1..]);
      var first := if IsKept(word[0]) then [word[0]] else [];
      var rest := Clean(word[1..]);
      assert Clean(word) == first + rest;
      forall i | 0 <= i < |first + rest|
        ensures IsKept((first + rest)[i])
      {
        if i >= |first| {
          assert (first + rest)[i] == rest[i - |first|];
        }
      }
    }
  }

  /** `a` can be obtained from `b` by deleting characters. */
  predicate IsSubsequence(a: string, b: string)
    decreases |b|
  {
    if a == [] then true
    else if b == [] then false
    else (a[0] == b[0] && IsSubsequence(a[1..], b[1..])) || IsSubsequence(a, b[1..])
  }

  /** Cleaning only deletes characters: the cleaned token is the input with
      some characters removed, the rest in their original order. */
  lemma {:induction false} CleanIsSubsequence(word: string)
    ensures IsSubsequence(Clean(word), word)
    decreases |word|
  {
    if word != [] {
      CleanIsSubsequence(word[1..]);
      if IsKept(word[0]) {
        assert Clean(word)[1..] == Clean(word[1..]);
      } else {
        assert Clean(word) == Clean(word[1..]);
      }
    }
  }

  /** Cleaning deletes exactly the characters outside `[\w.]`: every kept
      character, periods included, survives as often as it occurs, and no
      other character survives at all. */
  lemma {:induction false} CleanCounts(word: string, c: char)
    ensures multiset(Clean(word))[c] == if IsKept(c) then multiset(word)[c] else 0
    decreases |word|
  {
    if word != [] {
      CleanCounts(word[1..], c);
      assert word == [word[0]] + word[1..];
    }
  }

  /** In particular no period is ever deleted. */
  lemma CleanKeepsPeriods(word: string)
    ensures multiset(Clean(word))['.'] == multiset(word)['.']
  {
    CleanCounts(word, '.');
  }

  /** A token made only of kept characters is left unchanged. */
  lemma {:induction false} CleanOfKept(word: string)
    requires AllKept(word)
    ensures Clean(word) == word
    decreases |word|
  {
    if word != [] {
      CleanOfKept(word[1..]);
      assert word == [word[0]] + word[1..];
    }
  }

  /** Cleaning twice is cleaning once. */
  lemma CleanIdempotent(word: string)
    ensures Clean(Clean(word)) == Clean(word)
  {
    CleanKeepsOnlyKept(word);
    CleanOfKept(Clean(word));
  }

  /** Cleaning works character by character: a token can be cleaned in pieces. */
  lemma {:induction false} CleanAppend(a: string, b: string)
    ensures Clean(a + b) == Clean(a) + Clean(b)
    decreases |a|
  {
    if a == [] {
      assert a + b == b;
    } else {
      var first := if IsKept(a[0]) then [a[0]] else [];
      assert (a + b)[0] == a[0] && (a + b)[1..] == a[1..] + b;
      CleanAppend(a[1..], b);
      calc {
        Clean(a + b);
        first + Clean(a[1..] + b);
        first + (Clean(a[1..]) + Clean(b));
        (first + Clean(a[1..])) + Clean(b);
        Clean(a) + Clean(b);
      }
    }
  }
}
