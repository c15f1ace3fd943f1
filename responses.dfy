/** Parsing of the completion service's answer in `get_abbreviation_meanings`:
    the stripped response text is cut into lines, and each line that contains
    `": "` is split at its first occurrence into an abbreviation and its
    meaning, which are written into the shared `meanings` dictionary. */
module Responses {
  import opened Wrappers
  import opened PyStr

  /** The separator between an abbreviation and its meaning. */
  const Separator: string := ": "

  /** One parsed line. */
  datatype Entry = Entry(abbr: string, meaning: string)

  /** The separator starts at position `i` of `s`. */
  ghost predicate SeparatorAt(s: string, i: int) {
    0 <= i < |s| - 1 && s[i] == ':' && s[i + 1] == ' '
  }

  /** The test `": " in s`. */
  ghost predicate HasSeparator(s: string) {
    exists i :: SeparatorAt(s, i)
  }

  /** A separator lies at the front or further on. */
  lemma SeparatorFrontOrRest(s: string)
    requires s != []
    ensures HasSeparator(s) <==> SeparatorAt(s, 0) || HasSeparator(s[1..])
  {
    if HasSeparator(s) {
      var i :| SeparatorAt(s, i);
      if i > 0 {
        assert SeparatorAt(s[1..], i - 1);
      }
    }
    if HasSeparator(s[1..]) {
      var i :| SeparatorAt(s[1..], i);
      assert SeparatorAt(s, i + 1);
    }
  }

  /** The position of the first `": "` in `s`, or -1 when there is none. */
  function FindSeparator(s: string): (k: int)
    ensures k == -1 || 0 <= k < |s| - 1
    ensures k == -1 <==> !HasSeparator(s)
    ensures k >= 0 ==> SeparatorAt(s, k) && forall j :: 0 <= j < k ==> !SeparatorAt(s, j)
    decreases |s|
  {
    if |s| < 2 then
      assert !HasSeparator(s);
      -1
    else if s[0] == ':' && s[1] == ' ' then
      assert SeparatorAt(s, 0);
      0
    else
      var k := FindSeparator(s[1..]);
      SeparatorFrontOrRest(s);
      if k == -1 then -1
      else
        assert forall j :: 1 <= j <= k ==> (SeparatorAt(s, j) <==> SeparatorAt(s[1..], j - 1));
        k + 1
  }

  /** A prefix that ends before the first separator holds no separator. */
  lemma NoSeparatorBefore(s: string, k: int)
    requires 0 <= k <= |s|
    requires forall j :: 0 <= j < k ==> !SeparatorAt(s, j)
    ensures !HasSeparator(s[..k])
  {
    if HasSeparator(s[..k]) {
      var j :| SeparatorAt(s[..k], j);
      assert SeparatorAt(s, j);
    }
  }

  /** `line.split(": ", 1)` when `": " in line`, and nothing otherwise. */
  function ParseLine(line: string): (r: Option<Entry>)
    ensures r.None? <==> !HasSeparator(line)
    ensures r.Some? ==> r.value.abbr + Separator + r.value.meaning == line
    ensures r.Some? ==> !HasSeparator(r.value.abbr)
  {
    var k := FindSeparator(line);
    if k == -1 then None
    else
      NoSeparatorBefore(line, k);
      assert line == line[..k] + Separator + line[k + 2..];
      Some(Entry(line[..k], line[k + 2..]))
  }

  /** `meanings[abbr] = meaning` for a line with the separator; nothing for a
      line without it. */
  function ApplyLine(meanings: map<string, string>, line: string): map<string, string> {
    match ParseLine(line)
    case None => meanings
    case Some(e) => meanings[e.abbr := e.meaning]
  }

  /** The dictionary after processing `lines` in order. */
  function ApplyLines(meanings: map<string, string>, lines: seq<string>): map<string, string> {
    if lines == [] then meanings
    else ApplyLine(ApplyLines(meanings, lines[..|lines| - 1]), lines[|lines| - 1])
  }

  /** The lines of one completion: the stripped text split on line breaks, or
      no line at all when the response has no choices. */
  function ResponseLines(response: Option<string>): seq<string> {
    match response
    case None => []
    case Some(text) => Split(Strip(text), '\n')
  }

  /** The effect of one completion on the dictionary. */
  function ApplyResponse(meanings: map<string, string>, response: Option<string>): map<string, string> {
    ApplyLines(meanings, ResponseLines(response))
  }

  /** The inner loop over the response lines, updating the dictionary in place. */
  method AddMeanings(meanings: map<string, string>, lines: seq<string>) returns (updated: map<string, string>)
    ensures updated == ApplyLines(meanings, lines)
  {
    updated := meanings;
    for j := 0 to |lines|
      invariant updated == ApplyLines(meanings, lines[..j])
    {
      assert lines[..j + 1][..j] == lines[..j];
      var parsed := ParseLine(lines[j]);
      if parsed.Some? {
        updated := updated[parsed.value.abbr := parsed.value.meaning];
      }
    }
    assert lines[..|lines|] == lines;
  }

  // ---------------------------------------------------------------------------
  // Properties of one line
  // ---------------------------------------------------------------------------

  /** The split is the only one at a first occurrence: whenever
      `line == abbr + ": " + meaning` and `abbr` holds no `": "`, parsing gives
      exactly `abbr` and `meaning`. Together with the contract of `ParseLine`
      this pins the parse down completely. */
  lemma ParseLineUnique(line: string, abbr: string, meaning: string)
    requires line == abbr + Separator + meaning
    requires !HasSeparator(abbr)
    ensures ParseLine(line) == Some(Entry(abbr, meaning))
  {
    var n := |abbr|;
    assert SeparatorAt(line, n);
    forall j | 0 <= j < n
      ensures !SeparatorAt(line, j)
    {
      if j + 1 < n {
        assert !SeparatorAt(abbr, j);
      } else {
        assert line[j + 1] == ':';
      }
    }
    var k := FindSeparator(line);
    assert k == n;
    assert line[..n] == abbr && line[n + 2..] == meaning;
  }

  /** A line without the separator leaves the dictionary unchanged. */
  lemma LineWithoutSeparator(meanings: map<string, string>, line: string)
    requires !HasSeparator(line)
    ensures ApplyLine(meanings, line) == meanings
  {
  }

  /** A line `abbr + ": " + meaning` whose `abbr` holds no separator sets that
      one key to that meaning and changes no other key. */
  lemma LineWithSeparator(meanings: map<string, string>, line: string, abbr: string, meaning: string)
    requires line == abbr + Separator + meaning && !HasSeparator(abbr)
    ensures ApplyLine(meanings, line) == meanings[abbr := meaning]
  {
    ParseLineUnique(line, abbr, meaning);
  }

  // ---------------------------------------------------------------------------
  // Properties of a sequence of lines
  // ---------------------------------------------------------------------------

  /** The key line `line` writes, if any. */
  function KeyOf(line: string): Option<string> {
    match ParseLine(line)
    case None => None
    case Some(e) => Some(e.abbr)
  }

  /** A line adds its key, if it has one, and no other. */
  lemma ApplyLineKey(meanings: map<string, string>, line: string, k: string)
    ensures k in ApplyLine(meanings, line) <==> k in meanings || KeyOf(line) == Some(k)
  {
  }

  /** Processing two runs of lines one after the other is processing their
      concatenation: the dictionary is shared from one response to the next. */
  lemma {:induction false} ApplyLinesAppend(meanings: map<string, string>, xs: seq<string>, ys: seq<string>)
    ensures ApplyLines(meanings, xs + ys) == ApplyLines(ApplyLines(meanings, xs), ys)
    decreases |ys|
  {
    if ys == [] {
      assert xs + ys == xs;
    } else {
      var n := |ys| - 1;
      assert (xs + ys)[..|xs + ys| - 1] == xs + ys[..n];
      ApplyLinesAppend(meanings, xs, ys[..n]);
    }
  }

  /** The keys afterwards are the keys before plus the key of every line that
      has the separator. */
  lemma {:induction false} ApplyLinesKeys(meanings: map<string, string>, lines: seq<string>, k: string)
    ensures k in ApplyLines(meanings, lines)
            <==> k in meanings || exists j :: 0 <= j < |lines| && KeyOf(lines[j]) == Some(k)
    decreases |lines|
  {
    if lines != [] {
      var n := |lines| - 1;
      var init := lines[..n];
      ApplyLinesKeys(meanings, init, k);
      ApplyLineKey(ApplyLines(meanings, init), lines[n], k);
      if j :| 0 <= j < |lines| && KeyOf(lines[j]) == Some(k) {
        if j < n {
          assert init[j] == lines[j];
        }
      }
      if j :| 0 <= j < n && KeyOf(init[j]) == Some(k) {
        assert lines[j] == init[j];
      }
    }
  }


  /** The last line that writes a key decides its value: a later line with
      the same key overwrites an earlier one. */
  lemma {:induction false} ApplyLinesLastWins(meanings: map<string, string>, lines: seq<string>, j: int, e: Entry)
    requires 0 <= j < |lines| && ParseLine(lines[j]) == Some(e)
    requires forall j' :: j < j' < |lines| ==> KeyOf(lines[j']) != Some(e.abbr)
    ensures e.abbr in ApplyLines(meanings, lines)
    ensures ApplyLines(meanings, lines)[e.abbr] == e.meaning
    decreases |lines|
  {
    var n := |lines| - 1;
    var init := lines[..n];
    if j < n {
      assert init[j] == lines[j];
      ApplyLinesLastWins(meanings, init, j, e);
      assert KeyOf(lines[n]) != Some(e.abbr);
    }
  }

  /** A key that no line writes keeps its value, or stays absent. */
  lemma {:induction false} ApplyLinesUntouched(meanings: map<string, string>, lines: seq<string>, k: string)
    requires forall j :: 0 <= j < |lines| ==> KeyOf(lines[j]) != Some(k)
    ensures k in ApplyLines(meanings, lines) <==> k in meanings
    ensures k in meanings ==> ApplyLines(meanings, lines)[k] == meanings[k]
    decreases |lines|
  {
    if lines != [] {
      var n := |lines| - 1;
      var init := lines[..n];
      assert forall j :: 0 <= j < n ==> init[j] == lines[j];
      ApplyLinesUntouched(meanings, init, k);
      assert KeyOf(lines[n]) != Some(k);
    }
  }

  /** A response with no choices adds nothing. */
  lemma NoChoicesAddNothing(meanings: map<string, string>)
    ensures ApplyResponse(meanings, None) == meanings
  {
  }
}
