/** Worked cases of the pipeline on concrete text. */
module Examples {
  import opened Wrappers
  import opened PyStr
  import opened Classifier
  import opened Cleaning
  import opened Batching
  import opened Responses

  /** Plain capitals and dotted groups are accepted, including one letter with
      or without its period. */
  lemma AcceptedWords()
    ensures IsAbbreviation("NASA") && IsAbbreviation("A")
    ensures IsAbbreviation("U.S.") && IsAbbreviation("A.")
  {
    assert CapitalRun("U.S.") == 1;
    assert CapitalRun("S.") == 1;
    assert CapitalRun("A.") == 1;
  }

  /** A word ending in capitals after a period, a word with a lower-case
      letter, and the empty word are rejected. */
  lemma RejectedWords()
    ensures !IsAbbreviation("U.S.A") && !IsAbbreviation("Mr.")
    ensures !IsAbbreviation("nasa") && !IsAbbreviation("")
  {
    assert CapitalRun("U.S.A") == 1;
    assert CapitalRun("S.A") == 1;
    assert CapitalRun("A") == 1;
    assert "U.S.A"[4] == 'A';
    assert "Mr."[1] == 'r';
    assert CapitalRun("Mr.") == 1;
    assert CapitalRun("nasa") == 0;
  }

  /** Punctuation around a token is removed, its periods are kept. */
  lemma CleanedTokens()
    ensures Clean("(UN),") == "UN"
    ensures Clean("U.S.;") == "U.S."
  {
    assert Clean("N),") == "N";
    assert Clean(";") == "";
  }

  /** Seven abbreviations make two requests, of five and of two. */
  lemma SevenMakeTwoBatches(xs: seq<string>)
    requires |xs| == 7
    ensures |Batches(xs)| == 2
    ensures Batches(xs)[0] == xs[..5] && Batches(xs)[1] == xs[5..]
  {
  }

  /** An answer line is cut at its first `": "`. */
  lemma ParsedLine()
    ensures ParseLine("UN: a: b") == Some(Entry("UN", "a: b"))
  {
    assert "UN: a: b" == "UN" + Separator + "a: b";
    assert !SeparatorAt("UN", 0);
    ParseLineUnique("UN: a: b", "UN", "a: b");
  }

  /** A line without `": "` is skipped. */
  lemma SkippedLine()
    ensures ParseLine("UN-a") == None
  {
    assert FindSeparator("-a") == -1;
  }
}
