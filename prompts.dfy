/** The prompt `get_abbreviation_meanings` sends for one batch. */
module Prompts {
  import opened PyStr

  /** The first line of every prompt, "Provide the full form of the
      following abbreviations:". It is written as a concatenation of words
      only because the verifier reasons about short literals much faster. */
  const Instruction: string :=
    "Provide " + "the " + "full " + "form " + "of " + "the " + "following " + "abbreviations:"

  /** The fixed opening of every prompt: the instruction and a blank line. */
  const Header: string := Instruction + "\n\n"

  /** What stands between the listing and the document context. */
  const ContextLabel: string := "\n\nContext: "

  /** The listing lines `f"{abbr}: "`, one per abbreviation of the batch. */
  function Listing(batch: seq<string>): seq<string> {
    seq(|batch|, i requires 0 <= i < |batch| => batch[i] + ": ")
  }

  /** The prompt for one batch. */
  function Prompt(batch: seq<string>, context: string): string {
    Header + Join(Listing(batch), "\n") + ContextLabel + context
  }

  lemma InstructionIsOneLine()
    ensures '\n' !in Instruction
  {
  }

  lemma ListingIsOneLinePerAbbreviation(batch: seq<string>)
    requires NoNewline(batch)
    ensures forall i :: 0 <= i < |batch| ==> '\n' !in Listing(batch)[i]
  {
    forall i | 0 <= i < |batch|
      ensures '\n' !in Listing(batch)[i]
    {
      assert '\n' !in ": ";
      assert Listing(batch)[i] == batch[i] + ": ";
    }
  }

  /** Line by line, the prompt for a non-empty batch of one-line
      abbreviations is: the instruction, a blank line, one line
      `abbr + ": "` per abbreviation in batch order, a blank line, and then
      `"Context: "` followed by the lines of the context. */
  lemma PromptLines(batch: seq<string>, context: string)
    requires |batch| > 0 && NoNewline(batch)
    ensures Split(Prompt(batch, context), '\n')
            == [Instruction, ""] + Listing(batch) + [""] + Split("Context: " + context, '\n')
  {
    var listing := Listing(batch);
    var body := Join(listing, "\n");
    var tail := "Context: " + context;
    var t3 := "" + ['\n'] + tail;
    var t2 := body + ['\n'] + t3;
    var t1 := "" + ['\n'] + t2;
    var whole := Instruction + ['\n'] + t1;
    assert Header == Instruction + ['\n'] + ['\n'];
    assert ContextLabel == ['\n'] + ['\n'] + "Context: ";
    assert whole == Prompt(batch, context);
    ListingIsOneLinePerAbbreviation(batch);
    InstructionIsOneLine();
    SplitAfterPiece("", '\n', tail);
    SplitAfterJoin(listing, '\n', t3);
    SplitAfterPiece("", '\n', t2);
    SplitAfterPiece(Instruction, '\n', t1);
  }

  /** The prompt encodes its batch and its context faithfully: two non-empty
      batches of one-line abbreviations give the same prompt only when the
      batches and the contexts are the same. */
  lemma PromptDeterminesBatch(b1: seq<string>, c1: string, b2: seq<string>, c2: string)
    requires |b1| > 0 && NoNewline(b1) && |b2| > 0 && NoNewline(b2)
    requires Prompt(b1, c1) == Prompt(b2, c2)
    ensures b1 == b2 && c1 == c2
  {
    PromptLines(b1, c1);
    PromptLines(b2, c2);
    var l1 := [Instruction, ""] + Listing(b1) + [""] + Split("Context: " + c1, '\n');
    var l2 := [Instruction, ""] + Listing(b2) + [""] + Split("Context: " + c2, '\n');
    assert l1 == l2;
    // line 2 + |b| is the first blank line after the instruction's own two
    forall i | 2 <= i < 2 + |b1|
      ensures l1[i] != ""
    {
      assert l1[i] == b1[i - 2] + ": ";
    }
    forall i | 2 <= i < 2 + |b2|
      ensures l2[i] != ""
    {
      assert l2[i] == b2[i - 2] + ": ";
    }
    assert l1[2 + |b1|] == "" && l2[2 + |b2|] == "";
    assert |b1| == |b2|;
    forall i | 0 <= i < |b1|
      ensures b1[i] == b2[i]
    {
      assert l1[2 + i] == b1[i] + ": ";
      assert l2[2 + i] == b2[i] + ": ";
      assert b1[i] == (b1[i] + ": ")[..|b1[i]|];
      assert b2[i] == (b2[i] + ": ")[..|b2[i]|];
    }
    var n := 3 + |b1|;
    assert Split("Context: " + c1, '\n') == l1[n..];
    assert Split("Context: " + c2, '\n') == l2[n..];
    JoinSplit("Context: " + c1, '\n');
    JoinSplit("Context: " + c2, '\n');
    assert ("Context: " + c1)[9..] == c1;
    assert ("Context: " + c2)[9..] == c2;
  }
}
