/** The context builder `extract_context_from_docx`, with the document reduced
    to the text of its paragraphs: the paragraphs are collected in order and
    joined with line breaks. */
module Context {
  import opened PyStr

  /** `'\n'.join(paragraphs)`: the document context. */
  function ContextOf(paragraphs: seq<string>): string {
    Join(paragraphs, "\n")
  }

  /** `extract_context_from_docx`: append the text of each paragraph to
      `fullText`, then join. */
  method ExtractContext(paragraphs: seq<string>) returns (context: string)
    ensures context == ContextOf(paragraphs)
  {
    var fullText: seq<string> := [];
    for p := 0 to |paragraphs|
      invariant fullText == paragraphs[..p]
    {
      fullText := fullText + [paragraphs[p]];
    }
    assert fullText == paragraphs;
    context := Join(fullText, "\n");
  }


  /** With k >= 1 paragraphs that hold no line break, the context holds
      exactly k - 1 line breaks, and splitting it on line breaks gives back
      the paragraphs in document order. */
  lemma ContextRoundTrip(paragraphs: seq<string>)
    requires |paragraphs| >= 1 && NoNewline(paragraphs)
    ensures multiset(ContextOf(paragraphs))['\n'] == |paragraphs| - 1
    ensures Split(ContextOf(paragraphs), '\n') == paragraphs
  {
    JoinSeparatorCount(paragraphs, '\n');
    SplitJoin(paragraphs, '\n');
  }
}
