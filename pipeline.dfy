/** `main` without its error handling: the abbreviations and the context are
    read from the same paragraphs and handed to the resolver. */
module Pipeline {
  import opened PyStr
  import opened Classifier
  import opened Collector
  import opened Context
  import opened Batching
  import opened Prompts
  import opened Resolver

  /** The dictionary `main` returns for a document with these paragraphs;
      `order` is the order `list(abbreviations)` produced. */
  method ProcessDocument(paragraphs: seq<string>, complete: Completion)
    returns (meanings: map<string, string>, order: seq<string>)
    ensures IsEnumeration(order, DocumentAbbreviations(paragraphs))
    ensures meanings == ResolveBatches(map[], Batches(order), ContextOf(paragraphs), complete)
  {
    var abbreviations := GetAbbreviations(paragraphs);
    var context := ExtractContext(paragraphs);
    ghost var prompts;
    meanings, order, prompts := GetAbbreviationMeanings(abbreviations, context, complete);
  }

  /** Everything the resolver is asked about was accepted by the classifier,
      so each listed abbreviation is exactly one line of its prompt. */
  lemma ListedAreOneLineAbbreviations(paragraphs: seq<string>, order: seq<string>)
    requires IsEnumeration(order, DocumentAbbreviations(paragraphs))
    ensures forall x :: x in order ==> IsAbbreviation(x) && '\n' !in x
    ensures NoNewline(order)
  {
    CollectedAreAbbreviations(paragraphs);
    forall x | x in order
      ensures IsAbbreviation(x) && '\n' !in x
    {
      AcceptedHasNoNewline(x);
    }
    assert forall i :: 0 <= i < |order| ==> order[i] in order;
  }

  /** For a real document, line `2 + i` of the prompt for batch `k` is
      abbreviation `5k + i` of the list followed by `": "`. */
  lemma DocumentPromptListsBatch(paragraphs: seq<string>, order: seq<string>, k: nat, i: nat)
    requires IsEnumeration(order, DocumentAbbreviations(paragraphs))
    requires k < |Batches(order)| && i < |Batches(order)[k]|
    ensures BatchSize * k + i < |order|
    ensures var lines := Split(Prompt(Batches(order)[k], ContextOf(paragraphs)), '\n');
            2 + i < |lines| && lines[2 + i] == order[BatchSize * k + i] + ": "
  {
    ListedAreOneLineAbbreviations(paragraphs, order);
    PromptListsBatch(order, ContextOf(paragraphs), k, i);
  }
}
