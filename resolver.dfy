/** The meaning resolver `get_abbreviation_meanings`: the abbreviations are
    listed, cut into batches of five, one prompt per batch is sent to the
    completion service, and the lines of every answer are parsed into one
    dictionary shared by all batches. */
module Resolver {
  import opened Wrappers
  import opened PyStr
  import opened Batching
  import opened Prompts
  import opened Responses

  /** The completion service as the resolver uses it: a prompt goes in, and
      the text of the first choice comes out, or `None` when the response
      has no choices. */
  type Completion = string -> Option<string>

  predicate Distinct(xs: seq<string>) {
    forall i, j :: 0 <= i < j < |xs| ==> xs[i] != xs[j]
  }

  /** `xs` lists every element of `s` exactly once, in some order. */
  ghost predicate IsEnumeration(xs: seq<string>, s: set<string>) {
    Distinct(xs) && forall x :: x in xs <==> x in s
  }

  lemma {:induction false} EnumerationLength(xs: seq<string>, s: set<string>)
    requires IsEnumeration(xs, s)
    ensures |xs| == |s|
    decreases |xs|
  {
    if xs != [] {
      var last := xs[|xs| - 1];
      var init := xs[..|xs| - 1];
      assert last !in init;
      assert forall x :: x in init <==> x in s - {last};
      EnumerationLength(init, s - {last});
    }
  }

  /** `list(abbreviations)`: the elements of the set in an order the set
      does not fix. */
  method ListOf(s: set<string>) returns (xs: seq<string>)
    ensures IsEnumeration(xs, s)
    ensures |xs| == |s|
  {
    xs := [];
    var rest := s;
    while rest != {}
      invariant Distinct(xs)
      invariant forall x :: x in xs ==> x !in rest
      invariant forall x :: x in xs || x in rest <==> x in s
      decreases rest
    {
      var x :| x in rest;
      xs := xs + [x];
      rest := rest - {x};
    }
    EnumerationLength(xs, s);
  }

  /** The dictionary after the answers to the prompts for `batches` have been
      parsed in batch order. */
  function ResolveBatches(meanings: map<string, string>, batches: seq<seq<string>>,
                          context: string, complete: Completion): map<string, string>
  {
    if batches == [] then meanings
    else
      var n := |batches| - 1;
      ApplyResponse(ResolveBatches(meanings, batches[..n], context, complete),
                    complete(Prompt(batches[n], context)))
  }

  /** The prompts sent for `batches`, in order. */
  function PromptsFor(batches: seq<seq<string>>, context: string): (prompts: seq<string>)
    ensures |prompts| == |batches|
  {
    if batches == [] then []
    else
      var n := |batches| - 1;
      PromptsFor(batches[..n], context) + [Prompt(batches[n], context)]
  }

  /** Prompt `k` is the prompt for batch `k`. */
  lemma {:induction false} PromptsForAt(batches: seq<seq<string>>, context: string, k: nat)
    requires k < |batches|
    ensures PromptsFor(batches, context)[k] == Prompt(batches[k], context)
    decreases |batches|
  {
    var n := |batches| - 1;
    if k < n {
      PromptsForAt(batches[..n], context, k);
    }
  }

  /** Every line of every answer, in the order the resolver reads them. */
  function AllResponseLines(batches: seq<seq<string>>, context: string, complete: Completion): seq<string> {
    if batches == [] then []
    else
      var n := |batches| - 1;
      AllResponseLines(batches[..n], context, complete)
        + ResponseLines(complete(Prompt(batches[n], context)))
  }

  /** One iteration of the batch loop: build the prompt, call the service,
      and read the lines of its answer into the dictionary. */
  method ResolveBatch(meanings: map<string, string>, batch: seq<string>, context: string, complete: Completion)
    returns (updated: map<string, string>, prompt: string)
    ensures prompt == Prompt(batch, context)
    ensures updated == ApplyResponse(meanings, complete(prompt))
  {
    prompt := Header;
    prompt := prompt + Join(Listing(batch), "\n");
    prompt := prompt + ContextLabel + context;
    var response := complete(prompt);
    updated := meanings;
    if response.Some? {
      var responseText := Strip(response.value);
      updated := AddMeanings(updated, Split(responseText, '\n'));
    }
  }

  /** `get_abbreviation_meanings`. Besides the dictionary it yields the order
      `list(abbreviations)` produced, which the result depends on, and, as a
      ghost result, the prompts sent to the service, one per batch. */
  method GetAbbreviationMeanings(abbreviations: set<string>, context: string, complete: Completion)
    returns (meanings: map<string, string>, order: seq<string>, ghost prompts: seq<string>)
    ensures IsEnumeration(order, abbreviations)
    ensures |prompts| == |Batches(order)| == (|abbreviations| + BatchSize - 1) / BatchSize
    ensures prompts == PromptsFor(Batches(order), context)
    ensures meanings == ResolveBatches(map[], Batches(order), context, complete)
  {
    var abbreviationList := ListOf(abbreviations);
    order := abbreviationList;
    ghost var batches := Batches(abbreviationList);
    meanings := map[];
    prompts := [];
    var i := 0;
    ghost var k := 0;
    while i < |abbreviationList|
      invariant 0 <= k <= |batches| && i == BatchSize * k
      invariant prompts == PromptsFor(batches[..k], context)
      invariant meanings == ResolveBatches(map[], batches[..k], context, complete)
    {
      BatchIndexBound(abbreviationList, k);
      var hi := if i + BatchSize <= |abbreviationList| then i + BatchSize else |abbreviationList|;
      var batch := abbreviationList[i..hi];
      BatchAt(abbreviationList, k);
      var prompt;
      meanings, prompt := ResolveBatch(meanings, batch, context, complete);
      prompts := prompts + [prompt];
      NextBatch(batches, k, context, complete);
      i, k := i + BatchSize, k + 1;
    }
    BatchIndexBound(abbreviationList, k);
    assert batches[..k] == batches;
    assert |batches| == (|abbreviations| + BatchSize - 1) / BatchSize by {
      BatchesCount(abbreviationList);
    }
  }

  /** Going from `k` batches done to `k + 1`. */
  lemma NextBatch(batches: seq<seq<string>>, k: nat, context: string, complete: Completion)
    requires k < |batches|
    ensures PromptsFor(batches[..k + 1], context) == PromptsFor(batches[..k], context) + [Prompt(batches[k], context)]
    ensures ResolveBatches(map[], batches[..k + 1], context, complete)
            == ApplyResponse(ResolveBatches(map[], batches[..k], context, complete), complete(Prompt(batches[k], context)))
  {
    assert batches[..k + 1][..k] == batches[..k];
  }

  // ---------------------------------------------------------------------------
  // Properties
  // ---------------------------------------------------------------------------

  /** With no abbreviation, no prompt is sent and the dictionary is empty. */
  lemma NoAbbreviationsNoCalls(order: seq<string>, context: string, complete: Completion)
    requires IsEnumeration(order, {})
    ensures Batches(order) == []
    ensures ResolveBatches(map[], Batches(order), context, complete) == map[]
  {
    EnumerationLength(order, {});
  }

  /** The dictionary is shared across batches: resolving batch after batch is
      the same as reading all answer lines, in order, into one dictionary. */
  lemma {:induction false} ResolveIsOneLineFold(meanings: map<string, string>, batches: seq<seq<string>>,
                                                 context: string, complete: Completion)
    ensures ResolveBatches(meanings, batches, context, complete)
            == ApplyLines(meanings, AllResponseLines(batches, context, complete))
    decreases |batches|
  {
    if batches != [] {
      var n := |batches| - 1;
      ResolveIsOneLineFold(meanings, batches[..n], context, complete);
      ApplyLinesAppend(meanings, AllResponseLines(batches[..n], context, complete),
                       ResponseLines(complete(Prompt(batches[n], context))));
    }
  }

  /** The keys of the result are exactly the keys written by some answer line. */
  lemma MeaningsKeys(order: seq<string>, context: string, complete: Completion, k: string)
    ensures var lines := AllResponseLines(Batches(order), context, complete);
            k in ResolveBatches(map[], Batches(order), context, complete)
            <==> exists j :: 0 <= j < |lines| && KeyOf(lines[j]) == Some(k)
  {
    ResolveIsOneLineFold(map[], Batches(order), context, complete);
    ApplyLinesKeys(map[], AllResponseLines(Batches(order), context, complete), k);
  }

  /** The value of a key is the meaning on the last answer line, over all
      batches, that writes that key: a later line or batch overwrites an
      earlier one. */
  lemma MeaningsLastLineWins(order: seq<string>, context: string, complete: Completion, j: int, e: Entry)
    requires var lines := AllResponseLines(Batches(order), context, complete);
             0 <= j < |lines| && ParseLine(lines[j]) == Some(e)
             && forall j' :: j < j' < |lines| ==> KeyOf(lines[j']) != Some(e.abbr)
    ensures e.abbr in ResolveBatches(map[], Batches(order), context, complete)
    ensures ResolveBatches(map[], Batches(order), context, complete)[e.abbr] == e.meaning
  {
    ResolveIsOneLineFold(map[], Batches(order), context, complete);
    ApplyLinesLastWins(map[], AllResponseLines(Batches(order), context, complete), j, e);
  }

  /** The prompt for batch `k` lists, on its lines 2, 3, ..., the abbreviations
      `order[5k], order[5k + 1], ...` in list order, each followed by `": "`. */
  lemma PromptListsBatch(order: seq<string>, context: string, k: nat, i: nat)
    requires NoNewline(order)
    requires k < |Batches(order)| && i < |Batches(order)[k]|
    ensures BatchSize * k + i < |order|
    ensures 2 + i < |Split(Prompt(Batches(order)[k], context), '\n')|
    ensures Split(Prompt(Batches(order)[k], context), '\n')[2 + i] == order[BatchSize * k + i] + ": "
  {
    var batch := Batches(order)[k];
    BatchAt(order, k);
    assert forall j :: 0 <= j < |batch| ==> batch[j] == order[BatchSize * k + j];
    PromptLines(batch, context);
  }
}
