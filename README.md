# Abbreviation extractor — a Dafny model

This project models the text pipeline of `src/scripts/extractor.py`. The script takes the paragraphs of a Word document and does three things:

- It collects every whitespace-separated token that, after cleaning, looks like an abbreviation. Cleaning deletes every character outside `[\w.]`. A token looks like an abbreviation when it is a full match of `([A-Z]+\.)+|[A-Z]+`.
- It joins the paragraphs with line breaks into a context string.
- It asks a chat-completion service for the meanings of the abbreviations, five at a time. Each line of each answer that contains `": "` is split at its first `": "`. The two halves go into one dictionary shared by all requests.

The modules follow the script:

- `Classifier` models `is_abbreviation`.
- `Cleaning` models the substitution `re.sub(r'[^\w.]', '', word)`.
- `Collector` models `get_abbreviations_from_docx`.
- `Context` models `extract_context_from_docx`.
- `Batching`, `Prompts`, `Responses` and `Resolver` together model `get_abbreviation_meanings`.
- `Pipeline` models the body of `main`.
- `PyStr` holds the Python string operations the script relies on: `str.split()`, `str.split(sep)`, `sep.join(...)` and `str.strip()`.
- `Examples` works through concrete cases.

The impure parts are modelled as follows:

- The completion service is a parameter `complete: string -> Option<string>`. It returns the text of the first choice, or `None` when the response has no choices.
- `list(abbreviations)` is a method that lists the set in an order the model leaves open. The resolver also returns that order, which its dictionary depends on, and reports the prompts it sent as a ghost result.
- The loops of the script are loops of the model. The paragraph and token loops are in `Collector.GetAbbreviations`, the paragraph loop in `Context.ExtractContext`, the batch loop in `Resolver.GetAbbreviationMeanings` and the answer-line loop in `Responses.AddMeanings`. Each is proved equal to a recursive specification function, and the properties are proved about those functions.

Three behaviours of the code are easy to get wrong, and the model keeps them as written:

- **The classifier.** It has no length check and no single-initial exclusion. `A` and `A.` are accepted, and `U.S.A` is rejected (line 18). See `Examples.AcceptedWords`, `Examples.RejectedWords` and `Classifier.TrailingCapitalsRejected`.
- **Batching.** The batch size is fixed at five (lines 35-39). Every request repeats the fixed instruction of line 40 and the whole context.
- **Whitespace.** Only the whole answer is stripped (line 55). Keys and meanings are stored untrimmed, as `line.split(": ", 1)` yields them (lines 58-59).

## Model

| member | source | states |
|---|---|---|
| Classifier.IsAbbreviation | src/scripts/extractor.py:17-18 | `is_abbreviation`: the dotted alternative or a run of capitals. Its language is fixed by `IsAbbreviationMatchesPattern` and `DottedGroupsAreWellDotted` |
| Classifier.IsAbbreviationMatchesPattern | src/scripts/extractor.py:17-18 | the classifier accepts a word exactly when it is a run of capitals or one or more groups of capitals each followed by a period, the language of `([A-Z]+\.)+\|[A-Z]+`, in both directions |
| Classifier.IsDottedGroups | src/scripts/extractor.py:18 | the `([A-Z]+\.)+` alternative, read as the matcher reads it. `DottedGroupsWitness` and `DottedGroupsComplete` tie it to concatenations of capital groups, and `DottedGroupsAreWellDotted` to a character-level description |
| Classifier.DottedGroupsWitness | src/scripts/extractor.py:18 | when the dotted alternative matches, the word is the concatenation of non-empty capital groups, each followed by a period |
| Classifier.DottedGroupsComplete | src/scripts/extractor.py:18 | every concatenation of non-empty capital groups, each followed by a period, is matched by the dotted alternative |
| Classifier.DottedGroupsAreWellDotted | src/scripts/extractor.py:18 | the dotted alternative matches exactly the words of capitals and periods that start with a capital, end with a period and never hold two periods side by side |
| Classifier.AcceptedAlphabet | src/scripts/extractor.py:17-18 | an accepted word is non-empty and made only of capitals and periods |
| Classifier.AcceptedHasNoNewline | src/scripts/extractor.py:17-18 | an accepted word holds no line break |
| Classifier.TrailingCapitalsRejected | src/scripts/extractor.py:18 | a word that holds a period but does not end with one, such as `U.S.A`, is rejected |
| Classifier.CapitalRun | src/scripts/extractor.py:18 | the length of the leading run of capitals: everything before it is a capital, and the character after it is not |
| Cleaning.Clean | src/scripts/extractor.py:27 | the substitution `re.sub(r'[^\w.]', '', word)`. What it keeps and deletes is stated by `CleanKeepsOnlyKept`, `CleanIsSubsequence` and `CleanCounts` |
| Cleaning.CleanKeepsOnlyKept | src/scripts/extractor.py:27 | only word characters and periods survive cleaning |
| Cleaning.CleanIsSubsequence | src/scripts/extractor.py:27 | the cleaned token is the input with characters deleted and the rest in their original order |
| Cleaning.CleanCounts | src/scripts/extractor.py:27 | each kept character survives as often as it occurs, and every other character is gone |
| Cleaning.CleanKeepsPeriods | src/scripts/extractor.py:27 | no period is deleted |
| Cleaning.CleanOfKept | src/scripts/extractor.py:27 | a token made only of kept characters is unchanged |
| Cleaning.CleanIdempotent | src/scripts/extractor.py:27 | cleaning twice is cleaning once |
| Cleaning.CleanAppend | src/scripts/extractor.py:27 | cleaning works character by character: the cleaning of a concatenation is the concatenation of the cleanings |
| PyStr.IsSpace | src/scripts/extractor.py:25 | the whitespace of `str.split()` and `str.strip()` (lines 25 and 55): the 29 code points `str.isspace()` accepts |
| PyStr.Words | src/scripts/extractor.py:25 | `str.split()` with no argument. Its tokens are characterised by `WordsAreTokens`, `WordsKeepAllText`, `WordsAroundSpace` and `WordsOfJoin` |
| PyStr.Join | src/scripts/extractor.py:68 | `sep.join(xs)`, also used for the listing at line 41. Its splitting and counting properties are `JoinSplit`, `SplitJoin` and `JoinSeparatorCount` |
| PyStr.RunLength | src/scripts/extractor.py:25 | the length of the leading run of non-whitespace, ending at the end of the text or at a whitespace character |
| PyStr.WordsAreTokens | src/scripts/extractor.py:25 | every token of `str.split()` is non-empty and holds no whitespace |
| PyStr.WordsKeepAllText | src/scripts/extractor.py:25 | the tokens, concatenated, are the text with its whitespace deleted |
| PyStr.WordsOfBlank | src/scripts/extractor.py:25 | blank text has no tokens |
| PyStr.WordsAroundSpace | src/scripts/extractor.py:25 | a whitespace character separates the tokens before it from those after it |
| PyStr.WordsOfJoin | src/scripts/extractor.py:25 | joining tokens with single spaces and splitting again gives back the tokens |
| PyStr.Split | src/scripts/extractor.py:56 | `s.split(sep)` yields at least one piece |
| PyStr.SplitPiecesLackSeparator | src/scripts/extractor.py:56 | no piece of `s.split(sep)` holds the separator |
| PyStr.SplitCount | src/scripts/extractor.py:56 | there is one more piece than there are separators |
| PyStr.JoinSplit | src/scripts/extractor.py:56 | joining the pieces with the separator gives back the text |
| PyStr.SplitJoin | src/scripts/extractor.py:68 | splitting separator-free pieces that were joined with the separator gives back the pieces |
| PyStr.SplitAfterPiece | src/scripts/extractor.py:56 | a separator-free prefix followed by the separator becomes a piece of its own |
| PyStr.SplitAfterJoin | src/scripts/extractor.py:41-42 | joined separator-free pieces, followed by the separator and more text, split into those pieces followed by the pieces of the rest |
| PyStr.SplitWithoutSeparator | src/scripts/extractor.py:56 | text without the separator is one piece |
| PyStr.JoinSeparatorCount | src/scripts/extractor.py:68 | joining k separator-free pieces adds exactly k - 1 separators |
| PyStr.Strip | src/scripts/extractor.py:55 | `str.strip()`, the composition of the two one-sided strips. Characterised by `StripIsTrimmedInfix` and `StripIdempotent` |
| PyStr.StripLeading | src/scripts/extractor.py:55 | the result is a suffix of the input after a whitespace-only prefix, and does not start with whitespace |
| PyStr.StripTrailing | src/scripts/extractor.py:55 | the result is a prefix of the input before a whitespace-only suffix, and does not end with whitespace |
| PyStr.StripIsTrimmedInfix | src/scripts/extractor.py:55 | `strip()` removes a whitespace prefix and a whitespace suffix and nothing else, and leaves no whitespace at either end |
| PyStr.StripHasNoOuterSpace | src/scripts/extractor.py:55 | what `strip()` leaves neither starts nor ends with whitespace |
| PyStr.StripIdempotent | src/scripts/extractor.py:55 | stripping twice is stripping once |
| Collector.DocumentAbbreviations | src/scripts/extractor.py:20-31 | the set the collector builds, paragraph by paragraph. Characterised by `DocumentAbbreviationsExactly` |
| Collector.GetAbbreviations | src/scripts/extractor.py:20-31 | the nested paragraph and token loops build exactly the set `DocumentAbbreviations(paragraphs)` |
| Collector.TokenAbbreviations | src/scripts/extractor.py:26-29 | the set the token loop adds for one paragraph. Characterised by `TokenAbbreviationsExactly` |
| Collector.TokenAbbreviationsExactly | src/scripts/extractor.py:26-29 | a string is collected from a token list exactly when it is accepted and is the cleaning of one of the tokens |
| Collector.CollectedFrom | src/scripts/extractor.py:24-29 | every collected string is the cleaning of some token of some paragraph |
| Collector.CollectedAll | src/scripts/extractor.py:24-29 | every accepted cleaning of any token of any paragraph is collected |
| Collector.DocumentAbbreviationsExactly | src/scripts/extractor.py:20-31 | the set holds exactly the accepted cleanings of the document's tokens, in both directions |
| Collector.CollectedAreAbbreviations | src/scripts/extractor.py:28-29 | every element of the set is accepted by the classifier |
| Collector.BlankParagraphAddsNothing | src/scripts/extractor.py:24-25 | an empty or whitespace-only paragraph adds nothing |
| Collector.DocumentAbbreviationsAppend | src/scripts/extractor.py:24-29 | the set of a document is the union of the sets of its parts |
| Collector.BlankParagraphAnywhere | src/scripts/extractor.py:24-25 | a blank paragraph adds nothing wherever it stands |
| Collector.SameParagraphsSameSet | src/scripts/extractor.py:20-31 | the set depends only on which paragraphs occur, not on their order or repetition |
| Context.ContextOf | src/scripts/extractor.py:68 | `'\n'.join(full_text)`. Its round trip is `ContextRoundTrip` |
| Context.ExtractContext | src/scripts/extractor.py:63-68 | the append loop followed by `'\n'.join` yields `ContextOf(paragraphs)`, the paragraphs joined by line breaks |
| Context.ContextRoundTrip | src/scripts/extractor.py:63-68 | for k >= 1 paragraphs without line breaks, the context holds exactly k - 1 line breaks, and splitting it on them gives back the paragraphs |
| Batching.Batches | src/scripts/extractor.py:38-39 | the slices taken by the batch loop. Characterised by `BatchesFlatten`, `BatchesShape`, `BatchesCount` and `BatchAt` |
| Batching.BatchesFlatten | src/scripts/extractor.py:38-39 | concatenating the batches gives back the list |
| Batching.BatchesShape | src/scripts/extractor.py:35-39 | every batch holds between 1 and 5 abbreviations, and all but the last hold exactly 5 |
| Batching.BatchesCount | src/scripts/extractor.py:38 | there are ceil(n / 5) batches |
| Batching.BatchAt | src/scripts/extractor.py:38-39 | batch k is the slice `[5k : 5k + 5]`, clipped at the end of the list as Python clips slices |
| Batching.BatchIndexBound | src/scripts/extractor.py:38 | batch k exists exactly when the loop offset 5k is inside the list |
| Prompts.Prompt | src/scripts/extractor.py:40-42 | the prompt for one batch. Its line structure is `PromptLines`, its injectivity `PromptDeterminesBatch` |
| Prompts.InstructionIsOneLine | src/scripts/extractor.py:40 | the instruction holds no line break |
| Prompts.ListingIsOneLinePerAbbreviation | src/scripts/extractor.py:41 | a listing line holds no line break when its abbreviation holds none |
| Prompts.PromptLines | src/scripts/extractor.py:40-42 | the prompt's lines are the instruction, a blank line, the listing lines, a blank line, and `"Context: "` followed by the lines of the context |
| Prompts.PromptDeterminesBatch | src/scripts/extractor.py:40-42 | two prompts are equal only when their batches and contexts are equal |
| Responses.FindSeparator | src/scripts/extractor.py:57-58 | the position of the first `": "`, or -1 exactly when the line has none |
| Responses.ParseLine | src/scripts/extractor.py:57-58 | `None` exactly when the line holds no `": "`. Otherwise `abbr + ": " + meaning` is the line and `abbr` holds no `": "`, so the cut is at the first occurrence |
| Responses.ParseLineUnique | src/scripts/extractor.py:58 | any decomposition `abbr + ": " + meaning` with no `": "` in `abbr` is the one found |
| Responses.LineWithoutSeparator | src/scripts/extractor.py:57 | a line without `": "` leaves the dictionary unchanged |
| Responses.LineWithSeparator | src/scripts/extractor.py:57-59 | a line `abbr + ": " + meaning` sets that one key to that meaning |
| Responses.ApplyLineKey | src/scripts/extractor.py:57-59 | a line adds its own key, if it has one, and no other |
| Responses.ApplyLine | src/scripts/extractor.py:57-59 | the effect of one answer line. Stated by `LineWithoutSeparator`, `LineWithSeparator` and `ApplyLineKey` |
| Responses.ApplyLines | src/scripts/extractor.py:56-59 | the dictionary after the answer lines in order. Stated by `ApplyLinesKeys`, `ApplyLinesLastWins`, `ApplyLinesUntouched` and `ApplyLinesAppend` |
| Responses.ResponseLines | src/scripts/extractor.py:54-56 | no line when there are no choices, otherwise the stripped text split on line breaks |
| Responses.ApplyResponse | src/scripts/extractor.py:54-59 | the effect of one completion on the dictionary. `NoChoicesAddNothing` covers the empty response |
| Responses.AddMeanings | src/scripts/extractor.py:56-59 | the loop over the answer lines yields `ApplyLines(meanings, lines)` |
| Responses.ApplyLinesAppend | src/scripts/extractor.py:56-59 | reading two blocks of lines one after the other is reading their concatenation |
| Responses.ApplyLinesKeys | src/scripts/extractor.py:56-59 | a key is in the result exactly when it was there before or some line writes it |
| Responses.ApplyLinesLastWins | src/scripts/extractor.py:59 | a key's value is the meaning on the last line that writes it |
| Responses.ApplyLinesUntouched | src/scripts/extractor.py:56-59 | a key no line writes keeps its value, or stays absent |
| Responses.NoChoicesAddNothing | src/scripts/extractor.py:54 | a response without choices adds nothing |
| Resolver.EnumerationLength | src/scripts/extractor.py:37 | a duplicate-free listing of a set has the set's size |
| Resolver.ListOf | src/scripts/extractor.py:37 | `list(abbreviations)` lists every element of the set exactly once |
| Resolver.PromptsFor | src/scripts/extractor.py:38-42 | one prompt per batch |
| Resolver.PromptsForAt | src/scripts/extractor.py:39-42 | prompt k is the prompt for batch k |
| Resolver.ResolveBatches | src/scripts/extractor.py:38-59 | the dictionary after the answers to all batches, in batch order. Stated by `ResolveIsOneLineFold`, `MeaningsKeys` and `MeaningsLastLineWins` |
| Resolver.ResolveBatch | src/scripts/extractor.py:39-59 | one iteration builds exactly the prompt for the batch, and reads the service's answer to that prompt into the dictionary |
| Resolver.GetAbbreviationMeanings | src/scripts/extractor.py:33-61 | the order is a listing of the set. One prompt is sent per batch of five of that order, ceil(n / 5) in all, in order. The dictionary is the answers read batch after batch into one shared dictionary |
| Resolver.NoAbbreviationsNoCalls | src/scripts/extractor.py:37-38 | with no abbreviations there are no batches, and the dictionary stays empty |
| Resolver.ResolveIsOneLineFold | src/scripts/extractor.py:34-59 | resolving batch after batch equals reading all answer lines, in order, into one dictionary |
| Resolver.MeaningsKeys | src/scripts/extractor.py:54-61 | the keys of the result are exactly the keys written by some answer line |
| Resolver.MeaningsLastLineWins | src/scripts/extractor.py:59 | a key's value is the meaning on the last answer line, over all batches, that writes it |
| Resolver.PromptListsBatch | src/scripts/extractor.py:38-42 | line 2 + i of the prompt for batch k is abbreviation 5k + i of the list, followed by `": "` |
| Pipeline.ProcessDocument | src/scripts/extractor.py:70-75 | the dictionary `main` returns is the resolver's result for the collected set and the joined context |
| Pipeline.ListedAreOneLineAbbreviations | src/scripts/extractor.py:72-74 | everything sent to the service was accepted by the classifier and holds no line break |
| Pipeline.DocumentPromptListsBatch | src/scripts/extractor.py:72-74 | for a real document, each listed abbreviation takes exactly one line of its prompt, in list order |
| Examples.AcceptedWords | src/scripts/extractor.py:18 | `NASA`, `A`, `U.S.` and `A.` are accepted |
| Examples.RejectedWords | src/scripts/extractor.py:18 | `U.S.A`, `Mr.`, `nasa` and the empty word are rejected |
| Examples.CleanedTokens | src/scripts/extractor.py:27 | `(UN),` cleans to `UN`, and `U.S.;` to `U.S.` |
| Examples.SevenMakeTwoBatches | src/scripts/extractor.py:38-39 | seven abbreviations make a batch of five and a batch of two |
| Examples.ParsedLine | src/scripts/extractor.py:58 | `UN: a: b` is cut into `UN` and `a: b` |
| Examples.SkippedLine | src/scripts/extractor.py:57 | `UN-a` is skipped |

## Left out

- Lines 10-14 are left out: reading the API key from the environment, the error raised when it is missing, and creating the client.
- Lines 44-52, the network call, are left out. The model, temperature and token limit it passes are left out with it. The call becomes the `complete` parameter, a function, so the model assumes the same prompt always receives the same answer. The other fields of the response are left out.
- Exceptions raised by the service, or by parsing the document, are left out.
- A choice whose `message.content` is `None` is left out. In the script, `.strip()` on it raises `AttributeError` (line 55), and `main` then exits with status 1 (lines 76-78). In the model, `complete` always yields text when a choice exists, so this failure cannot occur.
- The docx parsing of lines 21, 24 and 64-66 (`Document(file_path)`, `doc.paragraphs`, `para.text`) is left out. The document is given as the sequence of its paragraphs' texts. The script parses the file twice (lines 21 and 64), and the model assumes both parses give the same paragraphs.
- Lines 70-87 are modelled only as far as the body of `main` (lines 72-75), in `Pipeline.ProcessDocument`. The `try`/`except` handler, `sys.exit`, the argument check and `json.dumps` to standard output are left out.
- A Python `dict` keeps insertion order, and `json.dumps` prints the keys in that order. The model's `map` has no order, so the order of the printed dictionary is not modelled.
- `list(abbreviations)` follows a set iteration order that depends on string hashing. The model leaves that order open: `Resolver.ListOf` picks elements in an unspecified order, and the results are stated for whichever order it produced.
- Cleaning.Clean deletes characters Python would keep. Python's `\w` on `str` also matches non-ASCII letters and digits, but the model's `\w` (`Cleaning.IsWordChar`) keeps only ASCII letters, digits and `_`.
- PyStr.IsSpace lists the characters `str.isspace()` accepts in current Unicode versions. Later changes to the Unicode database are not followed.
- PyStr.Split models `str.split(sep)` only for a one-character separator, which is how line 56 uses it. The two-character `line.split(": ", 1)` of line 58 is modelled by `Responses.ParseLine`.
- `src/pages/api/upload.ts`, the pages, the navigation bar, `download_nltk_data.py` and the `docx` type declarations are not part of this model.
