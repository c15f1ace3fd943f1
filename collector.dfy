/** The collector `get_abbreviations_from_docx`, with the document reduced to
    the text of its paragraphs: every whitespace-separated token of every
    paragraph is cleaned and classified, and the accepted ones are gathered
    into a set. */
module Collector {
  import opened PyStr
  import opened Classifier
  import opened Cleaning

  /** The accepted cleaned forms of a list of tokens. */
  function TokenAbbreviations(words: seq<string>): set<string> {
    if words == [] then {}
    else
      var cleaned := Clean(words[|words| - 1]);
      TokenAbbreviations(words[..|words| - 1]) + (if IsAbbreviation(cleaned) then {cleaned} else {})
  }

  /** The set the collector builds, paragraph by paragraph. */
  function DocumentAbbreviations(paragraphs: seq<string>): set<string> {
    if paragraphs == [] then {}
    else DocumentAbbreviations(paragraphs[..|paragraphs| - 1]) + TokenAbbreviations(Words(paragraphs[|paragraphs| - 1]))
  }

  /** `x` is the cleaned form of token `j` of paragraph `i`. */
  ghost predicate CleanedTokenAt(paragraphs: seq<string>, i: int, j: int, x: string) {
    0 <= i < |paragraphs| && 0 <= j < |Words(paragraphs[i])| && Clean(Words(paragraphs[i])[j]) == x
  }

  /** `get_abbreviations_from_docx`. */
  method GetAbbreviations(paragraphs: seq<string>) returns (abbreviations: set<string>)
    ensures abbreviations == DocumentAbbreviations(paragraphs)
  {
    abbreviations := {};
    for p := 0 to |paragraphs|
      invariant abbreviations == DocumentAbbreviations(paragraphs[..p])
    {
      var words := Words(paragraphs[p]);
      assert paragraphs[..p + 1][..p] == paragraphs[..p];
      for j := 0 to |words|
        invariant abbreviations == DocumentAbbreviations(paragraphs[..p]) + TokenAbbreviations(words[..j])
      {
        var cleaned := Clean(words[j]);
        assert words[..j + 1][..j] == words[..j];
        if IsAbbreviation(cleaned) {
          abbreviations := abbreviations + {cleaned};
        }
      }
      assert words[..|words|] == words;
    }
    assert paragraphs[..|paragraphs|] == paragraphs;
  }

  lemma {:induction false} TokenAbbreviationsExactly(words: seq<string>, x: string)
    ensures x in TokenAbbreviations(words)
            <==> IsAbbreviation(x) && exists j :: 0 <= j < |words| && Clean(words[j]) == x
    decreases |words|
  {
    if words != [] {
      var init := words[..|words| - 1];
      TokenAbbreviationsExactly(init, x);
      if exists j :: 0 <= j < |words| && Clean(words[j]) == x {
        var j :| 0 <= j < |words| && Clean(words[j]) == x;
        if j < |words| - 1 {
          assert Clean(init[j]) == x;
        }
      }
      if exists j :: 0 <= j < |init| && Clean(init[j]) == x {
        var j :| 0 <= j < |init| && Clean(init[j]) == x;
        assert Clean(words[j]) == x;
      }
    }
  }

  /** Where a collected string comes from. */
  lemma {:induction false} CollectedFrom(paragraphs: seq<string>, x: string) returns (i: int, j: int)
    requires x in DocumentAbbreviations(paragraphs)
    ensures IsAbbreviation(x) && CleanedTokenAt(paragraphs, i, j, x)
    decreases |paragraphs|
  {
    var n := |paragraphs| - 1;
    var init := paragraphs[..n];
    var words := Words(paragraphs[n]);
    if x in DocumentAbbreviations(init) {
      i, j := CollectedFrom(init, x);
      assert paragraphs[i] == init[i];
    } else {
      TokenAbbreviationsExactly(words, x);
      i := n;
      j :| 0 <= j < |words| && Clean(words[j]) == x;
    }
  }

  /** Every accepted cleaned token is collected. */
  lemma {:induction false} CollectedAll(paragraphs: seq<string>, i: int, j: int, x: string)
    requires IsAbbreviation(x) && CleanedTokenAt(paragraphs, i, j, x)
    ensures x in DocumentAbbreviations(paragraphs)
    decreases |paragraphs|
  {
    var n := |paragraphs| - 1;
    var init := paragraphs[..n];
    if i < n {
      assert init[i] == paragraphs[i];
      CollectedAll(init, i, j, x);
    } else {
      TokenAbbreviationsExactly(Words(paragraphs[n]), x);
    }
  }

  /** Soundness and completeness of the collector: a string is in the set
      exactly when it is accepted by the classifier and is the cleaned form of
      some whitespace-separated token of some paragraph. */
  lemma DocumentAbbreviationsExactly(paragraphs: seq<string>, x: string)
    ensures x in DocumentAbbreviations(paragraphs)
            <==> IsAbbreviation(x) && exists i, j :: CleanedTokenAt(paragraphs, i, j, x)
  {
    if x in DocumentAbbreviations(paragraphs) {
      var i, j := CollectedFrom(paragraphs, x);
    }
    if IsAbbreviation(x) && exists i, j :: CleanedTokenAt(paragraphs, i, j, x) {
      var i, j :| CleanedTokenAt(paragraphs, i, j, x);
      CollectedAll(paragraphs, i, j, x);
    }
  }

  /** Every element of the set is accepted by the classifier. */
  lemma CollectedAreAbbreviations(paragraphs: seq<string>)
    ensures forall x :: x in DocumentAbbreviations(paragraphs) ==> IsAbbreviation(x)
  {
    forall x | x in DocumentAbbreviations(paragraphs) {
      DocumentAbbreviationsExactly(paragraphs, x);
    }
  }

  /** A paragraph that is empty or holds only whitespace adds nothing. */
  lemma BlankParagraphAddsNothing(paragraphs: seq<string>, blank: string)
    requires AllSpace(blank)
    ensures DocumentAbbreviations(paragraphs + [blank]) == DocumentAbbreviations(paragraphs)
  {
    WordsOfBlank(blank);
    assert (paragraphs + [blank])[..|paragraphs|] == paragraphs;
  }

  /** The set of a document is the union of the sets of its parts. */
  lemma {:induction false} DocumentAbbreviationsAppend(ps: seq<string>, qs: seq<string>)
    ensures DocumentAbbreviations(ps + qs) == DocumentAbbreviations(ps) + DocumentAbbreviations(qs)
    decreases |qs|
  {
    if qs == [] {
      assert ps + qs == ps;
    } else {
      var n := |qs| - 1;
      var all := ps + qs;
      var m := |all| - 1;
      assert all[..m] == ps + qs[..n];
      assert all[m] == qs[n];
      var last := TokenAbbreviations(Words(qs[n]));
      calc {
        DocumentAbbreviations(all);
        DocumentAbbreviations(all[..m]) + last;
        DocumentAbbreviations(ps + qs[..n]) + last;
        { DocumentAbbreviationsAppend(ps, qs[..n]); }
        DocumentAbbreviations(ps) + DocumentAbbreviations(qs[..n]) + last;
        DocumentAbbreviations(ps) + DocumentAbbreviations(qs);
      }
    }
  }

  /** A blank paragraph adds nothing wherever it stands. */
  lemma BlankParagraphAnywhere(ps: seq<string>, blank: string, qs: seq<string>)
    requires AllSpace(blank)
    ensures DocumentAbbreviations(ps + [blank] + qs) == DocumentAbbreviations(ps + qs)
  {
    BlankParagraphAddsNothing(ps, blank);
    DocumentAbbreviationsAppend(ps + [blank], qs);
    DocumentAbbreviationsAppend(ps, qs);
  }

  /** The set depends only on which paragraphs occur, not on their order or
      repetition. */
  lemma SameParagraphsSameSet(ps: seq<string>, qs: seq<string>)
    requires forall p :: p in ps <==> p in qs
    ensures DocumentAbbreviations(ps) == DocumentAbbreviations(qs)
  {
    forall x | x in DocumentAbbreviations(ps)
      ensures x in DocumentAbbreviations(qs)
    {
      DocumentAbbreviationsExactly(ps, x);
      DocumentAbbreviationsExactly(qs, x);
      var i, j :| CleanedTokenAt(ps, i, j, x);
      assert ps[i] in qs;
      var i' :| 0 <= i' < |qs| && qs[i'] == ps[i];
      assert CleanedTokenAt(qs, i', j, x);
    }
    forall x | x in DocumentAbbreviations(qs)
      ensures x in DocumentAbbreviations(ps)
    {
      DocumentAbbreviationsExactly(ps, x);
      DocumentAbbreviationsExactly(qs, x);
      var i, j :| CleanedTokenAt(qs, i, j, x);
      assert qs[i] in ps;
      var i' :| 0 <= i' < |ps| && ps[i'] == qs[i];
      assert CleanedTokenAt(ps, i', j, x);
    }
  }
}
