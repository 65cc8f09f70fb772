/** The paragraph clean-up shared by every crawler (news_crawler/utils.py). */
module Utils {
  import opened Seqs

  /** The only two strings the crawlers treat as an empty paragraph. */
  predicate IsEmptyParagraph(p: string) {
    p == " " || p == ""
  }

  predicate IsKeptParagraph(p: string) {
    !IsEmptyParagraph(p)
  }

  /** `remove_empty_paragraphs`: the input without the paragraphs `' '` and `''`. */
  function RemoveEmptyParagraphs(paragraphs: seq<string>): (r: seq<string>)
    ensures forall k :: 0 <= k < |r| ==> r[k] != " " && r[k] != ""
    ensures forall k :: 0 <= k < |paragraphs| && !IsEmptyParagraph(paragraphs[k]) ==> paragraphs[k] in r
    ensures Subsequence(r, paragraphs)
  {
    FilterSubsequence(paragraphs, IsKeptParagraph);
    FilterMembers(paragraphs, IsKeptParagraph);
    Filter(paragraphs, IsKeptParagraph)
  }

  /** Exactly the empty paragraphs go: the kept ones plus the removed ones
      account for the whole input. */
  lemma RemovedAreExactlyTheEmptyOnes(paragraphs: seq<string>)
    ensures |RemoveEmptyParagraphs(paragraphs)| + |Filter(paragraphs, IsEmptyParagraph)| == |paragraphs|
  {
    FilterPartition(paragraphs, IsKeptParagraph);
    assert Filter(paragraphs, x => !IsKeptParagraph(x)) == Filter(paragraphs, IsEmptyParagraph) by {
      FilterSamePredicate(paragraphs, x => !IsKeptParagraph(x), IsEmptyParagraph);
    }
  }

  /** Removing empty paragraphs twice is removing them once. */
  lemma RemoveEmptyParagraphsIdempotent(paragraphs: seq<string>)
    ensures RemoveEmptyParagraphs(RemoveEmptyParagraphs(paragraphs)) == RemoveEmptyParagraphs(paragraphs)
  {
    FilterIdempotent(paragraphs, IsKeptParagraph);
  }

  /** Only the two exact strings are removed: two spaces, or a tab, stay. */
  lemma OnlyExactBlanksRemoved()
    ensures RemoveEmptyParagraphs(["  ", " ", "", "\t", "a"]) == ["  ", "\t", "a"]
  {
    var s := ["  ", " ", "", "\t", "a"];
    assert s[1..] == [" ", "", "\t", "a"];
    assert s[1..][1..] == ["", "\t", "a"];
    assert s[1..][1..][1..] == ["\t", "a"];
    assert s[1..][1..][1..][1..] == ["a"];
    assert ["a"][1..] == [];
  }
}
