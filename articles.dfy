/** A scraped article as the corpus scripts see it (one row of the DataFrame
    built from the crawled JSON files), and the field clean-up that both the
    corpus preprocessing and the dataset loader apply to it. */
module Articles {
  import opened Records
  import opened Seqs
  import opened Text
  import opened Utils

  /** One entry of the `body` dictionary: a headline (`''` for the text
      before the first headline) and its paragraphs, in document order. */
  datatype Section = Section(header: string, paragraphs: seq<string>)

  /** The `body` column: the dictionary as crawled, or the single string
      it is flattened to. */
  datatype Body = Sections(sections: seq<Section>) | Joined(text: string)

  /** An entry of `author_person`: missing (`None`), a name, or a nested list
      of names. */
  datatype Person = NoPerson | PersonName(name: string) | PersonNames(names: seq<string>)

  /** The `author_organization` column: missing, a single name, or a list. */
  datatype Organization = NoOrganization | OrganizationName(name: string) | OrganizationNames(names: seq<string>)

  /** The `recommendations` column: missing (a float NaN), or a list of links. */
  datatype Recommendations = NoRecommendations | RecommendedLinks(links: seq<string>)

  /** The columns of an article the scripts read or rewrite. The dates are the
      `'dd.mm.yyyy'` strings the crawlers write. */
  datatype Article = Article(
    newsOutlet: string,
    title: string,
    description: Option<string>,
    body: Body,
    authorPerson: seq<Person>,
    authorOrganization: Organization,
    recommendations: Recommendations,
    creationDate: string,
    lastModified: string)

  // ---------------------------------------------------------------------------
  // Flattening the body

  function ParagraphLists(sections: seq<Section>): (r: seq<seq<string>>)
    ensures |r| == |sections| && forall k :: 0 <= k < |r| ==> r[k] == sections[k].paragraphs
  {
    seq(|sections|, k requires 0 <= k < |sections| => sections[k].paragraphs)
  }

  /** All paragraphs of the body, section after section: `sum(body.values(), [])`. */
  function AllParagraphs(sections: seq<Section>): seq<string> {
    Concat(ParagraphLists(sections))
  }

  /** `' '.join(p for p in sum(body.values(), []) if p != '' and p != ' ')`. */
  function FlattenBody(sections: seq<Section>): string {
    JoinWith(" ", RemoveEmptyParagraphs(AllParagraphs(sections)))
  }

  lemma AllParagraphsAppend(a: seq<Section>, b: seq<Section>)
    ensures AllParagraphs(a + b) == AllParagraphs(a) + AllParagraphs(b)
  {
    assert ParagraphLists(a + b) == ParagraphLists(a) + ParagraphLists(b);
    ConcatAppend(ParagraphLists(a), ParagraphLists(b));
  }

  /** The sections are flattened in body order: the text of `a + b` is the
      text of `a`, one space, the text of `b` (either side may contribute
      nothing, and then no space is added). */
  lemma FlattenBodyAppend(a: seq<Section>, b: seq<Section>)
    ensures FlattenBody(a + b) ==
      if FlattenBody(a) == "" then FlattenBody(b)
      else if FlattenBody(b) == "" then FlattenBody(a)
      else FlattenBody(a) + " " + FlattenBody(b)
  {
    AllParagraphsAppend(a, b);
    var pa, pb := RemoveEmptyParagraphs(AllParagraphs(a)), RemoveEmptyParagraphs(AllParagraphs(b));
    FilterConcat(AllParagraphs(a), AllParagraphs(b), IsKeptParagraph);
    assert RemoveEmptyParagraphs(AllParagraphs(a + b)) == pa + pb;
    KeptJoinEmpty(pa);
    KeptJoinEmpty(pb);
    if pa == [] {
      assert pa + pb == pb;
    } else if pb == [] {
      assert pa + pb == pa;
    } else {
      JoinWithAppend(" ", pa, pb);
    }
  }

  /** Joining kept paragraphs gives `''` only when there are none. */
  lemma KeptJoinEmpty(ps: seq<string>)
    requires forall k :: 0 <= k < |ps| ==> ps[k] != ""
    ensures JoinWith(" ", ps) == "" <==> ps == []
  {
    if ps != [] {
      assert |JoinWith(" ", ps)| >= |ps[0]| by {
        if |ps| > 1 {
          assert JoinWith(" ", ps) == ps[0] + " " + JoinWith(" ", ps[1..]);
        }
      }
    }
  }

  /** When every kept paragraph is a single word, splitting the flattened
      body on whitespace gives the kept paragraphs back, in order. */
  lemma FlattenBodySplits(sections: seq<Section>)
    requires forall k :: 0 <= k < |RemoveEmptyParagraphs(AllParagraphs(sections))| ==>
      IsWord(RemoveEmptyParagraphs(AllParagraphs(sections))[k])
    ensures Split(FlattenBody(sections)) == RemoveEmptyParagraphs(AllParagraphs(sections))
  {
    SplitJoinRoundTrip(RemoveEmptyParagraphs(AllParagraphs(sections)));
  }

  /** A single section contributes its kept paragraphs, joined by spaces;
      its headline is dropped. */
  lemma FlattenSection(sec: Section)
    ensures FlattenBody([sec]) == JoinWith(" ", RemoveEmptyParagraphs(sec.paragraphs))
  {
    assert ParagraphLists([sec]) == [sec.paragraphs];
    ConcatSingleton(sec.paragraphs);
  }

  // ---------------------------------------------------------------------------
  // Field clean-up

  /** `description.str.strip()` followed by `fillna('')`. */
  function CleanDescription(d: Option<string>): (r: string)
    ensures d.None? ==> r == ""
    ensures d.Some? ==> r == Strip(d.value)
  {
    match d
    case None => ""
    case Some(s) => Strip(s)
  }

  predicate IsPerson(p: Person) {
    !p.NoPerson?
  }

  predicate IsMissing(p: Person) {
    p.NoPerson?
  }

  /** `[x for x in author_person if x is not None]`: only the missing authors
      go, each named author is kept as often as it occurs, in order. */
  function DropMissingPersons(ps: seq<Person>): (r: seq<Person>)
    ensures forall k :: 0 <= k < |r| ==> r[k] != NoPerson
    ensures forall k :: 0 <= k < |ps| && ps[k] != NoPerson ==> ps[k] in r
    ensures Subsequence(r, ps)
    ensures |r| + |Filter(ps, IsMissing)| == |ps|
  {
    FilterMembers(ps, IsPerson);
    FilterSubsequence(ps, IsPerson);
    PersonsPartition(ps);
    Filter(ps, IsPerson)
  }

  /** Every author is either named or missing. */
  lemma {:induction false} PersonsPartition(ps: seq<Person>)
    ensures |Filter(ps, IsPerson)| + |Filter(ps, IsMissing)| == |ps|
    decreases |ps|
  {
    if ps != [] {
      PersonsPartition(ps[1..]);
    }
  }

  /** `list() if type(val) == float else val`. */
  function FixRecommendations(r: Recommendations): (s: Recommendations)
    ensures s.RecommendedLinks?
    ensures r.RecommendedLinks? ==> s == r
  {
    match r
    case NoRecommendations => RecommendedLinks([])
    case RecommendedLinks(_) => r
  }

  /** A string with no whitespace at either end. */
  predicate Stripped(s: string) {
    s == [] || (!IsSpace(s[0]) && !IsSpace(s[|s| - 1]))
  }

  /** What both clean-ups guarantee about an article. */
  predicate Cleaned(a: Article) {
    && a.body.Joined?
    && Stripped(a.title)
    && a.description.Some? && Stripped(a.description.value)
    && (forall k :: 0 <= k < |a.authorPerson| ==> a.authorPerson[k] != NoPerson)
    && a.recommendations.RecommendedLinks?
  }

  /** A stripped string is its own strip. */
  lemma StrippedIsFixpoint(s: string)
    ensures Stripped(Strip(s))
    ensures Stripped(s) ==> Strip(s) == s
  {
    StripIsTrimmedSlice(s);
    if Stripped(s) && s != [] {
      assert StripLeft(s) == s;
      assert StripRight(s) == s;
    }
  }
}
