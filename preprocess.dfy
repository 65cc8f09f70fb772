/** The corpus preprocessing of preprocess_data.py: the HTML-tagged text of
    every article, the columns derived from it, the row filters and the
    pipeline that runs them in a fixed order before cleaning the fields. */
module Preprocess {
  import opened Records
  import opened Seqs
  import opened Text
  import opened Patterns
  import opened Articles

  // ---------------------------------------------------------------------------
  // The HTML-tagged content

  /** `f'<{tag}>{text}</{tag}>'`. */
  function AddHtmlTag(text: string, tag: string): (r: string)
    ensures |r| == |text| + 2 * |tag| + 5
  {
    "<" + tag + ">" + text + "</" + tag + ">"
  }

  /** The opening tag, the text and the closing tag, at their offsets. */
  lemma AddHtmlTagParts(text: string, tag: string)
    ensures AddHtmlTag(text, tag)[..|tag| + 2] == "<" + tag + ">"
    ensures AddHtmlTag(text, tag)[|tag| + 2..|tag| + 2 + |text|] == text
    ensures AddHtmlTag(text, tag)[|tag| + 2 + |text|..] == "</" + tag + ">"
  {
    var r := AddHtmlTag(text, tag);
    assert r == ("<" + tag + ">") + text + ("</" + tag + ">");
  }

  lemma H1Tag(title: string)
    ensures AddHtmlTag(title, "h1") == "<h1>" + title + "</h1>"
  {
    assert "<" + "h1" + ">" == "<h1>";
    assert "</" + "h1" + ">" == "</h1>";
  }

  /** The Google-Trends embed snippet; its dots match any character but a newline. */
  const WidgetPattern: Pattern := Dotted("trends.embed.renderExploreWidget")

  predicate IsWidget(paragraph: string) {
    Found(WidgetPattern, paragraph)
  }

  predicate NotWidget(paragraph: string) {
    !IsWidget(paragraph)
  }

  function TagAll(xs: seq<string>, tag: string): (r: seq<string>)
    ensures |r| == |xs| && forall k :: 0 <= k < |xs| ==> r[k] == AddHtmlTag(xs[k], tag)
  {
    seq(|xs|, k requires 0 <= k < |xs| => AddHtmlTag(xs[k], tag))
  }

  /** `_get_paragraphs`: the paragraphs that are not a trends widget, each
      wrapped in `<p>`. */
  function GetParagraphs(paragraphs: seq<string>): (r: seq<string>)
    ensures |r| <= |paragraphs|
  {
    TagAll(Filter(paragraphs, NotWidget), "p")
  }

  /** `r` is a paragraph of `paragraphs` that is not a widget, in `<p>` tags. */
  predicate TaggedKept(r: string, paragraphs: seq<string>) {
    exists j :: 0 <= j < |paragraphs| && NotWidget(paragraphs[j]) && r == AddHtmlTag(paragraphs[j], "p")
  }

  /** `r` is `kept`, each paragraph a non-widget in `<p>` tags, position by position. */
  predicate KeptInOrder(kept: seq<string>, r: seq<string>) {
    |kept| == |r| && forall k :: 0 <= k < |kept| ==> NotWidget(kept[k]) && r[k] == AddHtmlTag(kept[k], "p")
  }

  /** Exactly the widgets go: every element of the result is a kept
      paragraph in `<p>` tags, every kept paragraph appears in it, the kept
      and the dropped paragraphs account for the whole input, and the result
      is an order-preserving selection of the input, tagged. */
  lemma GetParagraphsKeepsNonWidgets(paragraphs: seq<string>)
    ensures forall k :: 0 <= k < |GetParagraphs(paragraphs)| ==> TaggedKept(GetParagraphs(paragraphs)[k], paragraphs)
    ensures forall j :: 0 <= j < |paragraphs| && NotWidget(paragraphs[j]) ==> AddHtmlTag(paragraphs[j], "p") in GetParagraphs(paragraphs)
    ensures |GetParagraphs(paragraphs)| + |Filter(paragraphs, IsWidget)| == |paragraphs|
    ensures exists kept :: Subsequence(kept, paragraphs) && KeptInOrder(kept, GetParagraphs(paragraphs))
  {
    GetParagraphsSound(paragraphs);
    GetParagraphsComplete(paragraphs);
    FilterPartition(paragraphs, NotWidget);
    FilterSamePredicate(paragraphs, x => !NotWidget(x), IsWidget);
    var kept := Filter(paragraphs, NotWidget);
    FilterSubsequence(paragraphs, NotWidget);
    GetParagraphsInOrder(paragraphs);
    assert Subsequence(kept, paragraphs) && KeptInOrder(kept, GetParagraphs(paragraphs));
  }

  lemma GetParagraphsInOrder(paragraphs: seq<string>)
    ensures KeptInOrder(Filter(paragraphs, NotWidget), GetParagraphs(paragraphs))
  {
    FilterMembers(paragraphs, NotWidget);
  }

  lemma GetParagraphsSound(paragraphs: seq<string>)
    ensures forall k :: 0 <= k < |GetParagraphs(paragraphs)| ==> TaggedKept(GetParagraphs(paragraphs)[k], paragraphs)
  {
    var kept := Filter(paragraphs, NotWidget);
    FilterMembers(paragraphs, NotWidget);
    forall k | 0 <= k < |GetParagraphs(paragraphs)|
      ensures TaggedKept(GetParagraphs(paragraphs)[k], paragraphs)
    {
      assert kept[k] in paragraphs;
      var j :| 0 <= j < |paragraphs| && paragraphs[j] == kept[k];
      assert NotWidget(kept[k]);
      assert GetParagraphs(paragraphs)[k] == AddHtmlTag(paragraphs[j], "p");
    }
  }

  lemma GetParagraphsComplete(paragraphs: seq<string>)
    ensures forall j :: 0 <= j < |paragraphs| && NotWidget(paragraphs[j]) ==> AddHtmlTag(paragraphs[j], "p") in GetParagraphs(paragraphs)
  {
    var kept := Filter(paragraphs, NotWidget);
    FilterMembers(paragraphs, NotWidget);
    forall j | 0 <= j < |paragraphs| && NotWidget(paragraphs[j])
      ensures AddHtmlTag(paragraphs[j], "p") in GetParagraphs(paragraphs)
    {
      var k :| 0 <= k < |kept| && kept[k] == paragraphs[j];
      assert GetParagraphs(paragraphs)[k] == AddHtmlTag(paragraphs[j], "p");
    }
  }

  /** What one body entry contributes: nothing for an empty paragraph list,
      otherwise its headline in `<h2>` (none for the headline `''`) and its
      paragraphs. */
  function SectionHtml(sec: Section): string {
    if sec.paragraphs == [] then ""
    else (if sec.header != "" then AddHtmlTag(sec.header, "h2") else "") + Concat(GetParagraphs(sec.paragraphs))
  }

  function BodyHtml(body: seq<Section>): string {
    ConcatMap(body, SectionHtml)
  }

  lemma BodyHtmlStep(body: seq<Section>, i: int)
    requires 0 <= i < |body|
    ensures BodyHtml(body[..i + 1]) == BodyHtml(body[..i]) + SectionHtml(body[i])
  {
    assert body[..i + 1] == body[..i] + [body[i]];
    ConcatMapAppend(body[..i], [body[i]], SectionHtml);
    ConcatMapSingleton(body[i], SectionHtml);
  }

  /** One turn of the `format_content` loop: appending the entry's piece extends
      the text by one entry. */
  lemma BodyHtmlExtend(h: string, body: seq<Section>, i: int, text: string, piece: string)
    requires 0 <= i < |body| && text == h + BodyHtml(body[..i]) && piece == SectionHtml(body[i])
    ensures text + piece == h + BodyHtml(body[..i + 1])
  {
    BodyHtmlStep(body, i);
  }

  /** The text `format_content` returns. */
  function FormattedContent(title: string, body: seq<Section>): (r: string)
    ensures |r| >= |title| + 9 && r[..|title| + 9] == "<h1>" + title + "</h1>"
  {
    var h := AddHtmlTag(title, "h1");
    H1Tag(title);
    assert (h + BodyHtml(body))[..|h|] == h;
    h + BodyHtml(body)
  }

  /** `format_content`: the title in `<h1>`, then every body entry in order. */
  method FormatContent(title: string, body: seq<Section>) returns (text: string)
    ensures text == FormattedContent(title, body)
  {
    var h := AddHtmlTag(title, "h1");
    text := h;
    for i := 0 to |body|
      invariant text == h + BodyHtml(body[..i])
    {
      var sec := body[i];
      if sec.paragraphs == [] {
        BodyHtmlExtend(h, body, i, text, "");
        continue;
      }
      var headerHtml := if sec.header != "" then AddHtmlTag(sec.header, "h2") else "";
      var paragraphs := GetParagraphs(sec.paragraphs);
      var paragraphsHtml := Concat(paragraphs);
      BodyHtmlExtend(h, body, i, text, headerHtml + paragraphsHtml);
      text := text + (headerHtml + paragraphsHtml);
    }
    assert body[..|body|] == body;
  }

  /** The body entries appear in body order: the content of `a + b` is the
      content of `a` followed by what the entries of `b` contribute. */
  lemma FormattedContentAppend(title: string, a: seq<Section>, b: seq<Section>)
    ensures FormattedContent(title, a + b) == FormattedContent(title, a) + BodyHtml(b)
  {
    ConcatMapAppend(a, b, SectionHtml);
  }

  /** An entry with an empty paragraph list, wherever it stands, changes
      nothing. */
  lemma EmptySectionContributesNothing(title: string, a: seq<Section>, header: string, b: seq<Section>)
    ensures FormattedContent(title, a + [Section(header, [])] + b) == FormattedContent(title, a + b)
  {
    ConcatMapAppend(a + [Section(header, [])], b, SectionHtml);
    ConcatMapAppend(a, [Section(header, [])], SectionHtml);
    ConcatMapAppend(a, b, SectionHtml);
    ConcatMapSingleton(Section(header, []), SectionHtml);
  }

  // ---------------------------------------------------------------------------
  // Counting `<h2>`

  const H2: string := "<h2>"

  /** Text that cannot open a tag. */
  predicate NoMarkup(s: string) {
    forall i :: 0 <= i < |s| ==> s[i] != '<'
  }

  predicate StartsTag(s: string) {
    s == [] || s[0] == '<'
  }

  /** An entry that produces an `<h2>`. */
  predicate HasSubheader(sec: Section) {
    sec.paragraphs != [] && sec.header != ""
  }

  /** Titles, headlines and paragraphs free of `<`. */
  predicate PlainSection(sec: Section) {
    NoMarkup(sec.header) && forall k :: 0 <= k < |sec.paragraphs| ==> NoMarkup(sec.paragraphs[k])
  }

  lemma H2Chars(s: string, i: int)
    requires Occurs(H2, s, i)
    ensures s[i] == '<' && s[i + 1] == 'h' && s[i + 2] == '2' && s[i + 3] == '>'
  {
    assert s[i..i + 4] == H2;
    assert s[i..i + 4][0] == s[i] && s[i..i + 4][1] == s[i + 1];
    assert s[i..i + 4][2] == s[i + 2] && s[i..i + 4][3] == s[i + 3];
  }

  /** No `<h2>` straddles a seam followed by the start of a tag. */
  lemma SeamBeforeTag(a: string, b: string)
    requires StartsTag(b)
    ensures NoStraddle(H2, a, b)
  {
    forall i | 0 <= i < |a| < i + |H2| ensures !Occurs(H2, a + b, i) {
      if Occurs(H2, a + b, i) {
        H2Chars(a + b, i);
      }
    }
  }

  /** Counting over a seam before a tag adds up, and two pieces that each
      start a tag (or are empty) start one together. */
  lemma H2Append(a: string, b: string)
    requires StartsTag(b)
    ensures CountMatches(H2, a + b) == CountMatches(H2, a) + CountMatches(H2, b)
    ensures StartsTag(a) ==> StartsTag(a + b)
  {
    SeamBeforeTag(a, b);
    CountMatchesConcat(H2, a, b);
    if a == [] {
      assert a + b == b;
    }
  }

  lemma NoMarkupNoH2(s: string)
    requires NoMarkup(s)
    ensures CountMatches(H2, s) == 0
  {
    forall i | 0 <= i ensures !Occurs(H2, s, i) {
      if Occurs(H2, s, i) {
        H2Chars(s, i);
      }
    }
    CountMatchesNone(H2, s, 0);
  }

  /** A tagged plain text holds one `<h2>` if the tag is `h2`, none if it is
      `h1` or `p`. */
  lemma TagCount(x: string, tag: string)
    requires NoMarkup(x)
    requires tag == "h1" || tag == "h2" || tag == "p"
    ensures CountMatches(H2, AddHtmlTag(x, tag)) == if tag == "h2" then 1 else 0
  {
    var s := AddHtmlTag(x, tag);
    var m := |tag| + 2 + |x|;
    AddHtmlTagParts(x, tag);
    forall i | 1 <= i ensures !Occurs(H2, s, i) {
      if Occurs(H2, s, i) {
        H2Chars(s, i);
        TagCharAt(x, tag, i);
      }
    }
    CountMatchesNone(H2, s, 1);
    if tag == "h2" {
      assert s[..4] == H2;
      assert Occurs(H2, s, 0);
      CountMatchesNone(H2, s, 4);
      assert FindAll(H2, s) == [0];
    } else {
      assert s[1] == ("<" + tag + ">")[1];
      assert !Occurs(H2, s, 0) by {
        if Occurs(H2, s, 0) {
          H2Chars(s, 0);
        }
      }
    }
  }

  /** Past its first character, a tagged plain text has a `<` only where its
      closing tag starts, and there a `/` follows. */
  lemma TagCharAt(x: string, tag: string, i: int)
    requires NoMarkup(x)
    requires tag == "h1" || tag == "h2" || tag == "p"
    requires 1 <= i < |AddHtmlTag(x, tag)|
    ensures AddHtmlTag(x, tag)[i] == '<' ==> i == |tag| + 2 + |x| && AddHtmlTag(x, tag)[i + 1] == '/'
  {
    var s := AddHtmlTag(x, tag);
    var m := |tag| + 2 + |x|;
    AddHtmlTagParts(x, tag);
    if i < |tag| + 2 {
      assert s[i] == s[..|tag| + 2][i];
    } else if i < m {
      assert s[i] == s[|tag| + 2..m][i - |tag| - 2];
    } else {
      assert s[i] == s[m..][i - m];
      assert s[m + 1] == s[m..][1];
    }
  }

  /** Plain paragraphs in `<p>` tags hold no `<h2>`. */
  lemma {:induction false} ParagraphsCount(xs: seq<string>)
    requires forall k :: 0 <= k < |xs| ==> NoMarkup(xs[k])
    ensures CountMatches(H2, Concat(TagAll(xs, "p"))) == 0
    ensures StartsTag(Concat(TagAll(xs, "p")))
    decreases |xs|
  {
    if xs != [] {
      var n := |xs| - 1;
      var t := TagAll(xs, "p");
      assert t[..n] == TagAll(xs[..n], "p");
      ParagraphsCount(xs[..n]);
      var last := AddHtmlTag(xs[n], "p");
      assert t[n] == last;
      assert Concat(t) == Concat(t[..n]) + last;
      TagCount(xs[n], "p");
      assert last[0] == '<';
      H2Append(Concat(t[..n]), last);
    } else {
      assert TagAll(xs, "p") == [];
      NoMarkupNoH2("");
    }
  }

  lemma SectionCount(sec: Section)
    requires PlainSection(sec)
    ensures CountMatches(H2, SectionHtml(sec)) == if HasSubheader(sec) then 1 else 0
    ensures StartsTag(SectionHtml(sec))
  {
    if sec.paragraphs != [] {
      var kept := Filter(sec.paragraphs, NotWidget);
      FilterMembers(sec.paragraphs, NotWidget);
      forall k | 0 <= k < |kept| ensures NoMarkup(kept[k]) {
        var j :| 0 <= j < |sec.paragraphs| && sec.paragraphs[j] == kept[k];
      }
      ParagraphsCount(kept);
      var ps := Concat(GetParagraphs(sec.paragraphs));
      var h := if sec.header != "" then AddHtmlTag(sec.header, "h2") else "";
      H2Append(h, ps);
      if sec.header != "" {
        TagCount(sec.header, "h2");
        assert h[0] == '<';
      } else {
        assert h + ps == ps;
      }
    } else {
      NoMarkupNoH2("");
    }
  }

  lemma BodyCount(body: seq<Section>)
    requires forall k :: 0 <= k < |body| ==> PlainSection(body[k])
    ensures CountMatches(H2, BodyHtml(body)) == |Filter(body, HasSubheader)|
    ensures StartsTag(BodyHtml(body))
  {
    forall k | 0 <= k < |body|
      ensures StartsTag(SectionHtml(body[k]))
      ensures CountMatches(H2, SectionHtml(body[k])) == if HasSubheader(body[k]) then 1 else 0
    {
      SectionCount(body[k]);
    }
    PiecesCount(body, SectionHtml);
  }

  /** The count over the pieces of a body, for any rendering `f` of the
      entries that starts each piece with a tag and puts one `<h2>` in
      exactly the entries with a subheader. */
  lemma {:induction false} PiecesCount(body: seq<Section>, f: Section -> string)
    requires forall k :: 0 <= k < |body| ==> StartsTag(f(body[k]))
    requires forall k :: 0 <= k < |body| ==> CountMatches(H2, f(body[k])) == if HasSubheader(body[k]) then 1 else 0
    ensures CountMatches(H2, ConcatMap(body, f)) == |Filter(body, HasSubheader)|
    ensures StartsTag(ConcatMap(body, f))
    decreases |body|
  {
    if body != [] {
      var n := |body| - 1;
      var pre, last := body[..n], body[n];
      assert forall k :: 0 <= k < |pre| ==> pre[k] == body[k];
      PiecesCount(pre, f);
      H2Append(ConcatMap(pre, f), f(last));
      assert pre + [last] == body;
      FilterSnoc(pre, last, HasSubheader);
    } else {
      NoMarkupNoH2("");
    }
  }

  /** `number_subheaders` counts the body entries with a headline and a
      non-empty paragraph list, provided no title, headline or paragraph
      contains a `<` of its own. */
  lemma SubheaderCount(title: string, body: seq<Section>)
    requires NoMarkup(title)
    requires forall k :: 0 <= k < |body| ==> PlainSection(body[k])
    ensures CountMatches(H2, FormattedContent(title, body)) == |Filter(body, HasSubheader)|
  {
    BodyCount(body);
    TagCount(title, "h1");
    H2Append(AddHtmlTag(title, "h1"), BodyHtml(body));
  }

  // ---------------------------------------------------------------------------
  // Forbidden patterns

  /** `PATTERN_LIST`: the parentheses of the first entry only group, and the
      final `.` of the second matches any character but a newline. */
  const VideoPattern: Pattern := Literal("Die Woche COMPACT Video")
  const LockedPattern: Pattern := Dotted("Dieser Beitrag ist gesperrt und nur für Onlineabonnenten lesbar.")
  const PatternList: seq<Pattern> := [VideoPattern, LockedPattern]

  predicate HasForbiddenPattern(article: string) {
    exists k :: 0 <= k < |PatternList| && Found(PatternList[k], article)
  }

  /** `check_if_article_contains_forbidden_pattern`: the patterns in order,
      stopping at the first one that matches. */
  method ContainsForbiddenPattern(article: string) returns (r: bool)
    ensures r <==> HasForbiddenPattern(article)
  {
    for k := 0 to |PatternList|
      invariant forall j :: 0 <= j < k ==> !Found(PatternList[j], article)
    {
      if Found(PatternList[k], article) {
        return true;
      }
    }
    return false;
  }

  /** The first pattern is a group: the words with parentheses do not match,
      the words without them do. */
  lemma VideoPatternIsAGroup()
    ensures Found(VideoPattern, "Die Woche COMPACT Video")
    ensures !Found(VideoPattern, "Die Woche COMPACT (Video)")
  {
    LiteralMatchesAt("Die Woche COMPACT Video", "Die Woche COMPACT Video", 0);
    var s := "Die Woche COMPACT (Video)";
    var w := "Die Woche COMPACT Video";
    forall i | 0 <= i <= |s| - |VideoPattern| ensures !MatchesAt(VideoPattern, s, i) {
      LiteralMatchesAt(w, s, i);
      if i == 0 {
        assert s[..23][18] == s[18] == '(' != w[18];
      } else {
        assert s[i..i + 23][0] == s[i] != w[0];
      }
    }
  }

  /** The final dot of the second pattern accepts any other character except a newline. */
  lemma LockedPatternDot()
    ensures Found(LockedPattern, "Dieser Beitrag ist gesperrt und nur für Onlineabonnenten lesbar!")
  {
    var w := "Dieser Beitrag ist gesperrt und nur für Onlineabonnenten lesbar.";
    var s := "Dieser Beitrag ist gesperrt und nur für Onlineabonnenten lesbar!";
    assert s == w[..|w| - 1] + "!";
    forall k | 0 <= k < |w| ensures AtomMatches(LockedPattern[k], s[k]) {
      if k < |w| - 1 {
        assert s[k] == w[..|w| - 1][k] == w[k];
      }
    }
    assert MatchesAt(LockedPattern, s, 0);
  }

  /** The dots of the widget pattern match underscores as well. */
  lemma WidgetPatternDots()
    ensures IsWidget("trends_embed_renderExploreWidget")
  {
    var s := "trends_embed_renderExploreWidget";
    var w := "trends.embed.renderExploreWidget";
    forall k | 0 <= k < |w| ensures AtomMatches(WidgetPattern[k], s[k]) {
      if w[k] != '.' {
        assert w[k] == s[k];
      }
    }
    assert MatchesAt(WidgetPattern, s, 0);
  }

  // ---------------------------------------------------------------------------
  // Annotation

  /** An article with the columns `annotate_raw_data` adds. */
  datatype Row = Row(
    article: Article,
    formattedContent: string,
    language: string,
    articleLength: nat,
    numberSubheaders: nat,
    forbiddenPattern: bool)

  /** The derived columns of `row`, as computed from its formatted content;
      `detect` stands for the language detector. */
  predicate Annotated(row: Row, detect: string -> string) {
    && row.article.body.Sections?
    && row.formattedContent == FormattedContent(row.article.title, row.article.body.sections)
    && row.language == detect(row.formattedContent)
    && row.articleLength == |row.formattedContent|
    && row.numberSubheaders == CountMatches(H2, row.formattedContent)
    && (row.forbiddenPattern <==> HasForbiddenPattern(row.formattedContent))
  }

  method AnnotateArticle(article: Article, detect: string -> string) returns (row: Row)
    requires article.body.Sections?
    ensures row.article == article && Annotated(row, detect)
  {
    var content := FormatContent(article.title, article.body.sections);
    var forbidden := ContainsForbiddenPattern(content);
    row := Row(article, content, detect(content), |content|, |FindAll(H2, content)|, forbidden);
  }

  /** `annotate_raw_data`: every article, in order, with its derived columns. */
  method AnnotateRawData(data: seq<Article>, detect: string -> string) returns (rows: seq<Row>)
    requires forall k :: 0 <= k < |data| ==> data[k].body.Sections?
    ensures |rows| == |data|
    ensures forall k :: 0 <= k < |data| ==> rows[k].article == data[k] && Annotated(rows[k], detect)
  {
    rows := [];
    for i := 0 to |data|
      invariant |rows| == i
      invariant forall k :: 0 <= k < i ==> rows[k].article == data[k] && Annotated(rows[k], detect)
    {
      var row := AnnotateArticle(data[i], detect);
      rows := rows + [row];
    }
  }

  /** The `<h2>` column of an annotated row counts its subheaded entries when
      its text carries no markup of its own. */
  lemma AnnotatedSubheaders(row: Row, detect: string -> string)
    requires Annotated(row, detect)
    requires NoMarkup(row.article.title)
    requires forall k :: 0 <= k < |row.article.body.sections| ==> PlainSection(row.article.body.sections[k])
    ensures row.numberSubheaders == |Filter(row.article.body.sections, HasSubheader)|
  {
    SubheaderCount(row.article.title, row.article.body.sections);
  }

  // ---------------------------------------------------------------------------
  // Row filters

  /** A DataFrame of annotated articles; positions are the index after
      `reset_index(drop=True)`. */
  class Frame {
    var rows: seq<Row>

    constructor (rows: seq<Row>)
      ensures this.rows == rows
    {
      this.rows := rows;
    }
  }

  /** The columns `duplicated()` compares. */
  function DuplicateKey(row: Row): (string, string) {
    (row.article.newsOutlet, row.formattedContent)
  }

  predicate IsGerman(row: Row) {
    row.language == "de"
  }

  function NotTicker(threshold: int): Row -> bool {
    (row: Row) => row.numberSubheaders <= threshold
  }

  predicate NoForbiddenPattern(row: Row) {
    !row.forbiddenPattern
  }

  /** `drop_duplicates`: a new frame with the first row of every
      (outlet, content) pair; the input frame is left as it was. */
  method DropDuplicates(data: Frame) returns (r: Frame)
    ensures fresh(r) && r.rows == DedupBy(data.rows, DuplicateKey)
  {
    r := new Frame(DedupBy(data.rows, DuplicateKey));
  }

  /** `drop_non_german_articles`, in place. */
  method DropNonGermanArticles(data: Frame) returns (r: Frame)
    modifies data
    ensures r == data && data.rows == Filter(old(data.rows), IsGerman)
  {
    data.rows := Filter(data.rows, IsGerman);
    r := data;
  }

  /** `drop_outliers`, in place; `inlier(rows)` says which rows lie within the
      bounds computed from the lengths in `rows`. */
  method DropOutliers(data: Frame, inlier: seq<Row> -> Row -> bool) returns (r: Frame)
    modifies data
    ensures r == data && data.rows == Filter(old(data.rows), inlier(old(data.rows)))
  {
    data.rows := Filter(data.rows, inlier(data.rows));
    r := data;
  }

  /** `drop_news_tickers`, in place: rows with more subheaders than the
      threshold go. */
  method DropNewsTickers(data: Frame, subheadersThreshold: int) returns (r: Frame)
    modifies data
    ensures r == data && data.rows == Filter(old(data.rows), NotTicker(subheadersThreshold))
  {
    data.rows := Filter(data.rows, NotTicker(subheadersThreshold));
    r := data;
  }

  /** `drop_articles_with_forbidden_pattern`, in place. */
  method DropArticlesWithForbiddenPattern(data: Frame) returns (r: Frame)
    modifies data
    ensures r == data && data.rows == Filter(old(data.rows), NoForbiddenPattern)
  {
    data.rows := Filter(data.rows, NoForbiddenPattern);
    r := data;
  }

  // ---------------------------------------------------------------------------
  // The pipeline

  /** The switches of `process_data`. */
  datatype Options = Options(
    dropDuplicates: bool,
    dropNonGermanArticles: bool,
    dropOutliers: bool,
    dropNewsTicker: bool,
    subheadersThreshold: int,
    dropArticlesWithForbiddenPattern: bool)

  const DefaultOptions := Options(true, true, true, true, 10, true)

  /** The rows left after the enabled stages, in the order
      duplicates, language, outliers, tickers, patterns. */
  function Stages(rows: seq<Row>, opts: Options, inlier: seq<Row> -> Row -> bool): seq<Row> {
    var s2 := Stage(Deduplicated(rows, opts), opts.dropNonGermanArticles, IsGerman);
    var s3 := Stage(s2, opts.dropOutliers, inlier(s2));
    var s4 := Stage(s3, opts.dropNewsTicker, NotTicker(opts.subheadersThreshold));
    Stage(s4, opts.dropArticlesWithForbiddenPattern, NoForbiddenPattern)
  }

  function Deduplicated(rows: seq<Row>, opts: Options): seq<Row> {
    if opts.dropDuplicates then DedupBy(rows, DuplicateKey) else rows
  }

  /** One filtering stage, when it is switched on. */
  function Stage(rows: seq<Row>, enabled: bool, keep: Row -> bool): seq<Row> {
    if enabled then Filter(rows, keep) else rows
  }

  /** A stage keeps rows of its input, in order, and when switched on only
      rows that pass its filter. */
  lemma StageShrinks(rows: seq<Row>, enabled: bool, keep: Row -> bool)
    ensures Subsequence(Stage(rows, enabled, keep), rows)
    ensures forall x :: x in Stage(rows, enabled, keep) ==> x in rows && (enabled ==> keep(x))
  {
    if enabled {
      FilterSubsequence(rows, keep);
      FilterMembers(rows, keep);
    } else {
      SubsequenceRefl(rows);
    }
  }

  /** Unwraps a nested author list: `authors[0]` when it is a list. */
  function UnwrapPersons(ps: seq<Person>): (r: seq<Person>)
    ensures |ps| > 0 && ps[0].PersonNames? ==> |r| == |ps[0].names| && forall k :: 0 <= k < |r| ==> r[k] == PersonName(ps[0].names[k])
    ensures !(|ps| > 0 && ps[0].PersonNames?) ==> r == ps
  {
    if |ps| > 0 && ps[0].PersonNames? then
      seq(|ps[0].names|, k requires 0 <= k < |ps[0].names| => PersonName(ps[0].names[k]))
    else ps
  }

  /** `[authors] if type(authors) == str else authors`. */
  function WrapOrganization(o: Organization): (r: Organization)
    ensures !r.OrganizationName?
    ensures o.OrganizationName? ==> r == OrganizationNames([o.name])
    ensures !o.OrganizationName? ==> r == o
  {
    match o
    case OrganizationName(name) => OrganizationNames([name])
    case _ => o
  }

  /** The field clean-up at the end of `process_data`. */
  function ProcessArticle(a: Article): Article
    requires a.body.Sections?
  {
    a.(title := Strip(a.title),
       description := Some(CleanDescription(a.description)),
       body := Joined(FlattenBody(a.body.sections)),
       authorPerson := UnwrapPersons(DropMissingPersons(a.authorPerson)),
       authorOrganization := WrapOrganization(a.authorOrganization),
       recommendations := FixRecommendations(a.recommendations))
  }

  function ProcessRows(rows: seq<Row>): (r: seq<Row>)
    requires forall k :: 0 <= k < |rows| ==> rows[k].article.body.Sections?
    ensures |r| == |rows|
  {
    seq(|rows|, k requires 0 <= k < |rows| => rows[k].(article := ProcessArticle(rows[k].article)))
  }

  /** `process_data`. With de-duplication on, the stages work on a new frame
      and the caller's frame keeps its rows; with it off, every stage and the
      clean-up change the caller's frame itself, which is also returned. */
  method ProcessData(data: Frame, opts: Options, inlier: seq<Row> -> Row -> bool) returns (r: Frame)
    requires AllSections(data.rows)
    modifies data
    ensures opts.dropDuplicates ==> fresh(r) && data.rows == old(data.rows)
    ensures !opts.dropDuplicates ==> r == data
    ensures StagesKeepBodies(old(data.rows), opts, inlier)
    ensures r.rows == ProcessRows(Stages(old(data.rows), opts, inlier))
  {
    StagesKeepBodiesHolds(data.rows, opts, inlier);
    r := RunStages(data, opts, inlier);
    r.rows := ProcessRows(r.rows);
  }

  /** The stages of `process_data`, each on the frame the previous one returned. */
  method RunStages(data: Frame, opts: Options, inlier: seq<Row> -> Row -> bool) returns (r: Frame)
    modifies data
    ensures opts.dropDuplicates ==> fresh(r) && data.rows == old(data.rows)
    ensures !opts.dropDuplicates ==> r == data
    ensures r.rows == Stages(old(data.rows), opts, inlier)
  {
    ghost var rows := data.rows;
    r := data;
    if opts.dropDuplicates {
      r := DropDuplicates(r);
    }
    ghost var s1 := r.rows;
    assert s1 == Deduplicated(rows, opts);
    if opts.dropNonGermanArticles {
      r := DropNonGermanArticles(r);
    }
    ghost var s2 := r.rows;
    assert s2 == Stage(s1, opts.dropNonGermanArticles, IsGerman);
    if opts.dropOutliers {
      r := DropOutliers(r, inlier);
    }
    ghost var s3 := r.rows;
    assert s3 == Stage(s2, opts.dropOutliers, inlier(s2));
    if opts.dropNewsTicker {
      r := DropNewsTickers(r, opts.subheadersThreshold);
    }
    ghost var s4 := r.rows;
    assert s4 == Stage(s3, opts.dropNewsTicker, NotTicker(opts.subheadersThreshold));
    if opts.dropArticlesWithForbiddenPattern {
      r := DropArticlesWithForbiddenPattern(r);
    }
  }

  /** Rows whose body is still the dictionary. */
  predicate AllSections(rows: seq<Row>) {
    forall k :: 0 <= k < |rows| ==> rows[k].article.body.Sections?
  }

  /** The stages only remove rows: what they keep still has its body dictionary. */
  predicate StagesKeepBodies(rows: seq<Row>, opts: Options, inlier: seq<Row> -> Row -> bool) {
    AllSections(rows) ==> AllSections(Stages(rows, opts, inlier))
  }

  lemma StagesKeepBodiesHolds(rows: seq<Row>, opts: Options, inlier: seq<Row> -> Row -> bool)
    ensures StagesKeepBodies(rows, opts, inlier)
  {
    var out := Stages(rows, opts, inlier);
    StagesSubsequence(rows, opts, inlier);
    SubsequenceMembers(out, rows);
    if AllSections(rows) {
      forall k | 0 <= k < |out| ensures out[k].article.body.Sections? {
        assert out[k] in rows;
      }
    }
  }

  /** The stages after de-duplication keep rows of its result, in order,
      and every row they keep passes the enabled filters. */
  lemma LaterStages(rows: seq<Row>, opts: Options, inlier: seq<Row> -> Row -> bool)
    ensures Subsequence(Stages(rows, opts, inlier), Deduplicated(rows, opts))
    ensures forall x :: x in Stages(rows, opts, inlier) ==> x in Deduplicated(rows, opts) && Kept(opts, x)
  {
    var s1 := Deduplicated(rows, opts);
    var s2 := Stage(s1, opts.dropNonGermanArticles, IsGerman);
    var s3 := Stage(s2, opts.dropOutliers, inlier(s2));
    var s4 := Stage(s3, opts.dropNewsTicker, NotTicker(opts.subheadersThreshold));
    var s5 := Stage(s4, opts.dropArticlesWithForbiddenPattern, NoForbiddenPattern);
    StageShrinks(s1, opts.dropNonGermanArticles, IsGerman);
    StageShrinks(s2, opts.dropOutliers, inlier(s2));
    StageShrinks(s3, opts.dropNewsTicker, NotTicker(opts.subheadersThreshold));
    StageShrinks(s4, opts.dropArticlesWithForbiddenPattern, NoForbiddenPattern);
    SubsequenceTrans(s3, s2, s1);
    SubsequenceTrans(s4, s3, s1);
    SubsequenceTrans(s5, s4, s1);
  }

  /** The stages keep rows of the input, in their order. */
  lemma StagesSubsequence(rows: seq<Row>, opts: Options, inlier: seq<Row> -> Row -> bool)
    ensures Subsequence(Stages(rows, opts, inlier), rows)
  {
    LaterStages(rows, opts, inlier);
    if opts.dropDuplicates {
      DedupSubsequence(rows, DuplicateKey);
      SubsequenceTrans(Stages(rows, opts, inlier), Deduplicated(rows, opts), rows);
    }
  }

  /** Whatever the enabled stages promise holds of every row that is left:
      distinct (outlet, content) pairs, German, at most the threshold of
      subheaders, no forbidden pattern. */
  lemma StagesGuarantee(rows: seq<Row>, opts: Options, inlier: seq<Row> -> Row -> bool)
    ensures opts.dropDuplicates ==> DistinctKeys(Stages(rows, opts, inlier), DuplicateKey)
    ensures forall k :: 0 <= k < |Stages(rows, opts, inlier)| ==> Kept(opts, Stages(rows, opts, inlier)[k])
  {
    LaterStages(rows, opts, inlier);
    if opts.dropDuplicates {
      DedupDistinct(rows, DuplicateKey);
      SubsequenceDistinct(Stages(rows, opts, inlier), Deduplicated(rows, opts), DuplicateKey);
    }
  }

  /** A row that passes every enabled filter of `opts`. */
  predicate Kept(opts: Options, row: Row) {
    && (opts.dropNonGermanArticles ==> IsGerman(row))
    && (opts.dropNewsTicker ==> row.numberSubheaders <= opts.subheadersThreshold)
    && (opts.dropArticlesWithForbiddenPattern ==> NoForbiddenPattern(row))
  }

  function KeptBy(opts: Options): Row -> bool {
    row => Kept(opts, row)
  }

  /** Without the outlier stage, the pipeline keeps exactly the rows that
      pass every enabled filter, taken in order from the de-duplicated rows
      (from all rows when de-duplication is off). */
  lemma StagesExactly(rows: seq<Row>, opts: Options, inlier: seq<Row> -> Row -> bool)
    requires !opts.dropOutliers
    ensures Stages(rows, opts, inlier) == Filter(Deduplicated(rows, opts), KeptBy(opts))
  {
    var s1 := Deduplicated(rows, opts);
    var g := (row: Row) => opts.dropNonGermanArticles ==> IsGerman(row);
    var t := (row: Row) => opts.dropNewsTicker ==> row.numberSubheaders <= opts.subheadersThreshold;
    var f := (row: Row) => opts.dropArticlesWithForbiddenPattern ==> NoForbiddenPattern(row);
    var gt := (row: Row) => g(row) && t(row);
    var s2 := Stage(s1, opts.dropNonGermanArticles, IsGerman);
    var s4 := Stage(s2, opts.dropNewsTicker, NotTicker(opts.subheadersThreshold));
    assert Stages(rows, opts, inlier) == Stage(s4, opts.dropArticlesWithForbiddenPattern, NoForbiddenPattern);
    StageAsFilter(s1, opts.dropNonGermanArticles, IsGerman, g);
    StageAsFilter(s2, opts.dropNewsTicker, NotTicker(opts.subheadersThreshold), t);
    FilterFilter(s1, g, t, gt);
    StageAsFilter(s4, opts.dropArticlesWithForbiddenPattern, NoForbiddenPattern, f);
    FilterFilter(s1, gt, f, KeptBy(opts));
  }

  /** A stage is the filter "switched off, or passes". */
  lemma StageAsFilter(rows: seq<Row>, enabled: bool, keep: Row -> bool, q: Row -> bool)
    requires forall x :: q(x) == (enabled ==> keep(x))
    ensures Stage(rows, enabled, keep) == Filter(rows, q)
  {
    if enabled {
      FilterSamePredicate(rows, keep, q);
    } else {
      FilterAllPass(rows, q);
    }
  }

  /** The clean-up leaves a cleaned article whose organisation field is a
      list or missing, and flattens its body. */
  lemma ProcessArticleCleaned(a: Article)
    requires a.body.Sections?
    ensures Cleaned(ProcessArticle(a))
    ensures !ProcessArticle(a).authorOrganization.OrganizationName?
    ensures ProcessArticle(a).body == Joined(FlattenBody(a.body.sections))
    ensures ProcessArticle(a).newsOutlet == a.newsOutlet
  {
    ProcessedTitle(a);
    ProcessedDescription(a);
    ProcessedPersons(a);
  }

  lemma ProcessedTitle(a: Article)
    requires a.body.Sections?
    ensures Stripped(ProcessArticle(a).title)
  {
    StrippedIsFixpoint(a.title);
  }

  lemma ProcessedDescription(a: Article)
    requires a.body.Sections?
    ensures ProcessArticle(a).description.Some? && Stripped(ProcessArticle(a).description.value)
  {
    if a.description.Some? {
      StrippedIsFixpoint(a.description.value);
    }
  }

  lemma ProcessedPersons(a: Article)
    requires a.body.Sections?
    ensures forall j :: 0 <= j < |ProcessArticle(a).authorPerson| ==> ProcessArticle(a).authorPerson[j] != NoPerson
  {
  }

  /** Row by row, the clean-up of `ProcessArticle`; the derived columns stay. */
  lemma ProcessRowsCleaned(rows: seq<Row>)
    requires AllSections(rows)
    ensures forall k :: 0 <= k < |rows| ==>
      && Cleaned(ProcessRows(rows)[k].article)
      && ProcessRows(rows)[k].article.body == Joined(FlattenBody(rows[k].article.body.sections))
      && ProcessRows(rows)[k].formattedContent == rows[k].formattedContent
      && ProcessRows(rows)[k].numberSubheaders == rows[k].numberSubheaders
  {
    forall k | 0 <= k < |rows|
      ensures Cleaned(ProcessRows(rows)[k].article)
      ensures ProcessRows(rows)[k].article.body == Joined(FlattenBody(rows[k].article.body.sections))
    {
      ProcessArticleCleaned(rows[k].article);
    }
  }
}
