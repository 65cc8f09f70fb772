/** The script-side article check (Scripts/article_validator.py): an inclusive
    publication window, a minimum number of case-insensitive matches of the
    query in the text, and a minimum character distance between the first and
    the last match.  The query is matched as a literal string. */
module ArticleValidation {
  import opened Records
  import opened Text

  /** The validator's `config` dictionary. */
  datatype Config = Config(
    fromDate: Timestamp,
    toDate: Timestamp,
    minKeywordOccurrence: int,
    minLengthBtwKeywords: int)

  /** The fields of a scraped article the validator reads:
      `article["creation_date"]` and `article["content"]["title"]`. */
  datatype ScrapedArticle = ScrapedArticle(creationDate: Timestamp, title: string)

  /** The text the query is searched in: the paragraphs joined by `'.'`. */
  function SearchText(wholeText: seq<string>): string {
    JoinWith(".", wholeText)
  }

  /** Start offsets of the matches `re.finditer(query, text, re.IGNORECASE)`
      reports, for a query without metacharacters. */
  function Matches(wholeText: seq<string>, query: string): seq<nat> {
    FindAll(Lower(query), Lower(SearchText(wholeText)))
  }

  /** The message Python's `max` raises on an empty list. */
  const EmptyMaxError := "max() arg is an empty sequence"

  class ArticleValidator {
    const article: ScrapedArticle
    const config: Config

    constructor(article: ScrapedArticle, config: Config)
      ensures this.article == article && this.config == config
    {
      this.article := article;
      this.config := config;
    }

    /** `is_out_of_date`: outside the window, whose both ends are inclusive. */
    function IsOutOfDate(article: ScrapedArticle): (r: bool)
      ensures !r <==> config.fromDate <= article.creationDate <= config.toDate
    {
      if article.creationDate >= config.fromDate && article.creationDate <= config.toDate then false else true
    }

    /** `keyword_count`: the number of non-overlapping matches, left to right. */
    function KeywordCount(wholeText: seq<string>, query: string): (r: nat)
      ensures r == |Matches(wholeText, query)|
      ensures r > 0 <==> Contains(Lower(SearchText(wholeText)), Lower(query))
      ensures r <= |SearchText(wholeText)| + 1
    {
      MatchesCounted(wholeText, query);
      |Matches(wholeText, query)|
    }

    /** `is_valid_inter_keyword_length`: the largest match offset minus the
        smallest reaches `min_length_btw_keywords`; with no match `max` raises. */
    method IsValidInterKeywordLength(wholeText: seq<string>, query: string) returns (r: Result<bool>)
      ensures r.Err? <==> Matches(wholeText, query) == []
      ensures r.Err? ==> r.error == EmptyMaxError
      ensures r.Ok? ==> (r.value <==> FarApart(Matches(wholeText, query), config.minLengthBtwKeywords))
    {
      var matches := Matches(wholeText, query);
      var keywordLocs: seq<int> := [];
      for k := 0 to |matches|
        invariant keywordLocs == matches[..k]
      {
        keywordLocs := keywordLocs + [matches[k]];
      }
      assert keywordLocs == matches;
      if keywordLocs == [] {
        return Err(EmptyMaxError);
      }
      SpreadOfMatches(wholeText, query);
      if Max(keywordLocs) - Min(keywordLocs) >= config.minLengthBtwKeywords {
        return Ok(true);
      } else {
        return Ok(false);
      }
    }

    /** `is_valid_article`: the date check, then the count, then the spread;
        valid when all three pass. */
    method IsValidArticle(article: ScrapedArticle, query: string, wholeText: seq<string>) returns (r: Result<bool>)
      ensures r == Verdict(config, article, query, wholeText)
    {
      if IsOutOfDate(article) {
        return Ok(false);
      } else if KeywordCount(wholeText, query) < config.minKeywordOccurrence {
        return Ok(false);
      } else {
        var spread := IsValidInterKeywordLength(wholeText, query);
        if spread.Err? {
          return spread;
        }
        SpreadOfMatches(wholeText, query);
        return Ok(spread.value);
      }
    }
  }

  /** Some two matches lie at least `gap` characters apart. */
  predicate FarApart(ms: seq<nat>, gap: int) {
    exists i, j :: 0 <= i < |ms| && 0 <= j < |ms| && ms[j] as int - ms[i] >= gap
  }

  function Max(s: seq<int>): (m: int)
    requires s != []
    ensures m in s && forall k :: 0 <= k < |s| ==> s[k] <= m
  {
    if |s| == 1 then s[0] else var t := Max(s[1..]); if s[0] >= t then s[0] else t
  }

  function Min(s: seq<int>): (m: int)
    requires s != []
    ensures m in s && forall k :: 0 <= k < |s| ==> m <= s[k]
  {
    if |s| == 1 then s[0] else var t := Min(s[1..]); if s[0] <= t then s[0] else t
  }

  /** What the validator decides, stated on the match list: out of date, too
      few matches, no match at all (the `max` exception, reachable only when
      `min_keyword_occurrence <= 0`), or the distance between the first and
      the last match. */
  function Verdict(config: Config, article: ScrapedArticle, query: string, wholeText: seq<string>): Result<bool> {
    var ms := Matches(wholeText, query);
    if !(config.fromDate <= article.creationDate <= config.toDate) then Ok(false)
    else if |ms| < config.minKeywordOccurrence then Ok(false)
    else if ms == [] then Err(EmptyMaxError)
    else Ok(ms[|ms| - 1] as int - ms[0] >= config.minLengthBtwKeywords)
  }

  lemma MatchesCounted(wholeText: seq<string>, query: string)
    ensures |Matches(wholeText, query)| > 0 <==> Contains(Lower(SearchText(wholeText)), Lower(query))
    ensures |Matches(wholeText, query)| <= |SearchText(wholeText)| + 1
  {
    FindAllCounted(Lower(query), Lower(SearchText(wholeText)));
  }

  /** A literal is found at least once exactly when it occurs, and a string
      of length `n` holds at most `n + 1` matches. */
  lemma FindAllCounted(p: string, s: string)
    ensures |FindAll(p, s)| > 0 <==> Contains(s, p)
    ensures |FindAll(p, s)| <= |s| + 1
  {
    var ms := FindAll(p, s);
    if |ms| > 0 {
      FindAllSoundAt(p, s, 0);
      assert Occurs(p, s, ms[0]);
    }
    if Contains(s, p) {
      var i :| 0 <= i <= |s| - |p| && Occurs(p, s, i);
      FindAllCompleteAt(p, s, i);
    }
    FindAllSpaced(p, s);
    FindAllInRange(p, s);
    if |ms| > 0 {
      SpacedGrows(ms, Step(p), |ms| - 1);
      assert ms[|ms| - 1] <= |s|;
    }
  }

  /** The `k`-th entry of an increasing list lies at least `k` past the first. */
  lemma {:induction false} SpacedGrows(r: seq<nat>, gap: nat, k: nat)
    requires gap >= 1 && Spaced(r, gap) && k < |r|
    ensures r[0] + k <= r[k]
  {
    if k > 0 {
      SpacedGrows(r, gap, k - 1);
      assert r[k - 1] + gap <= r[k];
    }
  }

  /** The matches come in increasing order, so the largest minus the smallest
      is the last minus the first, and that is the largest distance between
      any two of them. */
  lemma SpreadOfMatches(wholeText: seq<string>, query: string)
    requires Matches(wholeText, query) != []
    ensures var ms := Matches(wholeText, query);
      Max(ms) == ms[|ms| - 1] && Min(ms) == ms[0] &&
      forall g :: FarApart(ms, g) <==> ms[|ms| - 1] as int - ms[0] >= g
  {
    var p, s := Lower(query), Lower(SearchText(wholeText));
    var ms := FindAll(p, s);
    assert ms == Matches(wholeText, query);
    FindAllSpaced(p, s);
    SpreadOfSpaced(ms, Step(p));
  }

  lemma SpreadOfSpaced(ms: seq<nat>, gap: nat)
    requires gap >= 1 && Spaced(ms, gap) && ms != []
    ensures Max(ms) == ms[|ms| - 1] && Min(ms) == ms[0]
    ensures forall g :: FarApart(ms, g) <==> ms[|ms| - 1] as int - ms[0] >= g
  {
    SpacedBetween(ms, gap);
    ExtremesOfSorted(ms);
    FarApartOfSorted(ms);
  }

  lemma SpacedBetween(ms: seq<nat>, gap: nat)
    requires gap >= 1 && Spaced(ms, gap) && ms != []
    ensures forall k :: 0 <= k < |ms| ==> ms[0] <= ms[k] <= ms[|ms| - 1]
  {
    forall k | 0 <= k < |ms| ensures ms[0] <= ms[k] <= ms[|ms| - 1] {
      SpacedGrows(ms, gap, k);
      SpacedBelow(ms, gap, k);
    }
  }

  lemma ExtremesOfSorted(ms: seq<nat>)
    requires ms != [] && forall k :: 0 <= k < |ms| ==> ms[0] <= ms[k] <= ms[|ms| - 1]
    ensures Max(ms) == ms[|ms| - 1] && Min(ms) == ms[0]
  {
    var mx := Max(ms);
    var i :| 0 <= i < |ms| && ms[i] == mx;
    var mn := Min(ms);
    var j :| 0 <= j < |ms| && ms[j] == mn;
  }

  lemma FarApartOfSorted(ms: seq<nat>)
    requires ms != [] && forall k :: 0 <= k < |ms| ==> ms[0] <= ms[k] <= ms[|ms| - 1]
    ensures forall g :: FarApart(ms, g) <==> ms[|ms| - 1] as int - ms[0] >= g
  {
    var last := |ms| - 1;
    forall g | FarApart(ms, g) ensures ms[last] as int - ms[0] >= g {
      var i, j :| 0 <= i < |ms| && 0 <= j < |ms| && ms[j] as int - ms[i] >= g;
      assert ms[0] <= ms[i] && ms[j] <= ms[last];
    }
    forall g | ms[last] as int - ms[0] >= g ensures FarApart(ms, g) {
      assert ms[last] as int - ms[0] >= g;
    }
  }

  /** No entry of an increasing list exceeds the last one. */
  lemma {:induction false} SpacedBelow(r: seq<nat>, gap: nat, k: nat)
    requires gap >= 1 && Spaced(r, gap) && k < |r|
    ensures r[k] <= r[|r| - 1]
    decreases |r| - k
  {
    if k < |r| - 1 {
      SpacedBelow(r, gap, k + 1);
      assert r[k] + gap <= r[k + 1];
    }
  }

  /** With exactly one match the distance is 0, so the spread check passes
      only when `min_length_btw_keywords <= 0`. */
  lemma SingleMatchSpread(config: Config, article: ScrapedArticle, query: string, wholeText: seq<string>)
    requires |Matches(wholeText, query)| == 1
    requires config.fromDate <= article.creationDate <= config.toDate
    requires config.minKeywordOccurrence <= 1
    ensures Verdict(config, article, query, wholeText) == Ok(config.minLengthBtwKeywords <= 0)
  {
  }

  /** Once at least one match is demanded, the `max` exception cannot occur,
      and a valid article passed all three checks. */
  lemma NoErrorWhenMatchesRequired(config: Config, article: ScrapedArticle, query: string, wholeText: seq<string>)
    requires config.minKeywordOccurrence >= 1
    ensures Verdict(config, article, query, wholeText).Ok?
    ensures Verdict(config, article, query, wholeText) == Ok(true) <==>
      config.fromDate <= article.creationDate <= config.toDate &&
      |Matches(wholeText, query)| >= config.minKeywordOccurrence &&
      FarApart(Matches(wholeText, query), config.minLengthBtwKeywords)
  {
    var ms := Matches(wholeText, query);
    if ms != [] {
      SpreadOfMatches(wholeText, query);
    }
  }
}
