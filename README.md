# renewrs corpus extraction — a verified model of its core

The repository crawls German news sites and turns the articles into a
corpus. This project models the logic that decides what enters that
corpus, and proves what it guarantees:

- **The relevance gate** of every crawler (`BaseSpider`, module `Relevance`,
  file `base_spider.dfy`). It has three checks:
  - an inclusive date window;
  - a minimum word count;
  - a keyword test on the lower-cased tokens of the text.

  The keyword test finds single stems and two- and three-word compound
  stems. It records each matching token at `tokens.index(token)`, that is,
  at the first index of its string. It then asks for enough matches and for
  one pair of positions far enough apart. On success it records the stems
  that matched in `query_keywords`.
- **The corpus preprocessing** (module `Preprocess`):
  - the HTML-tagged `formatted_content` of an article;
  - the derived columns (length, `<h2>` count, forbidden pattern, language);
  - the row filters, which work on a DataFrame modelled as a `Frame` object
    whose row sequence the in-place filters overwrite;
  - `process_data`, which runs the enabled filters in a fixed order and then
    cleans the fields.
- **The dataset loader** (`Loader`, module `Loading`). It cleans the fields
  column by column and drops exact duplicates. It then keeps the latest
  version of articles crawled several times under one title, and keeps the
  German articles.
- **The script-side validator** (`ArticleValidator`, module
  `ArticleValidation`). It has a date window, a count of case-insensitive
  query matches, and a distance between the first and the last match.
- **`remove_empty_paragraphs`** (module `Utils`).
- **The headline regrouping loop** `extract_paragraphs_from_article` of the
  epochtimes and rationalgalerie script spiders (module
  `ParagraphGrouping`). Both files hold the same loop.

Supporting modules:

- `Text` models Python's `str.split()`, `str.strip()`, `str.lower()`,
  `sep.join`, `in` on strings, and the non-overlapping left-to-right search
  of `re.finditer` / `re.findall` on a literal pattern.
- `Patterns` models the three regular expressions of the preprocessing.
- `Seqs` models boolean-mask selection, `drop_duplicates` with
  `keep='first'`, and the subsequence relation they satisfy.
- `Articles` models the article record and the field clean-up shared by the
  preprocessing and the loader.
- `Records` holds `Option`, `Result` and the parsed date type.

Dates in two places are modelled differently:

- The crawler and the validator compare parsed dates. These are modelled as
  integers on a time line.
- The loader compares the `'dd.mm.yyyy'` strings the crawlers write, never
  converted. So `min()` and `!=` there are Python's string order, which is
  modelled exactly. `Loading.DateOrderCaveat` shows what that means: the 1st
  of February 2020 comes before the 31st of January 2020.

## Model

| member | source | states |
|---|---|---|
| Relevance.BaseSpider.constructor | news_crawler/spiders/__init__.py:22-60 | the configuration is stored; the configured stems are split by `SplitStems`; `keywords_combinations` and `query_keywords` start empty |
| Relevance.SplitStemsSeparates | news_crawler/spiders/__init__.py:44-46 | `keywords` holds exactly the configured one-word stems and `compound_keywords` exactly those of more than one word, both in configured order |
| Relevance.BaseSpider.IsOutOfDate | news_crawler/spiders/__init__.py:63-70 | false exactly when `start_date <= date <= end_date`, both bounds inclusive |
| Relevance.BaseSpider.HasMinLength | news_crawler/spiders/__init__.py:72-79 | true exactly when the number of word starts of the text reaches `article_length` |
| Text.SplitCountsWordStarts | news_crawler/spiders/__init__.py:79 | `len(text.split())` is the number of places where a non-space character follows a space or the start |
| Relevance.BaseSpider.HasValidKeywords | news_crawler/spiders/__init__.py:81-94 | the text is lower-cased and split; the result is the gate's verdict on the matches, since `keywords_combinations` is always empty; on success `query_keywords` becomes the recorded stems, on failure it is unchanged |
| Relevance.BaseSpider.HasValidStems | news_crawler/spiders/__init__.py:97-159 | true exactly when the revised matches are non-empty, at least `keywords_min_frequency` many, and two of them are at least `keywords_min_distance` apart; updates `query_keywords` only on success |
| Relevance.BaseSpider.CollectMatches | news_crawler/spiders/__init__.py:104-142 | returns the single-stem matches revised by the two-word and then the three-word stage, and the compound stems that matched |
| Relevance.BaseSpider.MergeDoubles | news_crawler/spiders/__init__.py:110-126 | applies the two-word stage to the matches and appends each matched two-word stem once |
| Relevance.BaseSpider.MergeTriples | news_crawler/spiders/__init__.py:129-142 | applies the three-word stage to the matches and appends the three-word stem of every match |
| Relevance.Index | news_crawler/spiders/__init__.py:105 | `tokens.index(x)` is a position holding `x`, and no earlier position holds it |
| Relevance.SingleHitsCount | news_crawler/spiders/__init__.py:105 | one match is recorded per matching token, repeated tokens counted each time |
| Relevance.SingleHitsAtFirstIndex | news_crawler/spiders/__init__.py:105 | every single-stem match is a token containing a stem, recorded at the first index of its string |
| Relevance.StemHitsSound | news_crawler/spiders/__init__.py:115 | a compound match found at a position has all its words contained in the consecutive tokens there |
| Relevance.StemHitsComplete | news_crawler/spiders/__init__.py:115 | every stem whose words are contained in the consecutive tokens at a position yields a match there |
| Relevance.CompoundHitsSound | news_crawler/spiders/__init__.py:114-130 | every compound match starts at the first index of its token, and its stem's words are in the consecutive tokens |
| Relevance.CompoundHitsComplete | news_crawler/spiders/__init__.py:114-130 | every token, taken at its first index, that starts all the words of a stem is reported with that stem |
| Relevance.CompoundHitsOfNoStems | news_crawler/spiders/__init__.py:111-114 | with no stems of a length there are no compound matches of that length |
| Relevance.CompoundHitsOwnToken | news_crawler/spiders/__init__.py:115 | a compound match's position holds its token |
| Relevance.DoubleStageKeeps | news_crawler/spiders/__init__.py:116-120 | with two-word matches present, a single match survives exactly when the position before it starts no two-word match |
| Relevance.TripleStageKeeps | news_crawler/spiders/__init__.py:132-136 | with three-word matches present, a match survives exactly when neither its position nor the next one starts a three-word match |
| Relevance.AddedOncePerStart | news_crawler/spiders/__init__.py:123 | the de-duplicated compound matches are exactly the compound matches' (position, token) pairs, and no start position occurs twice |
| Relevance.AcceptsNeedsTwoApart | news_crawler/spiders/__init__.py:145-152 | an accepted article has at least `keywords_min_frequency` and at least two matches, with one pair `keywords_min_distance` apart |
| Relevance.TwoApartAccepted | news_crawler/spiders/__init__.py:145-152 | conversely, enough matches with one pair far enough apart are accepted |
| Relevance.MatchedCompoundStemsMembers | news_crawler/spiders/__init__.py:126-142 | the compound stems recorded are exactly the stems of the two- and three-word matches |
| Relevance.RecordedStemsMembers | news_crawler/spiders/__init__.py:155-157 | a stem is recorded exactly when it is a single stem contained in some matched token or a matched compound stem |
| Relevance.NoCompoundGate | news_crawler/spiders/__init__.py:110 | without compound stems the checks see exactly the single-stem matches and no compound stem is recorded |
| Relevance.NoCompoundMatchGate | news_crawler/spiders/__init__.py:114-139 | when no compound stem matches, the two stages change nothing and the checks see exactly the single-stem matches |
| Relevance.FewMatchesRejected | news_crawler/spiders/__init__.py:145-149 | when no compound stem matches (in particular when none is configured), fewer matching tokens than `keywords_min_frequency`, counted with repeats, reject the article |
| Relevance.RepeatedWordRejected | news_crawler/spiders/__init__.py:146-152 | when every matching token is the same word and no compound stem matches, all matches share its first index, so any positive minimum distance rejects the article however far apart the repeats are |
| Relevance.GateHitsAtFirstIndex | news_crawler/spiders/__init__.py:105-139 | every match the checks see, single or compound, sits at the first index of its token |
| Relevance.CapitalStemNeverMatches | news_crawler/spiders/__init__.py:90 | only the text is lower-cased, so a stem with an ASCII capital is contained in no token |
| Relevance.BaseSpider.GetQueryKeywords | news_crawler/spiders/__init__.py:165-169 | returns the stems recorded by the last accepted article |
| Preprocess.AddHtmlTag | preprocess_data.py:46-47 | the tagged text is the text plus two tags of the given name, five brackets and slashes longer |
| Preprocess.AddHtmlTagParts | preprocess_data.py:46-47 | the opening tag, the text and the closing tag stand at their offsets |
| Preprocess.H1Tag | preprocess_data.py:25 | the title is wrapped as `<h1>` + title + `</h1>` |
| Preprocess.FormattedContent | preprocess_data.py:23-43 | the formatted content always begins with `<h1>` + title + `</h1>` |
| Preprocess.FormatContent | preprocess_data.py:23-43 | the loop's text is the title in `<h1>` followed by every body entry's contribution, in body order |
| Preprocess.FormattedContentAppend | preprocess_data.py:27-41 | the entries contribute in body order: the content of `a + b` is that of `a` followed by what `b` contributes |
| Preprocess.EmptySectionContributesNothing | preprocess_data.py:29-30 | an entry with an empty paragraph list, wherever it stands, changes nothing |
| Preprocess.GetParagraphs | preprocess_data.py:50-53 | defines `_get_paragraphs`; never more paragraphs than given, and `Preprocess.GetParagraphsKeepsNonWidgets` states which and in what order |
| Preprocess.GetParagraphsKeepsNonWidgets | preprocess_data.py:52 | every result is a non-widget paragraph in `<p>` tags, every non-widget paragraph is in the result, kept plus removed make the input, and the result is an order-preserving selection of the input, each paragraph tagged, position by position |
| Preprocess.WidgetPatternDots | preprocess_data.py:52 | the dots of `trends.embed.renderExploreWidget` match any character but a newline, so an underscore spelling is removed too |
| Preprocess.ContainsForbiddenPattern | preprocess_data.py:56-61 | true exactly when one of the patterns matches somewhere in the text |
| Preprocess.VideoPatternIsAGroup | preprocess_data.py:18 | the parentheses of the first pattern only group: "Die Woche COMPACT Video" matches, the text with parentheses does not |
| Preprocess.LockedPatternDot | preprocess_data.py:18 | the final dot of the second pattern matches any character but a newline, such as `!` |
| Preprocess.AnnotateArticle | preprocess_data.py:68-80 | the row carries the formatted content, its detected language, its length, its `<h2>` count and its forbidden-pattern flag |
| Preprocess.AnnotateRawData | preprocess_data.py:64-83 | every article, in order, gets its derived columns |
| Preprocess.SubheaderCount | preprocess_data.py:77 | when no title, headline or paragraph holds a `<`, the `<h2>` count is the number of entries with a headline and a non-empty paragraph list |
| Preprocess.AnnotatedSubheaders | preprocess_data.py:77 | the `number_subheaders` column of an annotated row is that count |
| Preprocess.DropDuplicates | preprocess_data.py:109-114 | a new frame holding the first row of every (outlet, content) pair, in order |
| Seqs.DedupKeepsFirst | preprocess_data.py:111-112 | the first row with a key is kept |
| Seqs.DedupDistinct | preprocess_data.py:111-112 | no key occurs twice after de-duplication |
| Seqs.DedupSubsequence | preprocess_data.py:111-112 | de-duplication keeps rows of the input in their order |
| Seqs.DedupIdempotent | preprocess_data.py:109-114 | a second de-duplication removes nothing |
| Preprocess.DropNonGermanArticles | preprocess_data.py:118-122 | the frame itself keeps exactly its rows whose language is `'de'`, in order |
| Preprocess.DropOutliers | preprocess_data.py:126-142 | the frame itself keeps exactly the rows its inlier test accepts |
| Preprocess.DropNewsTickers | preprocess_data.py:146-151 | the frame itself keeps exactly the rows with at most the threshold of subheaders |
| Preprocess.DropArticlesWithForbiddenPattern | preprocess_data.py:155-160 | the frame itself keeps exactly the rows without a forbidden pattern |
| Preprocess.RunStages | preprocess_data.py:166-189 | the enabled stages run in the order duplicates, language, outliers, tickers, patterns; with de-duplication on, the caller's frame is left as it was |
| Preprocess.StageShrinks | preprocess_data.py:166-189 | a stage keeps rows of its input in order, and when enabled only rows that pass it |
| Preprocess.StagesSubsequence | preprocess_data.py:166-189 | the stages keep rows of the input in their order |
| Preprocess.StagesGuarantee | preprocess_data.py:166-189 | every row left passes every enabled filter, and with de-duplication on no (outlet, content) pair repeats |
| Preprocess.StagesExactly | preprocess_data.py:166-189 | without the outlier stage, the result is exactly the de-duplicated rows that pass every enabled filter |
| Preprocess.ProcessData | preprocess_data.py:163-208 | the returned frame holds the cleaned rows left by the stages; with de-duplication on it is a new frame |
| Preprocess.UnwrapPersons | preprocess_data.py:202 | a nested first author list replaces the list; otherwise the list stays |
| Preprocess.WrapOrganization | preprocess_data.py:203 | a single organisation name becomes a one-element list; anything else stays |
| Preprocess.ProcessArticleCleaned | preprocess_data.py:191-204 | the clean-up gives a stripped title and description, no missing author, a list of recommendations, a listed organisation and the flattened body |
| Preprocess.ProcessRowsCleaned | preprocess_data.py:191-204 | every row is cleaned that way and keeps its derived columns |
| Articles.FlattenBodyAppend | data_loading.py:49-50 | the body is flattened entry by entry in body order, joined by one space, and entries with nothing kept add no space |
| Articles.FlattenSection | data_loading.py:49-50 | an entry contributes its kept paragraphs joined by spaces; its headline is dropped |
| Articles.KeptJoinEmpty | data_loading.py:50 | joining kept paragraphs gives `''` only when there are none |
| Articles.FlattenBodySplits | data_loading.py:50 | when every kept paragraph is one word, splitting the flattened body gives those paragraphs back |
| Articles.CleanDescription | data_loading.py:54-57 | a missing description becomes `''`, any other is stripped |
| Articles.DropMissingPersons | data_loading.py:58 | no `None` author remains, every other author is kept, in order, and the result is shorter than the input by exactly the number of `None` authors, so a repeated author is kept as often as it occurs |
| Articles.FixRecommendations | data_loading.py:61 | a missing (NaN) value becomes an empty list, a list stays |
| Articles.StrippedIsFixpoint | data_loading.py:53-54 | a stripped string has no whitespace at either end, and stripping it again changes nothing |
| Text.StripIsTrimmedSlice | data_loading.py:53 | `strip()` returns the slice between the whitespace margins, and it begins and ends with a non-space |
| Text.StripIdempotent | data_loading.py:53 | stripping twice is stripping once |
| Loading.Loader.constructor | data_loading.py:37-38 | the loader holds the concatenated raw corpus |
| Loading.Loader.PreprocessCorpus | data_loading.py:41-75 | the dataset becomes the German survivors of the de-duplicated, cleaned corpus |
| Loading.FlattenBodies | data_loading.py:49-50 | every body is flattened and no row is added or lost |
| Loading.StripTitles | data_loading.py:53 | one row per row, bodies unchanged |
| Loading.StripDescriptions | data_loading.py:54 | one row per row, bodies unchanged |
| Loading.FillDescriptions | data_loading.py:57 | one row per row, bodies unchanged |
| Loading.DropMissingAuthors | data_loading.py:58 | one row per row, bodies unchanged |
| Loading.FixAllRecommendations | data_loading.py:61 | one row per row, bodies unchanged |
| Loading.CleanAll | data_loading.py:49-61 | the column steps keep the number of rows and flatten every body |
| Loading.CleanRow | data_loading.py:49-61 | row by row, the column steps amount to cleaning each article on its own |
| Loading.CleanAllRows | data_loading.py:49-61 | every row of the cleaned corpus is its article cleaned, and is cleaned |
| Loading.CleanArticleCleaned | data_loading.py:53-61 | a cleaned article has a flattened body, stripped title and description, no missing author and a list of recommendations |
| Loading.Deduplicated | data_loading.py:65 | rows of the input in order, and no (title, description, body) repeats |
| Loading.DeduplicatedKeepsFirst | data_loading.py:65 | the first row of each content is the one kept |
| Loading.LexIrreflexive | data_loading.py:89 | no date string comes before itself |
| Loading.LexTransitive | data_loading.py:89 | Python's string order is transitive |
| Loading.LexTotal | data_loading.py:89 | any two different date strings are ordered one way or the other |
| Loading.DateOrderCaveat | data_loading.py:87-89 | as strings, `'01.02.2020'` comes before `'31.01.2020'` |
| Loading.MinDate | data_loading.py:89 | `min()` of a column is one of its values |
| Loading.MinDateLeast | data_loading.py:89 | no value of the column comes before its minimum |
| Loading.ArgMin | data_loading.py:99 | `idxmin()` is a position of the column |
| Loading.ArgMinFirstLeast | data_loading.py:99 | `idxmin()` holds the least length, and every earlier length is larger |
| Loading.GroupFromExact | data_loading.py:80-81 | a title's group holds exactly the positions with that title, increasing |
| Loading.GroupsFromAreTitleGroups | data_loading.py:80-82 | every group is the group of a title occurring at least twice |
| Loading.GroupsFromComplete | data_loading.py:80-82 | every title occurring at least twice has its group |
| Loading.TitleGroupPresent | data_loading.py:80-82 | a title occurring at least twice has its group among the groups |
| Loading.TitleGroupValid | data_loading.py:81 | a group has at least two increasing positions inside the dataset |
| Loading.InOwnGroup | data_loading.py:81 | a group is the group of each of its rows' titles |
| Loading.DropsByCreation | data_loading.py:87-91 | when the first two rows differ in creation date, exactly the rows whose creation date is the group's least go, and no row of the group has an earlier one |
| Loading.DropsByModification | data_loading.py:92-96 | otherwise, when they differ in last-modified date, exactly the rows whose last-modified date is the least go |
| Loading.DropsShortest | data_loading.py:97-100 | otherwise exactly one row goes: the first with the shortest body |
| Loading.GroupKeepsOne | data_loading.py:87-100 | every group keeps at least one of its rows |
| Loading.GroupDropsWithin | data_loading.py:87-100 | a group drops only its own rows |
| Loading.DropsOfOwn | data_loading.py:84-100 | a row is dropped by the loop exactly when the one group that can hold it is present and drops it |
| Loading.DropsOfTitle | data_loading.py:84-100 | a row is dropped exactly when its own title's group is present and drops it |
| Loading.UniqueTitleKept | data_loading.py:80-84 | a row whose title occurs once is never dropped |
| Loading.UpdatedTitleDrops | data_loading.py:84-100 | a row whose title occurs more than once goes exactly when its group drops it |
| Loading.EveryTitleKeepsOne | data_loading.py:84-100 | every title keeps at least one row |
| Loading.KeptRows | data_loading.py:91-100 | dropping rows by label keeps the others, in order |
| Loading.SurvivorsExact | data_loading.py:84-100 | the survivors keep their order, and every row not dropped survives |
| Loading.KeptRowsOnly | data_loading.py:91-100 | every row left by dropping labels is a row whose label was not dropped |
| Loading.SurvivorsExactly | data_loading.py:84-100 | when no content repeats, as after the duplicate removal of line 65, a row survives exactly when it is not dropped, so a dropped row is gone |
| Loading.DropInTurn | data_loading.py:91-100 | dropping one set of labels and then another drops both |
| Loading.Loader.DropOutdatedArticles | data_loading.py:78-100 | every group is decided on the dataset as it was before the first drop; the dataset becomes its survivors; when no content repeats, a row stays exactly when its group does not drop it |
| Loading.CorpusGuarantees | data_loading.py:41-75 | the loaded dataset holds cleaned German articles and no content twice |
| Loading.SurvivorsKeep | data_loading.py:70 | dropping outdated versions keeps articles cleaned and contents distinct |
| Loading.GermanKeep | data_loading.py:73 | the language filter keeps articles cleaned and contents distinct, and every article left is detected as `'de'` |
| ArticleValidation.ArticleValidator.constructor | Scripts/article_validator.py:6-8 | stores the article and the configuration |
| ArticleValidation.ArticleValidator.IsOutOfDate | Scripts/article_validator.py:10-17 | false exactly when `from_date <= creation_date <= to_date`, both bounds inclusive |
| ArticleValidation.ArticleValidator.KeywordCount | Scripts/article_validator.py:19-21 | the number of non-overlapping case-insensitive matches in the paragraphs joined by `'.'`; non-zero exactly when the query occurs |
| Text.FindAllCorrect | Scripts/article_validator.py:21 | every reported offset is an occurrence, consecutive matches do not overlap, and every occurrence lies in or at a reported match |
| ArticleValidation.MatchesCounted | Scripts/article_validator.py:21 | some match is found exactly when the lower-cased query occurs in the lower-cased text |
| ArticleValidation.ArticleValidator.IsValidInterKeywordLength | Scripts/article_validator.py:23-31 | without a match `max` raises; otherwise true exactly when two matches lie at least `min_length_btw_keywords` apart |
| ArticleValidation.Max | Scripts/article_validator.py:28 | an element that no element exceeds |
| ArticleValidation.Min | Scripts/article_validator.py:28 | an element that exceeds no element |
| ArticleValidation.SpreadOfMatches | Scripts/article_validator.py:25-28 | the largest offset minus the smallest is the last minus the first, the largest distance between two matches |
| ArticleValidation.ArticleValidator.IsValidArticle | Scripts/article_validator.py:33-46 | the verdict of the date check, then the count, then the spread |
| ArticleValidation.NoErrorWhenMatchesRequired | Scripts/article_validator.py:39-42 | once at least one match is demanded `max` cannot raise, and an article is valid exactly when all three checks pass |
| ArticleValidation.SingleMatchSpread | Scripts/article_validator.py:28 | with exactly one match, a date inside the window and at most one required match, the article is valid exactly when `min_length_btw_keywords <= 0` |
| Utils.RemoveEmptyParagraphs | news_crawler/utils.py:5-7 | no `' '` or `''` is left, every other paragraph is kept, in order |
| Utils.RemovedAreExactlyTheEmptyOnes | news_crawler/utils.py:7 | kept and removed paragraphs make up the input |
| Utils.RemoveEmptyParagraphsIdempotent | news_crawler/utils.py:7 | a second application removes nothing |
| Utils.OnlyExactBlanksRemoved | news_crawler/utils.py:7 | two spaces or a tab are kept; only the two exact strings go |
| Patterns.LiteralFound | preprocess_data.py:59 | a pattern without metacharacters is found exactly where its string occurs |
| Patterns.DottedMatchesItself | preprocess_data.py:52 | a dotted pattern matches wherever its own string occurs |
| ParagraphGrouping.ExtractParagraphs | Scripts/spiders/epochtimes_spider.py:33-57 | the loop's entries are the reference grouping: empty texts skipped, lone texts before the first headline as string entries, a headline's following texts as one list (the loop in Scripts/spiders/rationalgalerie_spider.py, lines 35-59, is the same) |
| ParagraphGrouping.GroupedValues | Scripts/spiders/epochtimes_spider.py:40-56 | the values, in order, are exactly the non-empty texts that are not headlines, each once |
| ParagraphGrouping.GroupedShape | Scripts/spiders/rationalgalerie_spider.py:45-58 | string entries come first under the key `''`; every later entry is a headline with a non-empty list |
| ParagraphGrouping.HeadlineWithoutParagraphs | Scripts/spiders/epochtimes_spider.py:44-45 | a headline followed by another headline, or by the end, produces no entry |
| ParagraphGrouping.GroupingExample | Scripts/spiders/epochtimes_spider.py:40-57 | a worked page: empty texts go, a lone text stands alone, a headline collects the rest |
| Relevance.SplitStems | news_crawler/spiders/__init__.py:44-46 | definition: the configured stems split into the one-word stems and the longer ones, proved by `Relevance.SplitStemsSeparates` |
| Relevance.SingleHits | news_crawler/spiders/__init__.py:105 | definition: one (first index, token) match per token containing a single stem, in token order |
| Relevance.CompoundHits | news_crawler/spiders/__init__.py:114-130 | definition: one (first index, token, stem) match per token and compound stem whose words lie in the tokens from that index on |
| Relevance.DoubleStage | news_crawler/spiders/__init__.py:116-123 | definition: with two-word matches, drop the matches right after a two-word start and add each two-word start once; otherwise the matches unchanged |
| Relevance.TripleStage | news_crawler/spiders/__init__.py:132-139 | definition: with three-word matches, drop the matches at or right before a three-word start and add each three-word start once; otherwise the matches unchanged |
| Relevance.GateHits | news_crawler/spiders/__init__.py:104-139 | definition: the single-stem matches revised by the two-word and then the three-word stage |
| Relevance.Accepts | news_crawler/spiders/__init__.py:145-152 | definition: some match, at least `keywords_min_frequency` matches, and two of them at least `keywords_min_distance` apart |
| Relevance.RecordedStems | news_crawler/spiders/__init__.py:155-157 | the single stems contained in some matched token, then the matched compound stems, each once |
| Preprocess.SectionHtml | preprocess_data.py:29-41 | definition: nothing for an empty paragraph list, otherwise the headline in `<h2>` (none for `''`) and the tagged non-widget paragraphs |
| Preprocess.BodyHtml | preprocess_data.py:27-41 | definition: the body entries' pieces concatenated in body order |
| Preprocess.HasForbiddenPattern | preprocess_data.py:56-61 | definition: one of the two patterns matches at some offset of the text |
| Preprocess.Annotated | preprocess_data.py:68-80 | definition: the derived columns of a row agree with its title and body |
| Preprocess.Stages | preprocess_data.py:166-189 | definition: the enabled stages applied in source order |
| Preprocess.ProcessArticle | preprocess_data.py:192-204 | definition: the field clean-up of one row, step by step |
| Articles.FlattenBody | data_loading.py:49-50 | definition: the paragraphs of all entries, without `''` and `' '`, joined by one space |
| Loading.GroupDrops | data_loading.py:87-100 | definition: the labels one title group drops, by creation date, else by last-modified date, else the shortest body |
| Loading.TitleGroups | data_loading.py:80-82 | definition: the positions of each title occurring at least twice, one group per title, in first-occurrence order |
| Loading.Survivors | data_loading.py:84-100 | definition: the rows whose label no group drops, in order |
| Loading.CleanArticle | data_loading.py:49-61 | definition: the column steps of lines 49-61 applied to one article |
| Loading.IsGerman | data_loading.py:73 | definition: the detector labels the flattened body `'de'` |
| ParagraphGrouping.Grouped | Scripts/spiders/epochtimes_spider.py:40-57 | reference definition: the non-empty texts regrouped, lone texts first, then the headline sections |
| ParagraphGrouping.Lead | Scripts/spiders/epochtimes_spider.py:44-52 | definition: each text before the first headline as its own entry under `''`, then the headline sections |
| ParagraphGrouping.Blocks | Scripts/spiders/epochtimes_spider.py:44-57 | definition: a headline's run of following texts as one list entry, when non-empty, then the later headlines' sections |
| ArticleValidation.Matches | Scripts/article_validator.py:21 | definition: the start offsets of the non-overlapping lower-cased matches in the paragraphs joined by `'.'` |
| ArticleValidation.Verdict | Scripts/article_validator.py:33-46 | definition: out of date, too few matches, the `max` error when there is no match, otherwise the first-to-last spread against the gap |

## Left out

- Page scraping: the per-outlet spiders, their XPath and CSS selectors, HTTP callbacks, Selenium, and the BeautifulSoup text extraction before the regrouping loop. The loop receives the texts as a sequence of strings.
- Relevance.BaseSpider.constructor: its settings lookup and its `NotConfigured` exceptions become the constructor's preconditions. Date parsing with `strptime` is left out; dates arrive parsed as integers.
- Relevance.BaseSpider.HasValidKeywords: the source raises `IndexError` when the first word of a compound stem matches a token whose first index is too close to the end. The model requires that this cannot happen (`NoIndexError`).
- `_has_valid_combinations_keywords` is an empty stub. Its `None` is treated as false, and `keywords_combinations` is always empty, so it is never reached.
- Relevance.RecordedStems: `list(set(...))` has hash order. The model keeps first occurrences in order. The contract states which stems are recorded, not their order. The same holds for the de-duplicated compound matches (`Added`, `DoubleStems`), whose order does not affect the verdict.
- Text.LowerChar: lower-casing is modelled for ASCII and the Latin-1 capitals. Other Unicode case mappings are not modelled.
- ArticleValidation.Matches: the query is treated as a literal string. Regular-expression metacharacters in a query are not modelled.
- `drop_outliers` / `_get_outlier_bound`: logarithms and quantiles in floating point. The inlier test is a parameter.
- Language detection (`langdetect.detect`, `pycld2`): a `detect` function parameter.
- File and pickle I/O: `_load_corpus`'s directory walk, `load_raw_data`, the caches, the argparse entry points, logging and printing. The loader's constructor takes the concatenated corpus. The split of the `content` column (data_loading.py:46) is taken as done: the article record already has the title, description and body fields.
- The validator's date parsing with `dateutil`: dates arrive parsed.
- Missing (`None`) titles and dates in the loader: titles and dates are strings.
- Articles.DropMissingPersons, Loading.DropMissingAuthors, Preprocess.UnwrapPersons: the `author_person` column is taken to be a list whose elements are `None`, a name, or a nested list of names. Some outlet spiders store a bare string or `None` there. Iterating a string splits it into characters, and iterating `None` raises `TypeError`. Neither case is modelled.
- Preprocess.ProcessArticleCleaned: a `None` inside the nested name list, which line 202 of preprocess_data.py would unwrap unchanged, cannot occur in the model. The "no missing author" part of its contract rests on that.
- pandas index labels are modelled as positions in the sequence (`Indexed`). `groupby('title')` visits the groups in title order, while the model visits them in order of first occurrence. The groups are disjoint and each is decided on the same snapshot, so the drops are the same.
- A compound or single stem with no words (the empty string) is contained in every token. The model keeps that behaviour without a lemma about it.
