/** The dataset loader (`Loader`): it cleans the crawled articles field by
    field, removes exact duplicates, keeps only the latest version of an
    article that was crawled several times under the same title, and keeps
    the German articles. */
module Loading {
  import opened Records
  import opened Seqs
  import opened Text
  import opened Articles

  predicate AllSections(ds: seq<Article>) {
    forall k :: 0 <= k < |ds| ==> ds[k].body.Sections?
  }

  predicate AllJoined(ds: seq<Article>) {
    forall k :: 0 <= k < |ds| ==> ds[k].body.Joined?
  }

  // ---------------------------------------------------------------------------
  // Column by column clean-up (`_preprocess_corpus`, lines 49-61)

  /** Lines 49-50: the paragraph lists one after the other, joined by single
      spaces, without the paragraphs `''` and `' '`. */
  function FlattenBodies(ds: seq<Article>): (r: seq<Article>)
    requires AllSections(ds)
    ensures |r| == |ds| && AllJoined(r)
  {
    seq(|ds|, k requires 0 <= k < |ds| => ds[k].(body := Joined(FlattenBody(ds[k].body.sections))))
  }

  /** Line 53. */
  function StripTitles(ds: seq<Article>): (r: seq<Article>)
    ensures |r| == |ds| && forall k :: 0 <= k < |r| ==> r[k].body == ds[k].body
  {
    seq(|ds|, k requires 0 <= k < |ds| => ds[k].(title := Strip(ds[k].title)))
  }

  /** Line 54: a missing description stays missing. */
  function StripDescriptions(ds: seq<Article>): (r: seq<Article>)
    ensures |r| == |ds| && forall k :: 0 <= k < |r| ==> r[k].body == ds[k].body
  {
    seq(|ds|, k requires 0 <= k < |ds| =>
      ds[k].(description := match ds[k].description
                            case None => None
                            case Some(d) => Some(Strip(d))))
  }

  /** Line 57: `fillna('')`. */
  function FillDescriptions(ds: seq<Article>): (r: seq<Article>)
    ensures |r| == |ds| && forall k :: 0 <= k < |r| ==> r[k].body == ds[k].body
  {
    seq(|ds|, k requires 0 <= k < |ds| =>
      ds[k].(description := if ds[k].description.None? then Some("") else ds[k].description))
  }

  /** Line 58. */
  function DropMissingAuthors(ds: seq<Article>): (r: seq<Article>)
    ensures |r| == |ds| && forall k :: 0 <= k < |r| ==> r[k].body == ds[k].body
  {
    seq(|ds|, k requires 0 <= k < |ds| => ds[k].(authorPerson := DropMissingPersons(ds[k].authorPerson)))
  }

  /** Line 61. */
  function FixAllRecommendations(ds: seq<Article>): (r: seq<Article>)
    ensures |r| == |ds| && forall k :: 0 <= k < |r| ==> r[k].body == ds[k].body
  {
    seq(|ds|, k requires 0 <= k < |ds| => ds[k].(recommendations := FixRecommendations(ds[k].recommendations)))
  }

  function CleanAll(ds: seq<Article>): (r: seq<Article>)
    requires AllSections(ds)
    ensures |r| == |ds| && AllJoined(r)
  {
    FixAllRecommendations(DropMissingAuthors(FillDescriptions(StripDescriptions(StripTitles(FlattenBodies(ds))))))
  }

  /** The clean-up of one article that the column steps amount to. */
  function CleanArticle(a: Article): Article
    requires a.body.Sections?
  {
    a.(title := Strip(a.title),
       description := Some(CleanDescription(a.description)),
       body := Joined(FlattenBody(a.body.sections)),
       authorPerson := DropMissingPersons(a.authorPerson),
       recommendations := FixRecommendations(a.recommendations))
  }

  /** Row by row, the column steps clean each article on its own: flattened
      body, stripped title, stripped or empty description, no missing author,
      a list of recommendations; nothing else changes. */
  lemma CleanAllRows(ds: seq<Article>)
    requires AllSections(ds)
    ensures forall k :: 0 <= k < |ds| ==> CleanAll(ds)[k] == CleanArticle(ds[k]) && Cleaned(CleanAll(ds)[k])
  {
    forall k | 0 <= k < |ds| ensures CleanAll(ds)[k] == CleanArticle(ds[k]) && Cleaned(CleanAll(ds)[k]) {
      CleanRow(ds, k);
      CleanArticleCleaned(ds[k]);
    }
  }

  lemma CleanRow(ds: seq<Article>, k: nat)
    requires AllSections(ds) && k < |ds|
    ensures CleanAll(ds)[k] == CleanArticle(ds[k])
  {
    var a := ds[k];
    var s1 := FlattenBodies(ds);
    assert s1[k] == a.(body := Joined(FlattenBody(a.body.sections)));
    var s2 := StripTitles(s1);
    assert s2[k] == s1[k].(title := Strip(a.title));
    var s3 := StripDescriptions(s2);
    var s4 := FillDescriptions(s3);
    assert s4[k] == s2[k].(description := Some(CleanDescription(a.description)));
    var s5 := DropMissingAuthors(s4);
    assert s5[k] == s4[k].(authorPerson := DropMissingPersons(a.authorPerson));
    var s6 := FixAllRecommendations(s5);
    assert s6[k] == s5[k].(recommendations := FixRecommendations(a.recommendations));
  }

  lemma CleanArticleCleaned(a: Article)
    requires a.body.Sections?
    ensures Cleaned(CleanArticle(a))
  {
    var c := CleanArticle(a);
    assert Stripped(c.title) by {
      StrippedIsFixpoint(a.title);
    }
    assert c.description.Some? && Stripped(c.description.value) by {
      CleanDescriptionStripped(a.description);
    }
    assert forall k :: 0 <= k < |c.authorPerson| ==> c.authorPerson[k] != NoPerson;
  }

  lemma CleanDescriptionStripped(d: Option<string>)
    ensures Stripped(CleanDescription(d))
  {
    if d.Some? {
      StrippedIsFixpoint(d.value);
    }
  }

  // ---------------------------------------------------------------------------
  // Exact duplicates (line 65)

  function ContentKey(a: Article): (string, Option<string>, Body) {
    (a.title, a.description, a.body)
  }

  /** `drop_duplicates(subset=['title', 'description', 'body'])`: the first
      row of each content survives, in order, and no content repeats. */
  function Deduplicated(ds: seq<Article>): (r: seq<Article>)
    requires AllJoined(ds)
    ensures AllJoined(r) && Subsequence(r, ds) && DistinctKeys(r, ContentKey)
  {
    var r := DedupBy(ds, ContentKey);
    DedupSubsequence(ds, ContentKey);
    SubsequenceMembers(r, ds);
    DedupDistinct(ds, ContentKey);
    assert forall k :: 0 <= k < |r| ==> r[k] in ds;
    r
  }

  /** The first row of each content is the one that survives. */
  lemma DeduplicatedKeepsFirst(ds: seq<Article>, i: nat)
    requires AllJoined(ds) && i < |ds| && FirstOfKey(ds, ContentKey, i)
    ensures ds[i] in Deduplicated(ds)
  {
    DedupKeepsFirst(ds, ContentKey, i);
  }

  // ---------------------------------------------------------------------------
  // Python's order on strings

  /** `a < b` on Python strings: the first differing character decides, and a
      proper prefix comes first. */
  predicate LexLess(a: string, b: string)
    decreases |a|
  {
    if a == [] then b != []
    else if b == [] then false
    else if a[0] != b[0] then a[0] < b[0]
    else LexLess(a[1..], b[1..])
  }

  lemma {:induction false} LexIrreflexive(a: string)
    ensures !LexLess(a, a)
    decreases |a|
  {
    if a != [] {
      LexIrreflexive(a[1..]);
    }
  }

  lemma {:induction false} LexTransitive(a: string, b: string, c: string)
    requires LexLess(a, b) && LexLess(b, c)
    ensures LexLess(a, c)
    decreases |a|
  {
    if a != [] && b != [] && c != [] && a[0] == b[0] && b[0] == c[0] {
      LexTransitive(a[1..], b[1..], c[1..]);
    }
  }

  lemma {:induction false} LexTotal(a: string, b: string)
    ensures a == b || LexLess(a, b) || LexLess(b, a)
    decreases |a|
  {
    if a != [] && b != [] && a[0] == b[0] {
      LexTotal(a[1..], b[1..]);
      if a[1..] == b[1..] {
        assert a == [a[0]] + a[1..] && b == [b[0]] + b[1..];
      }
    }
  }

  /** The dates are `'dd.mm.yyyy'` strings compared as strings: the first of
      February 2020 comes before the 31st of January 2020. */
  lemma DateOrderCaveat()
    ensures LexLess("01.02.2020", "31.01.2020")
  {
  }

  /** `min()` of a column: the first of the least values. */
  function MinDate(xs: seq<string>): (m: string)
    requires |xs| > 0
    ensures m in xs
    decreases |xs|
  {
    if |xs| == 1 then xs[0]
    else
      var m := MinDate(xs[..|xs| - 1]);
      if LexLess(xs[|xs| - 1], m) then xs[|xs| - 1] else m
  }

  /** No value of the column comes before its minimum. */
  lemma {:induction false} MinDateLeast(xs: seq<string>)
    requires |xs| > 0
    ensures forall k :: 0 <= k < |xs| ==> !LexLess(xs[k], MinDate(xs))
    decreases |xs|
  {
    if |xs| > 1 {
      var n := |xs| - 1;
      var pre := xs[..n];
      MinDateLeast(pre);
      var m := MinDate(pre);
      var x := xs[n];
      if LexLess(x, m) {
        forall k | 0 <= k < |xs| ensures !LexLess(xs[k], x) {
          if k == n {
            LexIrreflexive(x);
          } else {
            assert xs[k] == pre[k];
            if LexLess(xs[k], x) {
              LexTransitive(xs[k], x, m);
            }
          }
        }
      } else {
        forall k | 0 <= k < n ensures xs[k] == pre[k] { }
      }
    } else {
      LexIrreflexive(xs[0]);
    }
  }

  /** `idxmin()`: the position of the first least value. */
  function ArgMin(xs: seq<nat>): (i: nat)
    requires |xs| > 0
    ensures i < |xs|
    decreases |xs|
  {
    if |xs| == 1 then 0
    else
      var i := ArgMin(xs[..|xs| - 1]);
      if xs[|xs| - 1] < xs[i] then |xs| - 1 else i
  }

  lemma {:induction false} ArgMinFirstLeast(xs: seq<nat>)
    requires |xs| > 0
    ensures forall k :: 0 <= k < |xs| ==> xs[ArgMin(xs)] <= xs[k]
    ensures forall k :: 0 <= k < ArgMin(xs) ==> xs[ArgMin(xs)] < xs[k]
    decreases |xs|
  {
    if |xs| > 1 {
      var pre := xs[..|xs| - 1];
      ArgMinFirstLeast(pre);
      forall k | 0 <= k < |pre| ensures xs[k] == pre[k] { }
    }
  }

  // ---------------------------------------------------------------------------
  // Title groups (`duplicated(subset=['title'], keep=False)` and `groupby`)

  /** The positions from `i` on whose title is `t`, in order. */
  function GroupFrom(ds: seq<Article>, t: string, i: nat): seq<nat>
    requires i <= |ds|
    decreases |ds| - i
  {
    if i == |ds| then [] else (if ds[i].title == t then [i] else []) + GroupFrom(ds, t, i + 1)
  }

  function Group(ds: seq<Article>, t: string): seq<nat> {
    GroupFrom(ds, t, 0)
  }

  predicate Increasing(g: seq<nat>) {
    forall a, b :: 0 <= a < b < |g| ==> g[a] < g[b]
  }

  lemma {:induction false} GroupFromExact(ds: seq<Article>, t: string, i: nat)
    requires i <= |ds|
    ensures forall p :: p in GroupFrom(ds, t, i) <==> i <= p < |ds| && ds[p].title == t
    ensures Increasing(GroupFrom(ds, t, i))
    decreases |ds| - i
  {
    if i < |ds| {
      GroupFromExact(ds, t, i + 1);
      var rest := GroupFrom(ds, t, i + 1);
      if ds[i].title == t {
        var g := [i] + rest;
        forall a, b | 0 <= a < b < |g| ensures g[a] < g[b] {
          assert g[b] == rest[b - 1] && rest[b - 1] in rest;
          if a > 0 {
            assert g[a] == rest[a - 1];
          }
        }
      }
    }
  }

  /** A title group: the positions of one title occurring at least twice. */
  predicate IsTitleGroup(ds: seq<Article>, g: seq<nat>) {
    |g| >= 2 && g[0] < |ds| && g == Group(ds, ds[g[0]].title)
  }

  /** `ds[i]` is the first row with its title. */
  predicate FirstOfTitle(ds: seq<Article>, i: nat)
    requires i < |ds|
  {
    forall j :: 0 <= j < i ==> ds[j].title != ds[i].title
  }

  /** One group per title occurring more than once, in order of first
      occurrence. */
  function GroupsFrom(ds: seq<Article>, i: nat): seq<seq<nat>>
    requires i <= |ds|
    decreases |ds| - i
  {
    if i == |ds| then []
    else
      (if FirstOfTitle(ds, i) && |Group(ds, ds[i].title)| >= 2 then [Group(ds, ds[i].title)] else []) +
      GroupsFrom(ds, i + 1)
  }

  function TitleGroups(ds: seq<Article>): seq<seq<nat>> {
    GroupsFrom(ds, 0)
  }

  lemma {:induction false} GroupsFromAreTitleGroups(ds: seq<Article>, i: nat)
    requires i <= |ds|
    ensures forall g :: g in GroupsFrom(ds, i) ==> IsTitleGroup(ds, g)
    decreases |ds| - i
  {
    if i < |ds| {
      GroupsFromAreTitleGroups(ds, i + 1);
      var t := ds[i].title;
      var g := Group(ds, t);
      if FirstOfTitle(ds, i) && |g| >= 2 {
        GroupFromExact(ds, t, 0);
        assert g[0] in g;
      }
    }
  }

  /** Every title that occurs at least twice has its group. */
  lemma {:induction false} GroupsFromComplete(ds: seq<Article>, i: nat, f: nat)
    requires i <= f < |ds| && FirstOfTitle(ds, f) && |Group(ds, ds[f].title)| >= 2
    ensures Group(ds, ds[f].title) in GroupsFrom(ds, i)
    decreases |ds| - i
  {
    if i < f {
      GroupsFromComplete(ds, i + 1, f);
    }
  }

  lemma TitleGroupPresent(ds: seq<Article>, t: string)
    requires |Group(ds, t)| >= 2
    ensures Group(ds, t) in TitleGroups(ds)
  {
    var g := Group(ds, t);
    GroupFromExact(ds, t, 0);
    assert g[0] in g;
    var f := g[0];
    assert forall a :: 0 <= a < |g| ==> f <= g[a];
    forall j | 0 <= j < f ensures ds[j].title != ds[f].title {
      assert j !in g;
    }
    GroupsFromComplete(ds, 0, f);
  }

  // ---------------------------------------------------------------------------
  // Which versions of an updated article go (lines 84-100)

  predicate ValidGroup(ds: seq<Article>, g: seq<nat>) {
    |g| >= 2 && Increasing(g) && forall k :: 0 <= k < |g| ==> g[k] < |ds|
  }

  lemma TitleGroupValid(ds: seq<Article>, g: seq<nat>)
    requires IsTitleGroup(ds, g)
    ensures ValidGroup(ds, g)
  {
    GroupFromExact(ds, ds[g[0]].title, 0);
    forall k | 0 <= k < |g| ensures g[k] < |ds| {
      assert g[k] in g;
    }
  }

  function CreationDates(ds: seq<Article>, g: seq<nat>): seq<string>
    requires forall k :: 0 <= k < |g| ==> g[k] < |ds|
  {
    seq(|g|, k requires 0 <= k < |g| => ds[g[k]].creationDate)
  }

  function LastModifiedDates(ds: seq<Article>, g: seq<nat>): seq<string>
    requires forall k :: 0 <= k < |g| ==> g[k] < |ds|
  {
    seq(|g|, k requires 0 <= k < |g| => ds[g[k]].lastModified)
  }

  function BodyLengths(ds: seq<Article>, g: seq<nat>): seq<nat>
    requires AllJoined(ds) && forall k :: 0 <= k < |g| ==> g[k] < |ds|
  {
    seq(|g|, k requires 0 <= k < |g| => |ds[g[k]].body.text|)
  }

  function CreatedOn(ds: seq<Article>, d: string): nat -> bool {
    (p: nat) => p < |ds| && ds[p].creationDate == d
  }

  function ModifiedOn(ds: seq<Article>, d: string): nat -> bool {
    (p: nat) => p < |ds| && ds[p].lastModified == d
  }

  predicate CreationDiffers(ds: seq<Article>, g: seq<nat>)
    requires ValidGroup(ds, g)
  {
    ds[g[0]].creationDate != ds[g[1]].creationDate
  }

  predicate ModificationDiffers(ds: seq<Article>, g: seq<nat>)
    requires ValidGroup(ds, g)
  {
    ds[g[0]].lastModified != ds[g[1]].lastModified
  }

  /** The rows one group loses: only its first two rows are compared. */
  function GroupDrops(ds: seq<Article>, g: seq<nat>): seq<nat>
    requires AllJoined(ds) && ValidGroup(ds, g)
  {
    if CreationDiffers(ds, g) then Filter(g, CreatedOn(ds, MinDate(CreationDates(ds, g))))
    else if ModificationDiffers(ds, g) then Filter(g, ModifiedOn(ds, MinDate(LastModifiedDates(ds, g))))
    else [g[ArgMin(BodyLengths(ds, g))]]
  }

  /** When the first two rows differ in creation date, exactly the rows whose
      creation date is the group's least are dropped. */
  lemma DropsByCreation(ds: seq<Article>, g: seq<nat>)
    requires AllJoined(ds) && ValidGroup(ds, g) && CreationDiffers(ds, g)
    ensures forall p :: p in GroupDrops(ds, g) <==>
      p in g && ds[p].creationDate == MinDate(CreationDates(ds, g))
    ensures forall p, q :: p in GroupDrops(ds, g) && q in g ==> !LexLess(ds[q].creationDate, ds[p].creationDate)
  {
    var m := MinDate(CreationDates(ds, g));
    FilterMembers(g, CreatedOn(ds, m));
    MinDateLeast(CreationDates(ds, g));
    forall p | p in g && ds[p].creationDate == m ensures p in GroupDrops(ds, g) {
      var k :| 0 <= k < |g| && g[k] == p;
    }
    forall p, q | p in GroupDrops(ds, g) && q in g ensures !LexLess(ds[q].creationDate, ds[p].creationDate) {
      var k :| 0 <= k < |g| && g[k] == q;
      assert CreationDates(ds, g)[k] == ds[q].creationDate;
    }
  }

  /** Otherwise, when they differ in last-modified date, exactly the rows
      whose last-modified date is the group's least are dropped. */
  lemma DropsByModification(ds: seq<Article>, g: seq<nat>)
    requires AllJoined(ds) && ValidGroup(ds, g) && !CreationDiffers(ds, g) && ModificationDiffers(ds, g)
    ensures forall p :: p in GroupDrops(ds, g) <==>
      p in g && ds[p].lastModified == MinDate(LastModifiedDates(ds, g))
    ensures forall p, q :: p in GroupDrops(ds, g) && q in g ==> !LexLess(ds[q].lastModified, ds[p].lastModified)
  {
    var m := MinDate(LastModifiedDates(ds, g));
    FilterMembers(g, ModifiedOn(ds, m));
    MinDateLeast(LastModifiedDates(ds, g));
    forall p | p in g && ds[p].lastModified == m ensures p in GroupDrops(ds, g) {
      var k :| 0 <= k < |g| && g[k] == p;
    }
    forall p, q | p in GroupDrops(ds, g) && q in g ensures !LexLess(ds[q].lastModified, ds[p].lastModified) {
      var k :| 0 <= k < |g| && g[k] == q;
      assert LastModifiedDates(ds, g)[k] == ds[q].lastModified;
    }
  }

  /** Otherwise exactly one row goes: the first one with the shortest body. */
  lemma DropsShortest(ds: seq<Article>, g: seq<nat>)
    requires AllJoined(ds) && ValidGroup(ds, g) && !CreationDiffers(ds, g) && !ModificationDiffers(ds, g)
    ensures |GroupDrops(ds, g)| == 1
    ensures var a := ArgMin(BodyLengths(ds, g));
      && GroupDrops(ds, g) == [g[a]]
      && (forall k :: 0 <= k < |g| ==> |ds[g[a]].body.text| <= |ds[g[k]].body.text|)
      && (forall k :: 0 <= k < a ==> |ds[g[a]].body.text| < |ds[g[k]].body.text|)
  {
    var ls := BodyLengths(ds, g);
    ArgMinFirstLeast(ls);
    var a := ArgMin(ls);
    forall k | 0 <= k < |g| ensures ls[k] == |ds[g[k]].body.text| { }
  }

  /** Every group keeps a row: its first two rows differ in the date that
      decides, so not both are least, or else only one row goes. */
  lemma GroupKeepsOne(ds: seq<Article>, g: seq<nat>)
    requires AllJoined(ds) && ValidGroup(ds, g)
    ensures exists k :: 0 <= k < |g| && g[k] !in GroupDrops(ds, g)
  {
    var d := GroupDrops(ds, g);
    if CreationDiffers(ds, g) {
      DropsByCreation(ds, g);
      assert g[0] in g && g[1] in g;
      if g[0] in d {
        assert g[1] !in d;
      }
    } else if ModificationDiffers(ds, g) {
      DropsByModification(ds, g);
      assert g[0] in g && g[1] in g;
      if g[0] in d {
        assert g[1] !in d;
      }
    } else {
      DropsShortest(ds, g);
      var a := ArgMin(BodyLengths(ds, g));
      var k := if a == 0 then 1 else 0;
      assert g[k] != g[a];
    }
  }

  lemma GroupDropsWithin(ds: seq<Article>, g: seq<nat>)
    requires AllJoined(ds) && ValidGroup(ds, g)
    ensures forall p :: p in GroupDrops(ds, g) ==> p in g
  {
    if CreationDiffers(ds, g) {
      DropsByCreation(ds, g);
    } else if ModificationDiffers(ds, g) {
      DropsByModification(ds, g);
    } else {
      DropsShortest(ds, g);
    }
  }

  // ---------------------------------------------------------------------------
  // All the drops, and what survives

  predicate AllValid(ds: seq<Article>, groups: seq<seq<nat>>) {
    forall g :: g in groups ==> ValidGroup(ds, g)
  }

  /** The drops of the groups, one group after the other. */
  function DropsOf(ds: seq<Article>, groups: seq<seq<nat>>): seq<nat>
    requires AllJoined(ds) && AllValid(ds, groups)
    decreases |groups|
  {
    if groups == [] then []
    else DropsOf(ds, groups[..|groups| - 1]) + GroupDrops(ds, groups[|groups| - 1])
  }

  lemma TitleGroupsValid(ds: seq<Article>)
    ensures forall g :: g in TitleGroups(ds) ==> IsTitleGroup(ds, g) && ValidGroup(ds, g)
  {
    GroupsFromAreTitleGroups(ds, 0);
    forall g | g in TitleGroups(ds) ensures ValidGroup(ds, g) {
      TitleGroupValid(ds, g);
    }
  }

  function AllDrops(ds: seq<Article>): seq<nat>
    requires AllJoined(ds)
  {
    TitleGroupsValid(ds);
    DropsOf(ds, TitleGroups(ds))
  }

  lemma DropsOfStep(ds: seq<Article>, groups: seq<seq<nat>>, g: nat)
    requires AllJoined(ds) && g < |groups| && AllValid(ds, groups)
    ensures AllValid(ds, groups[..g]) && AllValid(ds, groups[..g + 1])
    ensures ValidGroup(ds, groups[g])
    ensures DropsOf(ds, groups[..g + 1]) == DropsOf(ds, groups[..g]) + GroupDrops(ds, groups[g])
  {
    assert forall x :: x in groups[..g] ==> x in groups;
    assert forall x :: x in groups[..g + 1] ==> x in groups;
    assert groups[..g + 1][..g] == groups[..g];
  }

  /** Dropping one set of labels, then another, drops both. */
  lemma DropInTurn(rows: seq<Indexed>, before: seq<nat>, drop: seq<nat>)
    ensures Filter(Filter(rows, LabelNotIn(before)), LabelNotIn(drop)) == Filter(rows, LabelNotIn(before + drop))
  {
    FilterFilter(rows, LabelNotIn(before), LabelNotIn(drop), LabelNotIn(before + drop));
  }

  /** A row is dropped by the group of its own title or not at all. */
  lemma DropsOfTitle(ds: seq<Article>, groups: seq<seq<nat>>, p: nat)
    requires AllJoined(ds) && p < |ds|
    requires forall g :: g in groups ==> IsTitleGroup(ds, g) && ValidGroup(ds, g)
    ensures p in DropsOf(ds, groups) <==>
      Group(ds, ds[p].title) in groups && p in GroupDrops(ds, Group(ds, ds[p].title))
  {
    var own := Group(ds, ds[p].title);
    forall g | g in groups && p in g ensures g == own {
      InOwnGroup(ds, g, p);
    }
    DropsOfOwn(ds, groups, p, own);
  }

  /** When `own` is the only one of the groups that can hold `p`, `p` is
      dropped exactly when `own` is among them and drops it. */
  lemma {:induction false} DropsOfOwn(ds: seq<Article>, groups: seq<seq<nat>>, p: nat, own: seq<nat>)
    requires AllJoined(ds) && AllValid(ds, groups)
    requires forall g :: g in groups && p in g ==> g == own
    ensures p in DropsOf(ds, groups) <==> own in groups && p in GroupDrops(ds, own)
    decreases |groups|
  {
    if groups != [] {
      var pre := groups[..|groups| - 1];
      var last := groups[|groups| - 1];
      DropsOfSnoc(ds, groups);
      DropsOfOwn(ds, pre, p, own);
      GroupDropsWithin(ds, last);
    }
  }

  lemma DropsOfSnoc(ds: seq<Article>, groups: seq<seq<nat>>)
    requires AllJoined(ds) && AllValid(ds, groups) && groups != []
    ensures var pre, last := groups[..|groups| - 1], groups[|groups| - 1];
      && AllValid(ds, pre) && ValidGroup(ds, last)
      && DropsOf(ds, groups) == DropsOf(ds, pre) + GroupDrops(ds, last)
      && (forall g :: g in groups <==> g in pre || g == last)
  {
    var pre, last := groups[..|groups| - 1], groups[|groups| - 1];
    assert groups == pre + [last];
    assert last in groups;
  }

  /** A title group is the group of each of its rows' titles. */
  lemma InOwnGroup(ds: seq<Article>, g: seq<nat>, p: nat)
    requires IsTitleGroup(ds, g) && p in g
    ensures p < |ds| && Group(ds, ds[p].title) == g
  {
    GroupFromExact(ds, ds[g[0]].title, 0);
  }

  /** A row whose title occurs only once is never dropped. */
  lemma UniqueTitleKept(ds: seq<Article>, p: nat)
    requires AllJoined(ds) && p < |ds| && |Group(ds, ds[p].title)| < 2
    ensures p !in AllDrops(ds)
  {
    TitleGroupsValid(ds);
    DropsOfTitle(ds, TitleGroups(ds), p);
  }

  /** A row whose title occurs more than once goes exactly when its group
      drops it. */
  lemma UpdatedTitleDrops(ds: seq<Article>, p: nat)
    requires AllJoined(ds) && p < |ds| && |Group(ds, ds[p].title)| >= 2
    ensures ValidGroup(ds, Group(ds, ds[p].title))
    ensures p in AllDrops(ds) <==> p in GroupDrops(ds, Group(ds, ds[p].title))
  {
    TitleGroupsValid(ds);
    TitleGroupPresent(ds, ds[p].title);
    DropsOfTitle(ds, TitleGroups(ds), p);
  }

  /** Every title keeps at least one of its rows. */
  lemma EveryTitleKeepsOne(ds: seq<Article>, t: string)
    requires AllJoined(ds) && |Group(ds, t)| > 0
    ensures exists p :: p in Group(ds, t) && p !in AllDrops(ds)
  {
    var g := Group(ds, t);
    GroupFromExact(ds, t, 0);
    if |g| < 2 {
      assert g[0] in g;
      UniqueTitleKept(ds, g[0]);
    } else {
      TitleGroupsValid(ds);
      TitleGroupPresent(ds, t);
      GroupKeepsOne(ds, g);
      var k :| 0 <= k < |g| && g[k] !in GroupDrops(ds, g);
      assert g[k] in g;
      UpdatedTitleDrops(ds, g[k]);
    }
  }

  /** A row together with its index label. */
  datatype Indexed = Indexed(index: nat, article: Article)

  function Labelled(ds: seq<Article>): (r: seq<Indexed>)
    ensures |r| == |ds|
  {
    seq(|ds|, k requires 0 <= k < |ds| => Indexed(k, ds[k]))
  }

  function Unlabelled(rs: seq<Indexed>): (r: seq<Article>)
    ensures |r| == |rs|
  {
    seq(|rs|, k requires 0 <= k < |rs| => rs[k].article)
  }

  function LabelNotIn(drops: seq<nat>): Indexed -> bool {
    (r: Indexed) => r.index !in drops
  }

  /** The dataset after `_drop_outdated_articles`. */
  function Survivors(ds: seq<Article>): seq<Article>
    requires AllJoined(ds)
  {
    Unlabelled(Filter(Labelled(ds), LabelNotIn(AllDrops(ds))))
  }

  /** The survivors keep their order, and a row survives when it is not
      dropped. */
  lemma SurvivorsExact(ds: seq<Article>)
    requires AllJoined(ds)
    ensures Subsequence(Survivors(ds), ds)
    ensures forall p :: 0 <= p < |ds| && p !in AllDrops(ds) ==> ds[p] in Survivors(ds)
  {
    KeptRows(ds, AllDrops(ds));
  }

  /** With no content repeated, which `Deduplicated` guarantees, the survivors
      are exactly the rows not dropped: a dropped row is gone from the dataset. */
  lemma SurvivorsExactly(ds: seq<Article>)
    requires AllJoined(ds) && DistinctKeys(ds, ContentKey)
    ensures forall p :: 0 <= p < |ds| ==> (ds[p] in Survivors(ds) <==> p !in AllDrops(ds))
  {
    SurvivorsExact(ds);
    KeptRowsOnly(ds, AllDrops(ds));
    forall p | 0 <= p < |ds| && ds[p] in Survivors(ds)
      ensures p !in AllDrops(ds)
    {
      var q :| 0 <= q < |ds| && q !in AllDrops(ds) && ds[q] == ds[p];
      SameRowSameIndex(ds, p, q);
    }
  }

  /** Two positions holding the same row of a dataset without repeated content
      are the same position. */
  lemma SameRowSameIndex(ds: seq<Article>, p: nat, q: nat)
    requires p < |ds| && q < |ds| && DistinctKeys(ds, ContentKey) && ds[p] == ds[q]
    ensures p == q
  {
    assert ContentKey(ds[p]) == ContentKey(ds[q]);
  }

  /** Every row left by dropping labels is a row whose label was not dropped. */
  lemma KeptRowsOnly(ds: seq<Article>, drops: seq<nat>)
    ensures forall x :: x in Unlabelled(Filter(Labelled(ds), LabelNotIn(drops))) ==>
      exists q :: 0 <= q < |ds| && q !in drops && ds[q] == x
  {
    var ls := Labelled(ds);
    var kept := Filter(ls, LabelNotIn(drops));
    FilterMembers(ls, LabelNotIn(drops));
    forall x | x in Unlabelled(kept)
      ensures exists q :: 0 <= q < |ds| && q !in drops && ds[q] == x
    {
      var k :| 0 <= k < |kept| && Unlabelled(kept)[k] == x;
      assert kept[k] in ls && LabelNotIn(drops)(kept[k]);
      var q :| 0 <= q < |ls| && ls[q] == kept[k];
      assert ds[q] == x;
    }
  }

  /** Dropping rows by label keeps the others, in order. */
  lemma KeptRows(ds: seq<Article>, drops: seq<nat>)
    ensures var r := Unlabelled(Filter(Labelled(ds), LabelNotIn(drops)));
      Subsequence(r, ds) && forall p :: 0 <= p < |ds| && p !in drops ==> ds[p] in r
  {
    var ls := Labelled(ds);
    var kept := Filter(ls, LabelNotIn(drops));
    FilterSubsequence(ls, LabelNotIn(drops));
    UnlabelledSubsequence(kept, ls);
    assert Unlabelled(ls) == ds;
    FilterMembers(ls, LabelNotIn(drops));
    forall p | 0 <= p < |ds| && p !in drops ensures ds[p] in Unlabelled(kept) {
      assert ls[p] == Indexed(p, ds[p]);
      var k :| 0 <= k < |kept| && kept[k] == Indexed(p, ds[p]);
      assert Unlabelled(kept)[k] == ds[p];
    }
  }

  lemma {:induction false} UnlabelledSubsequence(a: seq<Indexed>, b: seq<Indexed>)
    requires Subsequence(a, b)
    ensures Subsequence(Unlabelled(a), Unlabelled(b))
    decreases |b|
  {
    if a != [] {
      assert Unlabelled(b)[1..] == Unlabelled(b[1..]);
      assert Unlabelled(a)[1..] == Unlabelled(a[1..]);
      if a[0] == b[0] && Subsequence(a[1..], b[1..]) {
        UnlabelledSubsequence(a[1..], b[1..]);
      } else {
        UnlabelledSubsequence(a, b[1..]);
      }
    }
  }

  // ---------------------------------------------------------------------------
  // Language

  /** Line 73: the articles whose body the detector labels `'de'`. */
  function IsGerman(detect: string -> string): Article -> bool {
    (a: Article) => a.body.Joined? && detect(a.body.text) == "de"
  }

  // ---------------------------------------------------------------------------
  // The loader

  class Loader {
    /** `self.dataset`, as `_load_corpus` left it. */
    var dataset: seq<Article>

    constructor (corpus: seq<Article>)
      ensures dataset == corpus
    {
      dataset := corpus;
    }

    /** `_preprocess_corpus` with the language detector as a parameter. */
    method PreprocessCorpus(detect: string -> string)
      requires AllSections(dataset)
      modifies this
      ensures dataset == Filter(Survivors(Deduplicated(CleanAll(old(dataset)))), IsGerman(detect))
    {
      dataset := FlattenBodies(dataset);
      dataset := StripTitles(dataset);
      dataset := StripDescriptions(dataset);
      dataset := FillDescriptions(dataset);
      dataset := DropMissingAuthors(dataset);
      dataset := FixAllRecommendations(dataset);
      dataset := Deduplicated(dataset);
      DropOutdatedArticles();
      dataset := Filter(dataset, IsGerman(detect));
    }

    /** `_drop_outdated_articles`: every group is decided on the rows as they
        were before the first drop, and its rows are dropped by label. */
    method DropOutdatedArticles()
      requires AllJoined(dataset)
      modifies this
      ensures dataset == Survivors(old(dataset))
      ensures DistinctKeys(old(dataset), ContentKey) ==>
        forall p :: 0 <= p < |old(dataset)| ==> (old(dataset)[p] in dataset <==> p !in AllDrops(old(dataset)))
    {
      var updated := dataset;
      var groups := TitleGroups(updated);
      TitleGroupsValid(updated);
      var rows := Labelled(updated);
      FilterAllPass(rows, LabelNotIn([]));
      for g := 0 to |groups|
        invariant rows == Filter(Labelled(updated), LabelNotIn(DropsOf(updated, groups[..g])))
      {
        DropsOfStep(updated, groups, g);
        var drop := GroupDrops(updated, groups[g]);
        rows := Filter(rows, LabelNotIn(drop));
        DropInTurn(Labelled(updated), DropsOf(updated, groups[..g]), drop);
      }
      assert groups[..|groups|] == groups;
      dataset := Unlabelled(rows);
      if DistinctKeys(updated, ContentKey) {
        SurvivorsExactly(updated);
      }
    }
  }

  /** What the loader guarantees about its dataset: every article is cleaned
      and German, and no content occurs twice. */
  lemma CorpusGuarantees(ds: seq<Article>, detect: string -> string)
    requires AllSections(ds)
    ensures var r := Filter(Survivors(Deduplicated(CleanAll(ds))), IsGerman(detect));
      DistinctKeys(r, ContentKey) &&
      forall k :: 0 <= k < |r| ==> Cleaned(r[k]) && detect(r[k].body.text) == "de"
  {
    var c := CleanAll(ds);
    CleanAllCleaned(ds);
    var d := Deduplicated(c);
    CleanedSubsequence(d, c);
    var s := Survivors(d);
    SurvivorsKeep(d);
    GermanKeep(s, detect);
  }

  lemma CleanAllCleaned(ds: seq<Article>)
    requires AllSections(ds)
    ensures AllCleaned(CleanAll(ds))
  {
    CleanAllRows(ds);
  }

  lemma SurvivorsKeep(d: seq<Article>)
    requires AllJoined(d) && AllCleaned(d) && DistinctKeys(d, ContentKey)
    ensures AllCleaned(Survivors(d)) && DistinctKeys(Survivors(d), ContentKey)
  {
    SurvivorsExact(d);
    CleanedSubsequence(Survivors(d), d);
    SubsequenceDistinct(Survivors(d), d, ContentKey);
  }

  lemma GermanKeep(s: seq<Article>, detect: string -> string)
    requires AllCleaned(s) && DistinctKeys(s, ContentKey)
    ensures var r := Filter(s, IsGerman(detect));
      AllCleaned(r) && DistinctKeys(r, ContentKey) &&
      forall k :: 0 <= k < |r| ==> detect(r[k].body.text) == "de"
  {
    var r := Filter(s, IsGerman(detect));
    FilterSubsequence(s, IsGerman(detect));
    CleanedSubsequence(r, s);
    SubsequenceDistinct(r, s, ContentKey);
    FilterMembers(s, IsGerman(detect));
    forall k | 0 <= k < |r| ensures detect(r[k].body.text) == "de" {
      assert r[k] in r;
    }
  }

  predicate AllCleaned(ds: seq<Article>) {
    forall k :: 0 <= k < |ds| ==> Cleaned(ds[k])
  }

  lemma CleanedSubsequence(a: seq<Article>, b: seq<Article>)
    requires Subsequence(a, b) && AllCleaned(b)
    ensures AllCleaned(a)
  {
    SubsequenceMembers(a, b);
    forall k | 0 <= k < |a| ensures Cleaned(a[k]) {
      assert a[k] in b;
      var j :| 0 <= j < |b| && b[j] == a[k];
    }
  }
}
