/** Regrouping the flat list of texts of an article page into headline
    entries, as `extract_paragraphs_from_article` does in the epochtimes and
    rationalgalerie script spiders (both files hold the same loop).  The HTML
    text extraction before the loop is not modelled: the texts arrive as a
    sequence of strings. */
module ParagraphGrouping {
  import opened Seqs

  /** The value of one one-key dictionary `{headline: value}` in the result:
      a lone paragraph is stored as a string, a headline's paragraphs as a list. */
  datatype EntryValue = Text(text: string) | Paras(paras: seq<string>)

  datatype Entry = Entry(key: string, value: EntryValue)

  function NonEmpty(): string -> bool {
    t => t != ""
  }

  function NotHeadline(headlines: seq<string>): string -> bool {
    t => t !in headlines
  }

  function BodyText(headlines: seq<string>): string -> bool {
    t => t != "" && t !in headlines
  }

  // ---------------------------------------------------------------------------
  // Reference definition, section by section

  /** The longest prefix of `ts` holding no headline. */
  function Run(ts: seq<string>, headlines: seq<string>): (r: seq<string>)
    ensures |r| <= |ts|
  {
    if ts == [] || ts[0] in headlines then [] else [ts[0]] + Run(ts[1..], headlines)
  }

  /** The entries of a page whose current headline is `h` and whose remaining
      non-empty texts are `ts`: the run of paragraphs up to the next headline,
      if any, under `h`, then the sections of the later headlines. */
  function Blocks(h: string, ts: seq<string>, headlines: seq<string>): seq<Entry>
    decreases |ts|
  {
    var run := Run(ts, headlines);
    (if run == [] then [] else [Entry(h, Paras(run))]) +
    (if |run| == |ts| then [] else Blocks(ts[|run|], ts[|run| + 1..], headlines))
  }

  /** The entries of the non-empty texts `ts` before any headline was seen:
      each text stands alone under the key `""` until the first headline. */
  function Lead(ts: seq<string>, headlines: seq<string>): seq<Entry>
    decreases |ts|
  {
    if ts == [] then []
    else if ts[0] in headlines then Blocks(ts[0], ts[1..], headlines)
    else [Entry("", Text(ts[0]))] + Lead(ts[1..], headlines)
  }

  /** The non-empty texts from position `i` on. */
  function NonEmptyFrom(texts: seq<string>, i: nat): seq<string>
    decreases |texts| - i
  {
    if i >= |texts| then [] else (if texts[i] == "" then [] else [texts[i]]) + NonEmptyFrom(texts, i + 1)
  }

  /** What the page's texts are regrouped into; empty texts are skipped. */
  function Grouped(texts: seq<string>, headlines: seq<string>): seq<Entry> {
    Lead(NonEmptyFrom(texts, 0), headlines)
  }

  // ---------------------------------------------------------------------------
  // The loop

  /** `extract_paragraphs_from_article`. */
  method ExtractParagraphs(texts: seq<string>, headlines: seq<string>) returns (finalParagraphs: seq<Entry>)
    ensures finalParagraphs == Grouped(texts, headlines)
  {
    ghost var all := Grouped(texts, headlines);
    finalParagraphs := [];
    var eachPara: seq<string> := [];
    var eachHeadline := "";
    var newHeadline := false;
    var i := 0;
    while i < |texts|
      invariant 0 <= i <= |texts|
      invariant Continues(all, finalParagraphs, eachPara, eachHeadline, newHeadline, texts, i, headlines)
    {
      var para := texts[i];
      ghost var emitted, pending, current, seen := finalParagraphs, eachPara, eachHeadline, newHeadline;
      if |para| == 0 {
        StepEmpty(all, finalParagraphs, eachPara, eachHeadline, newHeadline, texts, i, headlines);
        i := i + 1;
        continue;
      }
      if para in headlines {
        if |eachPara| > 0 {
          finalParagraphs := finalParagraphs + [Entry(eachHeadline, Paras(eachPara))];
        }
        eachHeadline := para;
        newHeadline := true;
        eachPara := [];
        StepHeadline(all, emitted, pending, current, seen, texts, i, headlines, finalParagraphs);
      } else if |eachPara| == 0 && !newHeadline {
        finalParagraphs := finalParagraphs + [Entry(eachHeadline, Text(para))];
        StepLone(all, emitted, pending, current, texts, i, headlines, finalParagraphs);
      } else {
        eachPara := eachPara + [para];
        StepParagraph(all, emitted, pending, current, seen, texts, i, headlines);
      }
      i := i + 1;
    }
    ghost var emitted := finalParagraphs;
    if |eachPara| > 0 {
      finalParagraphs := finalParagraphs + [Entry(eachHeadline, Paras(eachPara))];
    }
    StepEnd(all, emitted, eachPara, eachHeadline, newHeadline, texts, headlines, finalParagraphs);
  }

  /** The loop state after the first `i` texts: the entries emitted so far,
      followed by what the remaining non-empty texts will produce, make up `all`. */
  predicate Continues(all: seq<Entry>, emitted: seq<Entry>, eachPara: seq<string>, eachHeadline: string,
                      newHeadline: bool, texts: seq<string>, i: nat, headlines: seq<string>)
  {
    (forall k :: 0 <= k < |eachPara| ==> eachPara[k] !in headlines) &&
    if newHeadline then all == emitted + Blocks(eachHeadline, eachPara + NonEmptyFrom(texts, i), headlines)
    else eachPara == [] && eachHeadline == "" && all == emitted + Lead(NonEmptyFrom(texts, i), headlines)
  }

  lemma StepEmpty(all: seq<Entry>, emitted: seq<Entry>, eachPara: seq<string>, eachHeadline: string,
                  newHeadline: bool, texts: seq<string>, i: nat, headlines: seq<string>)
    requires i < |texts| && |texts[i]| == 0
    requires Continues(all, emitted, eachPara, eachHeadline, newHeadline, texts, i, headlines)
    ensures Continues(all, emitted, eachPara, eachHeadline, newHeadline, texts, i + 1, headlines)
  {
    assert NonEmptyFrom(texts, i) == NonEmptyFrom(texts, i + 1);
  }

  lemma StepHeadline(all: seq<Entry>, emitted: seq<Entry>, eachPara: seq<string>, eachHeadline: string,
                     newHeadline: bool, texts: seq<string>, i: nat, headlines: seq<string>, emitted': seq<Entry>)
    requires i < |texts| && |texts[i]| != 0 && texts[i] in headlines
    requires Continues(all, emitted, eachPara, eachHeadline, newHeadline, texts, i, headlines)
    requires emitted' == emitted + (if |eachPara| > 0 then [Entry(eachHeadline, Paras(eachPara))] else [])
    ensures Continues(all, emitted', [], texts[i], true, texts, i + 1, headlines)
  {
    NonEmptyFromCons(texts, i);
    if newHeadline {
      HeadlineInBlocks(all, emitted, eachPara, eachHeadline, texts[i], NonEmptyFrom(texts, i + 1), headlines, emitted');
    } else {
      HeadlineInLead(all, emitted, texts[i], NonEmptyFrom(texts, i + 1), headlines);
    }
  }

  lemma NonEmptyFromCons(texts: seq<string>, i: nat)
    requires i < |texts| && |texts[i]| != 0
    ensures NonEmptyFrom(texts, i) == [texts[i]] + NonEmptyFrom(texts, i + 1)
  {
  }

  lemma HeadlineInBlocks(all: seq<Entry>, emitted: seq<Entry>, pending: seq<string>, h: string,
                         x: string, rest: seq<string>, headlines: seq<string>, emitted': seq<Entry>)
    requires x in headlines
    requires forall k :: 0 <= k < |pending| ==> pending[k] !in headlines
    requires all == emitted + Blocks(h, pending + ([x] + rest), headlines)
    requires emitted' == emitted + (if |pending| > 0 then [Entry(h, Paras(pending))] else [])
    ensures all == emitted' + Blocks(x, [] + rest, headlines)
  {
    var flushed := if |pending| > 0 then [Entry(h, Paras(pending))] else [];
    BlocksAtHeadline(h, pending, x, rest, headlines);
    assert [] + rest == rest;
    Associative(emitted, flushed, Blocks(x, rest, headlines));
  }

  /** Regrouping the emitted entries, kept as a separate step: stated inline,
      it makes the headline step far costlier to check. */
  lemma Associative(a: seq<Entry>, b: seq<Entry>, c: seq<Entry>)
    ensures a + (b + c) == (a + b) + c
  {
  }

  lemma HeadlineInLead(all: seq<Entry>, emitted: seq<Entry>, x: string, rest: seq<string>, headlines: seq<string>)
    requires x in headlines
    requires all == emitted + Lead([x] + rest, headlines)
    ensures all == (emitted + []) + Blocks(x, [] + rest, headlines)
  {
    LeadAtHeadline(x, rest, headlines);
    assert [] + rest == rest;
    assert emitted + [] == emitted;
  }

  lemma LeadAtHeadline(x: string, rest: seq<string>, headlines: seq<string>)
    requires x in headlines
    ensures Lead([x] + rest, headlines) == Blocks(x, rest, headlines)
  {
    assert ([x] + rest)[1..] == rest;
  }

  lemma StepLone(all: seq<Entry>, emitted: seq<Entry>, eachPara: seq<string>, eachHeadline: string,
                 texts: seq<string>, i: nat, headlines: seq<string>, emitted': seq<Entry>)
    requires i < |texts| && |texts[i]| != 0 && texts[i] !in headlines
    requires Continues(all, emitted, eachPara, eachHeadline, false, texts, i, headlines)
    requires emitted' == emitted + [Entry(eachHeadline, Text(texts[i]))]
    ensures Continues(all, emitted', eachPara, eachHeadline, false, texts, i + 1, headlines)
  {
    var x, rest := texts[i], NonEmptyFrom(texts, i + 1);
    assert NonEmptyFrom(texts, i) == [x] + rest;
    assert Lead([x] + rest, headlines) == [Entry("", Text(x))] + Lead(rest, headlines) by {
      assert ([x] + rest)[1..] == rest;
    }
  }

  lemma StepParagraph(all: seq<Entry>, emitted: seq<Entry>, eachPara: seq<string>, eachHeadline: string,
                      newHeadline: bool, texts: seq<string>, i: nat, headlines: seq<string>)
    requires i < |texts| && |texts[i]| != 0 && texts[i] !in headlines
    requires |eachPara| != 0 || newHeadline
    requires Continues(all, emitted, eachPara, eachHeadline, newHeadline, texts, i, headlines)
    ensures Continues(all, emitted, eachPara + [texts[i]], eachHeadline, newHeadline, texts, i + 1, headlines)
  {
    assert newHeadline;
    NonEmptyFromCons(texts, i);
    var x, rest := texts[i], NonEmptyFrom(texts, i + 1);
    assert eachPara + ([x] + rest) == (eachPara + [x]) + rest;
    assert forall k :: 0 <= k < |eachPara + [x]| ==> (eachPara + [x])[k] !in headlines by {
      forall k | 0 <= k < |eachPara + [x]| ensures (eachPara + [x])[k] !in headlines {
        if k < |eachPara| {
          assert (eachPara + [x])[k] == eachPara[k];
        }
      }
    }
  }

  lemma StepEnd(all: seq<Entry>, emitted: seq<Entry>, eachPara: seq<string>, eachHeadline: string,
                newHeadline: bool, texts: seq<string>, headlines: seq<string>, emitted': seq<Entry>)
    requires Continues(all, emitted, eachPara, eachHeadline, newHeadline, texts, |texts|, headlines)
    requires emitted' == emitted + (if |eachPara| > 0 then [Entry(eachHeadline, Paras(eachPara))] else [])
    ensures emitted' == all
  {
    if newHeadline {
      BlocksAtEnd(eachHeadline, eachPara, headlines);
    }
  }

  /** The run is a prefix free of headlines and ends at a headline or at the end. */
  lemma {:induction false} RunIsCleanPrefix(ts: seq<string>, headlines: seq<string>)
    ensures Run(ts, headlines) == ts[..|Run(ts, headlines)|]
    ensures forall k :: 0 <= k < |Run(ts, headlines)| ==> Run(ts, headlines)[k] !in headlines
    ensures |Run(ts, headlines)| < |ts| ==> ts[|Run(ts, headlines)|] in headlines
    decreases |ts|
  {
    if ts != [] && ts[0] !in headlines {
      RunIsCleanPrefix(ts[1..], headlines);
      assert Run(ts, headlines) == [ts[0]] + Run(ts[1..], headlines);
    }
  }

  /** Paragraphs without headlines, then whatever follows: the run covers them. */
  lemma {:induction false} RunOfClean(a: seq<string>, b: seq<string>, headlines: seq<string>)
    requires forall k :: 0 <= k < |a| ==> a[k] !in headlines
    ensures Run(a + b, headlines) == a + Run(b, headlines)
    decreases |a|
  {
    if a == [] {
      assert a + b == b;
    } else {
      assert (a + b)[0] == a[0] && (a + b)[1..] == a[1..] + b;
      RunOfClean(a[1..], b, headlines);
    }
  }

  lemma BlocksAtHeadline(h: string, pending: seq<string>, x: string, rest: seq<string>, headlines: seq<string>)
    requires forall k :: 0 <= k < |pending| ==> pending[k] !in headlines
    requires x in headlines
    ensures Blocks(h, pending + ([x] + rest), headlines) ==
      (if pending == [] then [] else [Entry(h, Paras(pending))]) + Blocks(x, rest, headlines)
  {
    var ts := pending + ([x] + rest);
    RunOfClean(pending, [x] + rest, headlines);
    assert Run(ts, headlines) == pending;
    assert ts[|pending|] == x && ts[|pending| + 1..] == rest;
  }

  lemma BlocksAtEnd(h: string, pending: seq<string>, headlines: seq<string>)
    requires forall k :: 0 <= k < |pending| ==> pending[k] !in headlines
    ensures Blocks(h, pending + [], headlines) == (if pending == [] then [] else [Entry(h, Paras(pending))])
  {
    RunOfClean(pending, [], headlines);
    assert pending + [] == pending;
  }

  /** The non-empty texts are the input without its empty strings. */
  lemma {:induction false} NonEmptyFromFilter(texts: seq<string>, i: nat)
    requires i <= |texts|
    ensures NonEmptyFrom(texts, i) == Filter(texts[i..], NonEmpty())
    decreases |texts| - i
  {
    if i < |texts| {
      NonEmptyFromFilter(texts, i + 1);
      assert texts[i..][1..] == texts[i + 1..];
    }
  }

  // ---------------------------------------------------------------------------
  // Properties of the regrouping

  /** The texts an entry carries, in order. */
  function Values(es: seq<Entry>): seq<string> {
    if es == [] then []
    else (match es[0].value
          case Text(t) => [t]
          case Paras(ps) => ps) + Values(es[1..])
  }

  lemma {:induction false} ValuesConcat(a: seq<Entry>, b: seq<Entry>)
    ensures Values(a + b) == Values(a) + Values(b)
    decreases |a|
  {
    if a == [] {
      assert a + b == b;
    } else {
      assert (a + b)[0] == a[0] && (a + b)[1..] == a[1..] + b;
      ValuesConcat(a[1..], b);
    }
  }

  /** The texts of a page past a headline, by run: the run, then what follows
      the next headline. */
  lemma {:induction false} FilterAtRun(ts: seq<string>, headlines: seq<string>)
    ensures |Run(ts, headlines)| == |ts| ==> Filter(ts, NotHeadline(headlines)) == ts
    ensures |Run(ts, headlines)| < |ts| ==>
      Filter(ts, NotHeadline(headlines)) == Run(ts, headlines) + Filter(ts[|Run(ts, headlines)| + 1..], NotHeadline(headlines))
    decreases |ts|
  {
    if ts != [] && ts[0] !in headlines {
      var run' := Run(ts[1..], headlines);
      FilterAtRun(ts[1..], headlines);
      assert Run(ts, headlines) == [ts[0]] + run';
      assert Filter(ts, NotHeadline(headlines)) == [ts[0]] + Filter(ts[1..], NotHeadline(headlines));
      if |run'| < |ts[1..]| {
        assert ts[1..][|run'| + 1..] == ts[|run'| + 2..];
      } else {
        assert [ts[0]] + ts[1..] == ts;
      }
    }
  }

  lemma SectionValues(h: string, run: seq<string>)
    ensures Values(if run == [] then [] else [Entry(h, Paras(run))]) == run
  {
    if run != [] {
      assert [Entry(h, Paras(run))][1..] == [];
    }
  }

  lemma {:induction false} BlocksValues(h: string, ts: seq<string>, headlines: seq<string>)
    ensures Values(Blocks(h, ts, headlines)) == Filter(ts, NotHeadline(headlines))
    decreases |ts|
  {
    var run := Run(ts, headlines);
    var k := |run|;
    var head := if run == [] then [] else [Entry(h, Paras(run))];
    SectionValues(h, run);
    FilterAtRun(ts, headlines);
    if k == |ts| {
      RunIsCleanPrefix(ts, headlines);
      assert run == ts;
      assert Blocks(h, ts, headlines) == head + [];
      assert head + [] == head;
    } else {
      var tail := Blocks(ts[k], ts[k + 1..], headlines);
      assert Blocks(h, ts, headlines) == head + tail;
      BlocksValues(ts[k], ts[k + 1..], headlines);
      ValuesConcat(head, tail);
    }
  }

  lemma {:induction false} LeadValues(ts: seq<string>, headlines: seq<string>)
    ensures Values(Lead(ts, headlines)) == Filter(ts, NotHeadline(headlines))
    decreases |ts|
  {
    if ts == [] {
    } else if ts[0] in headlines {
      BlocksValues(ts[0], ts[1..], headlines);
    } else {
      LeadValues(ts[1..], headlines);
      ValuesConcat([Entry("", Text(ts[0]))], Lead(ts[1..], headlines));
    }
  }

  /** Every non-empty text that is not a headline appears exactly once among
      the values, in document order; empty texts and headlines never do. */
  lemma GroupedValues(texts: seq<string>, headlines: seq<string>)
    ensures Values(Grouped(texts, headlines)) == Filter(texts, BodyText(headlines))
    ensures forall k :: 0 <= k < |Values(Grouped(texts, headlines))| ==>
      Values(Grouped(texts, headlines))[k] != "" && Values(Grouped(texts, headlines))[k] !in headlines
  {
    NonEmptyFromFilter(texts, 0);
    assert texts[0..] == texts;
    LeadValues(Filter(texts, NonEmpty()), headlines);
    FilterFilter(texts, NonEmpty(), NotHeadline(headlines), BodyText(headlines));
  }

  /** Lone texts come first, under the key `""`; every later entry is a
      headline with a non-empty list of paragraphs. */
  predicate WellShaped(es: seq<Entry>, headlines: seq<string>) {
    (forall k :: 0 <= k < |es| && es[k].value.Text? ==> es[k].key == "") &&
    (forall k :: 0 <= k < |es| && es[k].value.Paras? ==> es[k].key in headlines && es[k].value.paras != []) &&
    (forall i, j :: 0 <= i < j < |es| && es[i].value.Paras? ==> es[j].value.Paras?)
  }

  predicate AllSections(es: seq<Entry>, headlines: seq<string>) {
    forall k :: 0 <= k < |es| ==> es[k].value.Paras? && es[k].key in headlines && es[k].value.paras != []
  }

  lemma {:induction false} BlocksShape(h: string, ts: seq<string>, headlines: seq<string>)
    requires h in headlines
    ensures AllSections(Blocks(h, ts, headlines), headlines)
    decreases |ts|
  {
    var run := Run(ts, headlines);
    RunIsCleanPrefix(ts, headlines);
    if |run| < |ts| {
      BlocksShape(ts[|run|], ts[|run| + 1..], headlines);
    }
  }

  lemma {:induction false} LeadShape(ts: seq<string>, headlines: seq<string>)
    ensures WellShaped(Lead(ts, headlines), headlines)
    decreases |ts|
  {
    if ts == [] {
    } else if ts[0] in headlines {
      BlocksShape(ts[0], ts[1..], headlines);
    } else {
      LeadShape(ts[1..], headlines);
      var es := Lead(ts, headlines);
      assert es[0] == Entry("", Text(ts[0]));
      assert forall k :: 1 <= k < |es| ==> es[k] == Lead(ts[1..], headlines)[k - 1];
    }
  }

  lemma GroupedShape(texts: seq<string>, headlines: seq<string>)
    ensures WellShaped(Grouped(texts, headlines), headlines)
  {
    LeadShape(NonEmptyFrom(texts, 0), headlines);
  }

  /** Empty texts are skipped, lone texts become string entries, a headline's
      paragraphs are collected into one list. */
  lemma GroupingExample()
    ensures Grouped(["", "a", "", "H", "b", "", "c"], ["H"]) ==
      [Entry("", Text("a")), Entry("H", Paras(["b", "c"]))]
  {
    ExampleTexts();
    ExampleLead();
  }

  lemma ExampleTexts()
    ensures NonEmptyFrom(["", "a", "", "H", "b", "", "c"], 0) == ["a", "H", "b", "c"]
  {
    var s := ["", "a", "", "H", "b", "", "c"];
    assert NonEmptyFrom(s, 7) == [];
    assert NonEmptyFrom(s, 6) == ["c"];
    assert NonEmptyFrom(s, 5) == ["c"];
    assert NonEmptyFrom(s, 4) == ["b", "c"];
    assert NonEmptyFrom(s, 3) == ["H", "b", "c"];
    assert NonEmptyFrom(s, 2) == ["H", "b", "c"];
    assert NonEmptyFrom(s, 1) == ["a", "H", "b", "c"];
  }

  lemma ExampleLead()
    ensures Lead(["a", "H", "b", "c"], ["H"]) == [Entry("", Text("a")), Entry("H", Paras(["b", "c"]))]
  {
    var hs := ["H"];
    assert "b" !in hs && "c" !in hs && "a" !in hs && "H" in hs;
    assert Run(["c"], hs) == ["c"];
    assert Run(["b", "c"], hs) == ["b", "c"] by {
      assert ["b", "c"][1..] == ["c"];
    }
    assert Blocks("H", ["b", "c"], hs) == [Entry("H", Paras(["b", "c"]))];
    assert Lead(["H", "b", "c"], hs) == Blocks("H", ["b", "c"], hs) by {
      assert ["H", "b", "c"][1..] == ["b", "c"];
    }
    assert Lead(["a", "H", "b", "c"], hs) == [Entry("", Text("a"))] + Lead(["H", "b", "c"], hs) by {
      assert ["a", "H", "b", "c"][1..] == ["H", "b", "c"];
    }
  }

  /** A headline followed directly by another headline, or by the end of the
      page, yields no entry: the page goes on as if it had not been there. */
  lemma HeadlineWithoutParagraphs(h: string, ts: seq<string>, headlines: seq<string>)
    requires ts == [] || ts[0] in headlines
    ensures Blocks(h, ts, headlines) == (if ts == [] then [] else Blocks(ts[0], ts[1..], headlines))
  {
    assert Run(ts, headlines) == [];
  }
}
