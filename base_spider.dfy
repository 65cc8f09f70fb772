/** The relevance gate every crawler inherits (`BaseSpider`): a date window, a
    minimum number of words, and a keyword test on the lower-cased tokens of
    the article that asks for enough matching tokens, spread far enough
    apart. Matching is substring containment of a configured stem in a token;
    compound stems of two or three words must match consecutive tokens. */
module Relevance {
  import opened Records
  import opened Seqs
  import opened Text

  // ---------------------------------------------------------------------------
  // Configuration

  /** A stem of more than one word, such as "bedingungslos* einkommen*". */
  predicate IsCompound(stem: string) {
    |Split(stem)| > 1
  }

  function NotIn(c: seq<string>): string -> bool {
    stem => stem !in c
  }

  /** The constructor's split of the configured stems into the single-word
      ones and the compound ones; when there is no compound stem the list is
      kept as it is. */
  function SplitStems(configured: seq<string>): (seq<string>, seq<string>) {
    var compound := Filter(configured, IsCompound);
    if compound != [] then (Filter(configured, NotIn(compound)), compound)
    else (configured, compound)
  }

  /** Both lists keep the configured order, and a stem lands in the compound
      list exactly when it has more than one word. */
  lemma SplitStemsSeparates(configured: seq<string>)
    ensures var (single, compound) := SplitStems(configured);
      Subsequence(single, configured) && Subsequence(compound, configured) &&
      (forall s :: s in single <==> s in configured && !IsCompound(s)) &&
      (forall s :: s in compound <==> s in configured && IsCompound(s))
  {
    var compound := Filter(configured, IsCompound);
    FilterMembers(configured, IsCompound);
    FilterSubsequence(configured, IsCompound);
    FilterSubsequence(configured, NotIn(compound));
    FilterMembers(configured, NotIn(compound));
    if compound == [] {
      SubsequenceRefl(configured);
      forall s | s in configured ensures !IsCompound(s) {
        var i :| 0 <= i < |configured| && configured[i] == s;
      }
    }
  }

  // ---------------------------------------------------------------------------
  // Token positions and matches

  /** `tokens.index(x)`: the first position holding `x`. */
  function Index(tokens: seq<string>, x: string): (i: nat)
    requires x in tokens
    ensures i < |tokens| && tokens[i] == x
    ensures forall j :: 0 <= j < i ==> tokens[j] != x
  {
    if tokens[0] == x then 0 else 1 + Index(tokens[1..], x)
  }

  /** `pos` is where `token` first occurs in `tokens`. */
  predicate AtFirstIndex(tokens: seq<string>, pos: int, token: string) {
    0 <= pos < |tokens| && tokens[pos] == token &&
    forall j :: 0 <= j < pos ==> tokens[j] != token
  }

  /** `any(keyword in token for keyword in stems)`. */
  predicate MatchesSome(stems: seq<string>, token: string) {
    exists k :: 0 <= k < |stems| && Contains(token, stems[k])
  }

  function Matching(stems: seq<string>): string -> bool {
    token => MatchesSome(stems, token)
  }

  /** A recorded match: the position `tokens.index(token)` and the token. */
  datatype Hit = Hit(pos: nat, token: string)

  /** A compound match: the position and token of its first word, and the stem. */
  datatype CompoundHit = CompoundHit(pos: nat, token: string, stem: string)

  /** The single-stem matches of the tokens from position `i` on, one per
      matching token, in token order. */
  function SingleHitsFrom(tokens: seq<string>, stems: seq<string>, i: nat): seq<Hit>
    requires i <= |tokens|
    decreases |tokens| - i
  {
    if i == |tokens| then []
    else
      (if MatchesSome(stems, tokens[i]) then [Hit(Index(tokens, tokens[i]), tokens[i])] else []) +
      SingleHitsFrom(tokens, stems, i + 1)
  }

  function SingleHits(tokens: seq<string>, stems: seq<string>): seq<Hit> {
    SingleHitsFrom(tokens, stems, 0)
  }

  /** Every matching token is recorded once: the number of single-stem matches
      is the number of matching tokens, repeated tokens counted each time. */
  lemma {:induction false} SingleHitsCount(tokens: seq<string>, stems: seq<string>, i: nat)
    requires i <= |tokens|
    ensures |SingleHitsFrom(tokens, stems, i)| == |Filter(tokens[i..], Matching(stems))|
    decreases |tokens| - i
  {
    if i < |tokens| {
      SingleHitsCount(tokens, stems, i + 1);
      assert tokens[i..][1..] == tokens[i + 1..];
    }
  }

  /** A single-stem match is a matching token recorded at its first index. */
  lemma {:induction false} SingleHitsAtFirstIndex(tokens: seq<string>, stems: seq<string>, i: nat)
    requires i <= |tokens|
    ensures forall h :: h in SingleHitsFrom(tokens, stems, i) ==>
      AtFirstIndex(tokens, h.pos, h.token) && MatchesSome(stems, h.token)
    decreases |tokens| - i
  {
    if i < |tokens| {
      SingleHitsAtFirstIndex(tokens, stems, i + 1);
    }
  }

  /** Python's `a and b and …` over the words `parts[j..]` of a compound stem
      against the tokens from `pos + j` on: every word is contained in its
      token. Where Python would read past the last token the value here is
      false; `InRange` says when that cannot happen. */
  predicate PartsFrom(tokens: seq<string>, pos: nat, parts: seq<string>, j: nat)
    requires j <= |parts|
    decreases |parts| - j
  {
    j == |parts| ||
    (pos + j < |tokens| && Contains(tokens[pos + j], parts[j]) && PartsFrom(tokens, pos, parts, j + 1))
  }

  /** Evaluating `PartsFrom` from word `j` on never indexes past the last
      token: the short-circuit stops at the first failing word. */
  predicate InRange(tokens: seq<string>, pos: nat, parts: seq<string>, j: nat)
    requires j <= |parts|
    decreases |parts| - j
  {
    j == |parts| ||
    (pos + j < |tokens| && (Contains(tokens[pos + j], parts[j]) ==> InRange(tokens, pos, parts, j + 1)))
  }

  predicate HasParts(stem: string, n: nat) {
    |Split(stem)| == n
  }

  function Doubles(compound: seq<string>): seq<string> {
    Filter(compound, stem => HasParts(stem, 2))
  }

  function Triples(compound: seq<string>): seq<string> {
    Filter(compound, stem => HasParts(stem, 3))
  }

  /** The compound matches whose first word is the token at `pos`, one per
      matching stem, in stem order. */
  function StemHits(tokens: seq<string>, pos: nat, stems: seq<string>): seq<CompoundHit>
    requires pos < |tokens|
  {
    if stems == [] then []
    else
      (if PartsFrom(tokens, pos, Split(stems[0]), 0) then [CompoundHit(pos, tokens[pos], stems[0])] else []) +
      StemHits(tokens, pos, stems[1..])
  }

  /** `[(tokens.index(token), token, keyword) for token in tokens[i:] for
      keyword in stems if …]`. */
  function CompoundHitsFrom(tokens: seq<string>, stems: seq<string>, i: nat): seq<CompoundHit>
    requires i <= |tokens|
    decreases |tokens| - i
  {
    if i == |tokens| then []
    else StemHits(tokens, Index(tokens, tokens[i]), stems) + CompoundHitsFrom(tokens, stems, i + 1)
  }

  function CompoundHits(tokens: seq<string>, stems: seq<string>): seq<CompoundHit> {
    CompoundHitsFrom(tokens, stems, 0)
  }

  /** A compound match starts at the first index of its token and all the
      words of its stem match the consecutive tokens from there. */
  predicate Sound(tokens: seq<string>, stems: seq<string>, h: CompoundHit) {
    AtFirstIndex(tokens, h.pos, h.token) && h.stem in stems &&
    PartsFrom(tokens, h.pos, Split(h.stem), 0)
  }

  lemma {:induction false} StemHitsSound(tokens: seq<string>, pos: nat, stems: seq<string>)
    requires pos < |tokens| && AtFirstIndex(tokens, pos, tokens[pos])
    ensures forall h :: h in StemHits(tokens, pos, stems) ==> Sound(tokens, stems, h)
  {
    if stems != [] {
      StemHitsSound(tokens, pos, stems[1..]);
    }
  }

  lemma {:induction false} StemHitsComplete(tokens: seq<string>, pos: nat, stems: seq<string>)
    requires pos < |tokens|
    ensures forall k :: 0 <= k < |stems| && PartsFrom(tokens, pos, Split(stems[k]), 0) ==>
      CompoundHit(pos, tokens[pos], stems[k]) in StemHits(tokens, pos, stems)
  {
    if stems != [] {
      StemHitsComplete(tokens, pos, stems[1..]);
      forall k | 0 < k < |stems| ensures stems[k] == stems[1..][k - 1] { }
    }
  }

  /** The compound matches are exactly the sound ones: each starts at the
      first index of its token, and every token position whose first index
      starts a match of some stem is reported. */
  lemma {:induction false} CompoundHitsSound(tokens: seq<string>, stems: seq<string>, i: nat)
    requires i <= |tokens|
    ensures forall h :: h in CompoundHitsFrom(tokens, stems, i) ==> Sound(tokens, stems, h)
    decreases |tokens| - i
  {
    if i < |tokens| {
      StemHitsSound(tokens, Index(tokens, tokens[i]), stems);
      CompoundHitsSound(tokens, stems, i + 1);
    }
  }

  lemma {:induction false} CompoundHitsComplete(tokens: seq<string>, stems: seq<string>, i: nat)
    requires i <= |tokens|
    ensures forall t, k ::
      i <= t < |tokens| && 0 <= k < |stems| && PartsFrom(tokens, Index(tokens, tokens[t]), Split(stems[k]), 0)
      ==> CompoundHit(Index(tokens, tokens[t]), tokens[t], stems[k]) in CompoundHitsFrom(tokens, stems, i)
    decreases |tokens| - i
  {
    if i < |tokens| {
      StemHitsComplete(tokens, Index(tokens, tokens[i]), stems);
      CompoundHitsComplete(tokens, stems, i + 1);
    }
  }

  lemma {:induction false} CompoundHitsOfNoStems(tokens: seq<string>, i: nat)
    requires i <= |tokens|
    ensures CompoundHitsFrom(tokens, [], i) == []
    decreases |tokens| - i
  {
    if i < |tokens| {
      CompoundHitsOfNoStems(tokens, i + 1);
    }
  }

  /** No compound comparison of the gate reads past the last token: the
      source raises `IndexError` when the first word of a compound stem
      matches a token whose first index is too close to the end. */
  predicate NoIndexError(tokens: seq<string>, compound: seq<string>) {
    forall t, k ::
      0 <= t < |tokens| && 0 <= k < |compound| && (HasParts(compound[k], 2) || HasParts(compound[k], 3))
      ==> InRange(tokens, Index(tokens, tokens[t]), Split(compound[k]), 0)
  }

  // ---------------------------------------------------------------------------
  // Merging compound matches into the single-stem matches

  function Starts(hs: seq<CompoundHit>): seq<int> {
    seq(|hs|, k requires 0 <= k < |hs| => hs[k].pos as int)
  }

  function Heads(hs: seq<CompoundHit>): seq<Hit> {
    seq(|hs|, k requires 0 <= k < |hs| => Hit(hs[k].pos, hs[k].token))
  }

  function StemsOf(hs: seq<CompoundHit>): seq<string> {
    seq(|hs|, k requires 0 <= k < |hs| => hs[k].stem)
  }

  function HitKey(h: Hit): Hit { h }

  function StemKey(s: string): string { s }

  function NotAfterStart(starts: seq<int>): Hit -> bool {
    (h: Hit) => h.pos - 1 !in starts
  }

  function NotAtOrBeforeStart(starts: seq<int>): Hit -> bool {
    (h: Hit) => h.pos !in starts && h.pos + 1 !in starts
  }

  /** The single matches a stage keeps, and the compound matches it adds:
      `list(set(...))` of their (position, token) pairs. */
  function Kept(hits: seq<Hit>, keep: Hit -> bool): seq<Hit> {
    Filter(hits, keep)
  }

  function Added(hs: seq<CompoundHit>): seq<Hit> {
    DedupBy(Heads(hs), HitKey)
  }

  /** Lines 116-123: with two-word matches present, drop the single matches
      right after a two-word start, then add each two-word match once. */
  function DoubleStage(hits: seq<Hit>, dh: seq<CompoundHit>): seq<Hit> {
    if dh == [] then hits
    else Kept(hits, NotAfterStart(Starts(dh))) + Added(dh)
  }

  /** Lines 132-139: the same with three-word matches, dropping the matches at
      a three-word start and right before one. */
  function TripleStage(hits: seq<Hit>, th: seq<CompoundHit>): seq<Hit> {
    if th == [] then hits
    else Kept(hits, NotAtOrBeforeStart(Starts(th))) + Added(th)
  }

  /** The matches the frequency and distance checks see. */
  function GateHits(tokens: seq<string>, stems: seq<string>, compound: seq<string>): seq<Hit> {
    TripleStage(
      DoubleStage(SingleHits(tokens, stems), CompoundHits(tokens, Doubles(compound))),
      CompoundHits(tokens, Triples(compound)))
  }

  /** The compound stems that matched: the two-word ones once each, then the
      three-word ones once per match. */
  function MatchedCompoundStems(tokens: seq<string>, compound: seq<string>): seq<string> {
    DoubleStems(CompoundHits(tokens, Doubles(compound))) + StemsOf(CompoundHits(tokens, Triples(compound)))
  }

  function DoubleStems(dh: seq<CompoundHit>): seq<string> {
    if dh == [] then [] else DedupBy(StemsOf(dh), StemKey)
  }

  /** With two-word matches `dh` present, a single match survives exactly when
      the position before it does not start a two-word match. */
  lemma DoubleStageKeeps(hits: seq<Hit>, dh: seq<CompoundHit>)
    ensures forall h :: h in Kept(hits, NotAfterStart(Starts(dh))) <==>
      h in hits && h.pos - 1 !in Starts(dh)
  {
    FilterMembers(hits, NotAfterStart(Starts(dh)));
    forall h | h in hits && h.pos - 1 !in Starts(dh) ensures h in Kept(hits, NotAfterStart(Starts(dh))) {
      var k :| 0 <= k < |hits| && hits[k] == h;
    }
  }

  /** With three-word matches `th` present, a single match survives exactly
      when neither its position nor the next one starts a three-word match. */
  lemma TripleStageKeeps(hits: seq<Hit>, th: seq<CompoundHit>)
    ensures forall h :: h in Kept(hits, NotAtOrBeforeStart(Starts(th))) <==>
      h in hits && h.pos !in Starts(th) && h.pos + 1 !in Starts(th)
  {
    FilterMembers(hits, NotAtOrBeforeStart(Starts(th)));
    forall h | h in hits && h.pos !in Starts(th) && h.pos + 1 !in Starts(th)
      ensures h in Kept(hits, NotAtOrBeforeStart(Starts(th)))
    {
      var k :| 0 <= k < |hits| && hits[k] == h;
    }
  }

  /** The matches a stage adds are its compound matches, each start position
      once (a position determines its token). */
  lemma AddedOncePerStart(tokens: seq<string>, hs: seq<CompoundHit>)
    requires forall h :: h in hs ==> h.pos < |tokens| && h.token == tokens[h.pos]
    ensures forall h :: h in hs ==> Hit(h.pos, h.token) in Added(hs)
    ensures forall h :: h in Added(hs) ==> h in Heads(hs)
    ensures forall a, b :: 0 <= a < b < |Added(hs)| ==> Added(hs)[a].pos != Added(hs)[b].pos
  {
    var added := Added(hs);
    DedupMembers(Heads(hs), HitKey);
    forall h | h in hs ensures Hit(h.pos, h.token) in Heads(hs) {
      var k :| 0 <= k < |hs| && hs[k] == h;
      assert Heads(hs)[k] == Hit(h.pos, h.token);
    }
    DedupDistinct(Heads(hs), HitKey);
    forall a, b | 0 <= a < b < |added| ensures added[a].pos != added[b].pos {
      assert added[a] in Heads(hs) && added[b] in Heads(hs);
      var ka :| 0 <= ka < |hs| && Heads(hs)[ka] == added[a];
      var kb :| 0 <= kb < |hs| && Heads(hs)[kb] == added[b];
      assert hs[ka] in hs && hs[kb] in hs;
      assert HitKey(added[a]) != HitKey(added[b]);
    }
  }

  /** Compound matches start at the index of their own token. */
  lemma CompoundHitsOwnToken(tokens: seq<string>, stems: seq<string>)
    ensures forall h :: h in CompoundHits(tokens, stems) ==> h.pos < |tokens| && h.token == tokens[h.pos]
  {
    CompoundHitsSound(tokens, stems, 0);
  }

  // ---------------------------------------------------------------------------
  // The frequency and distance checks, and the recorded stems

  function Positions(hits: seq<Hit>): seq<int> {
    seq(|hits|, k requires 0 <= k < |hits| => hits[k].pos as int)
  }

  function Tokens(hits: seq<Hit>): seq<string> {
    seq(|hits|, k requires 0 <= k < |hits| => hits[k].token)
  }

  function Abs(x: int): nat {
    if x < 0 then -x else x
  }

  /** `any(abs(p1 - p2) >= d for (p1, p2) in combinations(positions, 2))`. */
  predicate SomePairApart(positions: seq<int>, d: int) {
    exists i, j :: 0 <= i < j < |positions| && Abs(positions[i] - positions[j]) >= d
  }

  /** What the gate accepts, given the matches it recorded. */
  predicate Accepts(hits: seq<Hit>, minFrequency: int, minDistance: int) {
    hits != [] && |Positions(hits)| >= minFrequency && SomePairApart(Positions(hits), minDistance)
  }

  /** Acceptance needs at least two recorded matches, even with a minimum
      frequency of one, and two of them at least `minDistance` apart. */
  lemma AcceptsNeedsTwoApart(hits: seq<Hit>, minFrequency: int, minDistance: int)
    requires Accepts(hits, minFrequency, minDistance)
    ensures |hits| >= minFrequency && |hits| >= 2
    ensures exists i, j :: 0 <= i < j < |hits| && Abs(hits[i].pos - hits[j].pos) >= minDistance
  {
    var ps := Positions(hits);
    var i, j :| 0 <= i < j < |ps| && Abs(ps[i] - ps[j]) >= minDistance;
    assert ps[i] == hits[i].pos && ps[j] == hits[j].pos;
  }

  /** Conversely, enough matches with one pair far enough apart are accepted. */
  lemma TwoApartAccepted(hits: seq<Hit>, minFrequency: int, minDistance: int, i: int, j: int)
    requires |hits| >= minFrequency
    requires 0 <= i < j < |hits| && Abs(hits[i].pos - hits[j].pos) >= minDistance
    ensures Accepts(hits, minFrequency, minDistance)
  {
    var ps := Positions(hits);
    assert ps[i] == hits[i].pos && ps[j] == hits[j].pos;
  }

  function InSomeToken(tokens: seq<string>): string -> bool {
    stem => exists t :: t in tokens && Contains(t, stem)
  }

  /** `query_keywords` after a successful gate: the single stems contained in
      some matched token, then the matched compound stems, each once. */
  function RecordedStems(stems: seq<string>, hits: seq<Hit>, compoundMatched: seq<string>): seq<string> {
    DedupBy(Filter(stems, InSomeToken(Tokens(hits))), StemKey) + DedupBy(compoundMatched, StemKey)
  }

  lemma RecordedStemsMembers(stems: seq<string>, hits: seq<Hit>, compoundMatched: seq<string>)
    ensures forall s :: s in RecordedStems(stems, hits, compoundMatched) <==>
      (s in stems && exists h :: h in hits && Contains(h.token, s)) || s in compoundMatched
  {
    var f := Filter(stems, InSomeToken(Tokens(hits)));
    FilterMembers(stems, InSomeToken(Tokens(hits)));
    DedupMembers(f, StemKey);
    DedupMembers(compoundMatched, StemKey);
    forall s | s in stems ensures InSomeToken(Tokens(hits))(s) <==> exists h :: h in hits && Contains(h.token, s) {
      if InSomeToken(Tokens(hits))(s) {
        var t :| t in Tokens(hits) && Contains(t, s);
        var k :| 0 <= k < |hits| && Tokens(hits)[k] == t;
        assert hits[k] in hits;
      }
      if exists h :: h in hits && Contains(h.token, s) {
        var h :| h in hits && Contains(h.token, s);
        var k :| 0 <= k < |hits| && hits[k] == h;
        assert Tokens(hits)[k] == h.token;
      }
    }
    forall s | s in stems && InSomeToken(Tokens(hits))(s) ensures s in f {
      var k :| 0 <= k < |stems| && stems[k] == s;
    }
  }

  /** The compound stems recorded are exactly the stems of the two- and
      three-word matches. */
  lemma MatchedCompoundStemsMembers(tokens: seq<string>, compound: seq<string>)
    ensures forall s :: s in MatchedCompoundStems(tokens, compound) <==>
      exists h :: (h in CompoundHits(tokens, Doubles(compound)) || h in CompoundHits(tokens, Triples(compound))) && h.stem == s
  {
    var dh := CompoundHits(tokens, Doubles(compound));
    var th := CompoundHits(tokens, Triples(compound));
    StemsOfMembers(dh);
    StemsOfMembers(th);
    if dh != [] {
      DedupMembers(StemsOf(dh), StemKey);
    }
  }

  lemma StemsOfMembers(hs: seq<CompoundHit>)
    ensures forall s :: s in StemsOf(hs) <==> exists h :: h in hs && h.stem == s
  {
    forall s | s in StemsOf(hs) ensures exists h :: h in hs && h.stem == s {
      var k :| 0 <= k < |hs| && StemsOf(hs)[k] == s;
      assert hs[k] in hs;
    }
    forall h | h in hs ensures h.stem in StemsOf(hs) {
      var k :| 0 <= k < |hs| && hs[k] == h;
      assert StemsOf(hs)[k] == h.stem;
    }
  }

  // ---------------------------------------------------------------------------
  // What the gate therefore promises

  /** Without compound stems the checks see exactly the single-stem matches. */
  lemma NoCompoundGate(tokens: seq<string>, stems: seq<string>)
    ensures GateHits(tokens, stems, []) == SingleHits(tokens, stems)
    ensures MatchedCompoundStems(tokens, []) == []
  {
    assert Doubles([]) == [] && Triples([]) == [];
    CompoundHitsOfNoStems(tokens, 0);
  }

  /** When no compound stem matches, the checks see exactly the single-stem
      matches. */
  lemma NoCompoundMatchGate(tokens: seq<string>, stems: seq<string>, compound: seq<string>)
    requires CompoundHits(tokens, Doubles(compound)) == [] && CompoundHits(tokens, Triples(compound)) == []
    ensures GateHits(tokens, stems, compound) == SingleHits(tokens, stems)
  {
  }

  /** When no compound stem matches (in particular, when none is configured),
      fewer matching tokens (repeats counted) than the minimum frequency
      reject the article. */
  lemma FewMatchesRejected(tokens: seq<string>, stems: seq<string>, compound: seq<string>,
                           minFrequency: int, minDistance: int)
    requires CompoundHits(tokens, Doubles(compound)) == [] && CompoundHits(tokens, Triples(compound)) == []
    requires |Filter(tokens, Matching(stems))| < minFrequency
    ensures !Accepts(GateHits(tokens, stems, compound), minFrequency, minDistance)
  {
    SingleHitsCount(tokens, stems, 0);
    assert tokens[0..] == tokens;
    NoCompoundMatchGate(tokens, stems, compound);
  }

  /** Positions are first indices, so when every matching token is the same
      word and no compound stem matches, all matches share one position and
      no positive minimum distance is met, however far apart the repeats are. */
  lemma RepeatedWordRejected(tokens: seq<string>, stems: seq<string>, compound: seq<string>, word: string,
                             minFrequency: int, minDistance: int)
    requires CompoundHits(tokens, Doubles(compound)) == [] && CompoundHits(tokens, Triples(compound)) == []
    requires forall t :: 0 <= t < |tokens| && MatchesSome(stems, tokens[t]) ==> tokens[t] == word
    requires minDistance >= 1
    ensures !Accepts(GateHits(tokens, stems, compound), minFrequency, minDistance)
  {
    NoCompoundMatchGate(tokens, stems, compound);
    var hits := SingleHits(tokens, stems);
    SingleHitsAtFirstIndex(tokens, stems, 0);
    forall i, j | 0 <= i < j < |Positions(hits)| ensures Abs(Positions(hits)[i] - Positions(hits)[j]) < minDistance {
      assert hits[i] in hits && hits[j] in hits;
      var p := hits[i].pos;
      assert tokens[p] == hits[i].token;
      assert hits[i].token == word && hits[j].token == word;
    }
  }

  /** Every match the checks see sits at the first index of its token. */
  lemma GateHitsAtFirstIndex(tokens: seq<string>, stems: seq<string>, compound: seq<string>)
    ensures forall h :: h in GateHits(tokens, stems, compound) ==> AtFirstIndex(tokens, h.pos, h.token)
  {
    SingleHitsAtFirstIndex(tokens, stems, 0);
    var dh := CompoundHits(tokens, Doubles(compound));
    var th := CompoundHits(tokens, Triples(compound));
    CompoundHitsSound(tokens, Doubles(compound), 0);
    CompoundHitsSound(tokens, Triples(compound), 0);
    HeadsAtFirstIndex(tokens, Doubles(compound), dh);
    HeadsAtFirstIndex(tokens, Triples(compound), th);
    var s1 := DoubleStage(SingleHits(tokens, stems), dh);
    StageAtFirstIndex(tokens, SingleHits(tokens, stems), dh, NotAfterStart(Starts(dh)));
    StageAtFirstIndex(tokens, s1, th, NotAtOrBeforeStart(Starts(th)));
  }

  lemma HeadsAtFirstIndex(tokens: seq<string>, stems: seq<string>, hs: seq<CompoundHit>)
    requires forall h :: h in hs ==> Sound(tokens, stems, h)
    ensures forall h :: h in Heads(hs) ==> AtFirstIndex(tokens, h.pos, h.token)
  {
    forall h | h in Heads(hs) ensures AtFirstIndex(tokens, h.pos, h.token) {
      var k :| 0 <= k < |hs| && Heads(hs)[k] == h;
      assert hs[k] in hs;
    }
  }

  lemma StageAtFirstIndex(tokens: seq<string>, hits: seq<Hit>, hs: seq<CompoundHit>, keep: Hit -> bool)
    requires forall h :: h in hits ==> AtFirstIndex(tokens, h.pos, h.token)
    requires forall h :: h in Heads(hs) ==> AtFirstIndex(tokens, h.pos, h.token)
    ensures forall h :: h in Kept(hits, keep) + Added(hs) ==> AtFirstIndex(tokens, h.pos, h.token)
  {
    FilterMembers(hits, keep);
    DedupMembers(Heads(hs), HitKey);
    forall h | h in Filter(hits, keep) ensures h in hits {
      var k :| 0 <= k < |Filter(hits, keep)| && Filter(hits, keep)[k] == h;
    }
  }

  /** Only the text is lower-cased, never the stems: a stem holding an ASCII
      capital letter is contained in no token, so it never matches. */
  lemma CapitalStemNeverMatches(text: string, stem: string, c: int)
    requires 0 <= c < |stem| && 'A' <= stem[c] <= 'Z'
    ensures forall t :: t in Split(Lower(text)) ==> !Contains(t, stem)
  {
    SplitTakesChars(Lower(text));
    forall t | t in Split(Lower(text)) ensures !Contains(t, stem) {
      forall i | 0 <= i <= |t| - |stem| ensures !Occurs(stem, t, i) {
        var m :| 0 <= m < |Lower(text)| && Lower(text)[m] == t[i + c];
        assert t[i + c] != stem[c];
        assert t[i..i + |stem|][c] == t[i + c];
      }
    }
  }

  /** Every character of a token of `split()` is a character of the text. */
  lemma {:induction false} SplitTakesChars(s: string)
    ensures forall t, j :: t in Split(s) && 0 <= j < |t| ==> t[j] in s
    decreases |s|
  {
    if s == [] {
    } else if IsSpace(s[0]) {
      SplitTakesChars(s[1..]);
      forall c | c in s[1..] ensures c in s { }
    } else {
      var w := Word(s);
      SplitTakesChars(s[|w|..]);
      forall c | c in s[|w|..] ensures c in s { }
      forall c | c in w ensures c in s { }
    }
  }

  // ---------------------------------------------------------------------------
  // The spider

  /** The configuration a spider is built from, and the stems its last
      accepted article matched. */
  class BaseSpider {
    const startDate: Timestamp
    const endDate: Timestamp
    const articleLength: int
    const keywords: seq<string>
    const compoundKeywords: seq<string>
    const keywordsCombinations: seq<seq<string>>
    const keywordsMinFrequency: int
    const keywordsMinDistance: int
    var queryKeywords: seq<string>

    /** Every setting must be present and non-zero (the source raises
        `NotConfigured` otherwise); the dates arrive parsed. */
    constructor (startDate: Timestamp, endDate: Timestamp, articleLength: int,
                 configured: seq<string>, minFrequency: int, minDistance: int)
      requires articleLength != 0 && configured != [] && minFrequency != 0 && minDistance != 0
      ensures this.startDate == startDate && this.endDate == endDate
      ensures this.articleLength == articleLength
      ensures (keywords, compoundKeywords) == SplitStems(configured)
      ensures keywordsCombinations == []
      ensures keywordsMinFrequency == minFrequency && keywordsMinDistance == minDistance
      ensures queryKeywords == []
    {
      this.startDate := startDate;
      this.endDate := endDate;
      this.articleLength := articleLength;
      var compound := Filter(configured, IsCompound);
      var single := configured;
      if compound != [] {
        single := Filter(configured, NotIn(compound));
      }
      keywords := single;
      compoundKeywords := compound;
      keywordsCombinations := [];
      keywordsMinFrequency := minFrequency;
      keywordsMinDistance := minDistance;
      queryKeywords := [];
    }

    /** An article is out of date exactly when its date lies outside the
        window; both bounds belong to the window. */
    function IsOutOfDate(date: Timestamp): (r: bool)
      ensures !r <==> startDate <= date <= endDate
    {
      date < startDate || date > endDate
    }

    /** The text has at least `articleLength` words, counted as the places
        where a word starts. */
    function HasMinLength(text: string): (r: bool)
      ensures r <==> WordStarts(text, false) >= articleLength
    {
      SplitCountsWordStarts(text);
      |Split(text)| >= articleLength
    }

    /** The keyword test on the lower-cased tokens of `text`. Keyword
        combinations are never configured, so the whole test is the
        split-stem one. */
    method HasValidKeywords(text: string) returns (r: bool)
      requires keywordsCombinations == [] ==> NoIndexError(Split(Lower(text)), compoundKeywords)
      modifies this
      ensures var tokens := Split(Lower(text));
        r == (keywordsCombinations == [] &&
              Accepts(GateHits(tokens, keywords, compoundKeywords), keywordsMinFrequency, keywordsMinDistance))
      ensures var tokens := Split(Lower(text));
        r ==> queryKeywords == RecordedStems(keywords, GateHits(tokens, keywords, compoundKeywords),
                                             MatchedCompoundStems(tokens, compoundKeywords))
      ensures !r ==> queryKeywords == old(queryKeywords)
    {
      var tokens := Split(Lower(text));
      if keywordsCombinations == [] {
        r := HasValidStems(tokens);
      } else {
        r := false;
      }
    }

    /** The split-stem keyword test on a token list. */
    method HasValidStems(tokens: seq<string>) returns (r: bool)
      requires NoIndexError(tokens, compoundKeywords)
      modifies this
      ensures r == Accepts(GateHits(tokens, keywords, compoundKeywords), keywordsMinFrequency, keywordsMinDistance)
      ensures r ==> queryKeywords == RecordedStems(keywords, GateHits(tokens, keywords, compoundKeywords),
                                                   MatchedCompoundStems(tokens, compoundKeywords))
      ensures !r ==> queryKeywords == old(queryKeywords)
    {
      var matching, compoundQuery := CollectMatches(tokens);
      if matching != [] {
        var positions := Positions(matching);
        var matchedTokens := Tokens(matching);
        if |positions| >= keywordsMinFrequency {
          if SomePairApart(positions, keywordsMinDistance) {
            queryKeywords := DedupBy(Filter(keywords, InSomeToken(matchedTokens)), StemKey);
            if compoundQuery != [] {
              queryKeywords := queryKeywords + DedupBy(compoundQuery, StemKey);
            }
            return true;
          }
        }
      }
      return false;
    }

    /** Lines 105-142: the single-stem matches, revised by the two-word and
        then the three-word matches, and the compound stems that matched. */
    method CollectMatches(tokens: seq<string>) returns (matching: seq<Hit>, compoundQuery: seq<string>)
      requires NoIndexError(tokens, compoundKeywords)
      ensures matching == GateHits(tokens, keywords, compoundKeywords)
      ensures compoundQuery == MatchedCompoundStems(tokens, compoundKeywords)
    {
      matching := SingleHits(tokens, keywords);
      compoundQuery := [];
      if compoundKeywords != [] {
        matching, compoundQuery := MergeDoubles(tokens, matching, compoundQuery);
        ghost var doubleStems := compoundQuery;
        assert doubleStems == DoubleStems(CompoundHits(tokens, Doubles(compoundKeywords)));
        matching, compoundQuery := MergeTriples(tokens, matching, compoundQuery);
        assert compoundQuery == doubleStems + StemsOf(CompoundHits(tokens, Triples(compoundKeywords)));
      } else {
        NoCompoundGate(tokens, keywords);
      }
    }

    /** Lines 111-126. */
    method MergeDoubles(tokens: seq<string>, hits: seq<Hit>, cq: seq<string>)
      returns (matching: seq<Hit>, compoundQuery: seq<string>)
      requires NoIndexError(tokens, compoundKeywords)
      ensures var dh := CompoundHits(tokens, Doubles(compoundKeywords));
        matching == DoubleStage(hits, dh) &&
        compoundQuery == cq + DoubleStems(dh)
    {
      matching, compoundQuery := hits, cq;
      var doubles := Doubles(compoundKeywords);
      if doubles != [] {
        var doubleHits := CompoundHits(tokens, doubles);
        if doubleHits != [] {
          var starts := Starts(doubleHits);
          matching := Filter(matching, NotAfterStart(starts));
          matching := matching + DedupBy(Heads(doubleHits), HitKey);
          compoundQuery := compoundQuery + DedupBy(StemsOf(doubleHits), StemKey);
        }
      } else {
        CompoundHitsOfNoStems(tokens, 0);
      }
    }

    /** Lines 112 and 129-142. */
    method MergeTriples(tokens: seq<string>, hits: seq<Hit>, cq: seq<string>)
      returns (matching: seq<Hit>, compoundQuery: seq<string>)
      requires NoIndexError(tokens, compoundKeywords)
      ensures var th := CompoundHits(tokens, Triples(compoundKeywords));
        matching == TripleStage(hits, th) && compoundQuery == cq + StemsOf(th)
    {
      matching, compoundQuery := hits, cq;
      var triples := Triples(compoundKeywords);
      if triples != [] {
        var tripleHits := CompoundHits(tokens, triples);
        if tripleHits != [] {
          var starts := Starts(tripleHits);
          matching := Filter(matching, NotAtOrBeforeStart(starts));
          matching := matching + DedupBy(Heads(tripleHits), HitKey);
          compoundQuery := compoundQuery + StemsOf(tripleHits);
        }
      } else {
        CompoundHitsOfNoStems(tokens, 0);
      }
    }

    /** The stems recorded by the last accepted article. */
    function GetQueryKeywords(): (r: seq<string>)
      reads this
      ensures r == queryKeywords
    {
      queryKeywords
    }
  }
}
