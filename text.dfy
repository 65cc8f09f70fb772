/** Python's string primitives that the crawler and the corpus scripts rely on:
    `str.isspace`, `str.split()`, `str.strip()`, `sep.join`, `str.lower()`,
    substring containment (`in`) and the left-to-right, non-overlapping search
    of a literal pattern (`re.finditer` / `re.findall` on a pattern without
    special characters). */
module Text {

  /** The characters for which Python's `str.isspace()` holds; `split()` and
      `strip()` without arguments separate and trim on exactly these. */
  const SpaceChars: set<char> := {
    ' ', '\t', '\n', '\U{0B}', '\U{0C}', '\r', '\U{1C}', '\U{1D}', '\U{1E}', '\U{1F}',
    '\U{85}', '\U{A0}', '\U{1680}',
    '\U{2000}', '\U{2001}', '\U{2002}', '\U{2003}', '\U{2004}', '\U{2005}',
    '\U{2006}', '\U{2007}', '\U{2008}', '\U{2009}', '\U{200A}',
    '\U{2028}', '\U{2029}', '\U{202F}', '\U{205F}', '\U{3000}'
  }

  predicate IsSpace(c: char) {
    c in SpaceChars
  }

  /** A token of `split()`: non-empty and free of whitespace. */
  predicate IsWord(w: string) {
    |w| > 0 && forall i :: 0 <= i < |w| ==> !IsSpace(w[i])
  }

  // ---------------------------------------------------------------------------
  // Lowercasing

  /** `str.lower()` on one character, for the Latin-1 range (ASCII letters and
      the accented capitals, umlauts included). */
  function LowerChar(c: char): (r: char)
    ensures ('A' <= c <= 'Z') ==> r == (c as int + 32) as char
    ensures !('A' <= c <= 'Z') && !('\U{C0}' <= c <= '\U{DE}') ==> r == c
    ensures IsSpace(r) <==> IsSpace(c)
  {
    if 'A' <= c <= 'Z' || ('\U{C0}' <= c <= '\U{DE}' && c != '\U{D7}') then
      (c as int + 32) as char
    else
      c
  }

  function Lower(s: string): (r: string)
    ensures |r| == |s|
  {
    seq(|s|, i requires 0 <= i < |s| => LowerChar(s[i]))
  }

  // ---------------------------------------------------------------------------
  // split() and join

  /** The longest whitespace-free prefix of `s`. */
  function Word(s: string): (w: string)
    ensures |w| <= |s| && w == s[..|w|]
    ensures forall i :: 0 <= i < |w| ==> !IsSpace(w[i])
    ensures |w| < |s| ==> IsSpace(s[|w|])
    ensures |s| > 0 && !IsSpace(s[0]) ==> |w| > 0
  {
    if s == [] || IsSpace(s[0]) then [] else [s[0]] + Word(s[1..])
  }

  /** `s.split()`: the maximal runs of non-whitespace characters, in order. */
  function Split(s: string): (ws: seq<string>)
    ensures forall k :: 0 <= k < |ws| ==> IsWord(ws[k])
    decreases |s|
  {
    if s == [] then []
    else if IsSpace(s[0]) then Split(s[1..])
    else
      var w := Word(s);
      [w] + Split(s[|w|..])
  }

  /** Counts the positions where a word begins (a non-space character at the
      start or after a space), scanning once from left to right; `inWord`
      says whether the previous character was a non-space one. */
  function WordStarts(s: string, inWord: bool): nat {
    if s == [] then 0
    else (if !IsSpace(s[0]) && !inWord then 1 else 0) + WordStarts(s[1..], !IsSpace(s[0]))
  }

  /** `len(s.split())` is the number of places where a word starts. */
  lemma {:induction false} SplitCountsWordStarts(s: string)
    ensures |Split(s)| == WordStarts(s, false)
    decreases |s|
  {
    if s == [] {
    } else if IsSpace(s[0]) {
      SplitCountsWordStarts(s[1..]);
    } else {
      var w := Word(s);
      SplitCountsWordStarts(s[|w|..]);
      WordStartsInsideWord(s, |w|);
    }
  }

  /** Inside a word no new word starts; after it we are again outside. */
  lemma {:induction false} WordStartsInsideWord(s: string, n: nat)
    requires 0 < n <= |s|
    requires forall i :: 0 <= i < n ==> !IsSpace(s[i])
    requires n < |s| ==> IsSpace(s[n])
    ensures WordStarts(s, false) == 1 + WordStarts(s[n..], false)
  {
    WordStartsRun(s[1..], n - 1);
    assert s[1..][n - 1..] == s[n..];
  }

  lemma {:induction false} WordStartsRun(s: string, n: nat)
    requires n <= |s|
    requires forall i :: 0 <= i < n ==> !IsSpace(s[i])
    requires n < |s| ==> IsSpace(s[n])
    ensures WordStarts(s, true) == WordStarts(s[n..], false)
    decreases n
  {
    if n == 0 {
      if s != [] {
        assert IsSpace(s[0]);
      }
    } else {
      WordStartsRun(s[1..], n - 1);
      assert s[1..][n - 1..] == s[n..];
    }
  }

  /** `sep.join(ws)`. */
  function JoinWith(sep: string, ws: seq<string>): string {
    if ws == [] then ""
    else if |ws| == 1 then ws[0]
    else ws[0] + sep + JoinWith(sep, ws[1..])
  }

  /** Joining two non-empty lists is joining each and putting one separator
      between them. */
  lemma {:induction false} JoinWithAppend(sep: string, a: seq<string>, b: seq<string>)
    requires a != [] && b != []
    ensures JoinWith(sep, a + b) == JoinWith(sep, a) + sep + JoinWith(sep, b)
    decreases |a|
  {
    if |a| == 1 {
      assert (a + b)[1..] == b;
    } else {
      assert (a + b)[1..] == a[1..] + b;
      JoinWithAppend(sep, a[1..], b);
    }
  }

  /** Splitting " ".join of genuine words gives the words back. */
  lemma {:induction false} SplitJoinRoundTrip(ws: seq<string>)
    requires forall k :: 0 <= k < |ws| ==> IsWord(ws[k])
    ensures Split(JoinWith(" ", ws)) == ws
    decreases |ws|
  {
    if ws == [] {
    } else if |ws| == 1 {
      WordOfWord(ws[0], "");
      assert ws[0] + "" == ws[0];
      assert ws[0][|ws[0]|..] == "";
    } else {
      var w, rest := ws[0], JoinWith(" ", ws[1..]);
      var s := w + " " + rest;
      assert s == w + (" " + rest);
      WordOfWord(w, " " + rest);
      assert s[|w|..] == " " + rest;
      assert (" " + rest)[1..] == rest;
      SplitJoinRoundTrip(ws[1..]);
    }
  }

  lemma {:induction false} WordOfWord(w: string, rest: string)
    requires IsWord(w)
    requires rest == [] || IsSpace(rest[0])
    ensures Word(w + rest) == w
    decreases |w|
  {
    assert (w + rest)[1..] == w[1..] + rest;
    if |w| > 1 {
      WordOfWord(w[1..], rest);
    }
  }

  // ---------------------------------------------------------------------------
  // strip()

  function StripLeft(s: string): (r: string)
    ensures |r| <= |s| && r == s[|s| - |r|..]
    ensures forall i :: 0 <= i < |s| - |r| ==> IsSpace(s[i])
    ensures r != [] ==> !IsSpace(r[0])
  {
    if s == [] || !IsSpace(s[0]) then s else StripLeft(s[1..])
  }

  function StripRight(s: string): (r: string)
    ensures |r| <= |s| && r == s[..|r|]
    ensures forall i :: |r| <= i < |s| ==> IsSpace(s[i])
    ensures r != [] ==> !IsSpace(r[|r| - 1])
  {
    if s == [] || !IsSpace(s[|s| - 1]) then s else StripRight(s[..|s| - 1])
  }

  /** `s.strip()`: drop leading and trailing whitespace. */
  function Strip(s: string): string {
    StripRight(StripLeft(s))
  }

  /** `r` is the slice of `s` at offset `i` with only whitespace around it. */
  predicate TrimmedAt(s: string, r: string, i: int) {
    && 0 <= i <= |s| - |r| && r == s[i..i + |r|]
    && (forall k :: 0 <= k < i ==> IsSpace(s[k]))
    && (forall k :: i + |r| <= k < |s| ==> IsSpace(s[k]))
  }

  /** The stripped string is the slice of `s` between its whitespace margins:
      it neither begins nor ends with whitespace, and only whitespace was cut. */
  lemma StripIsTrimmedSlice(s: string)
    ensures TrimmedAt(s, Strip(s), |s| - |StripLeft(s)|)
    ensures Strip(s) != [] ==> !IsSpace(Strip(s)[0]) && !IsSpace(Strip(s)[|Strip(s)| - 1])
  {
    TrimmedParts(s, StripLeft(s), StripRight(StripLeft(s)));
  }

  /** The two margins cut by `StripLeft` and then `StripRight` put together. */
  lemma TrimmedParts(s: string, l: string, r: string)
    requires |l| <= |s| && l == s[|s| - |l|..]
    requires forall k :: 0 <= k < |s| - |l| ==> IsSpace(s[k])
    requires l != [] ==> !IsSpace(l[0])
    requires |r| <= |l| && r == l[..|r|]
    requires forall k :: |r| <= k < |l| ==> IsSpace(l[k])
    requires r != [] ==> !IsSpace(r[|r| - 1])
    ensures TrimmedAt(s, r, |s| - |l|)
    ensures r != [] ==> !IsSpace(r[0]) && !IsSpace(r[|r| - 1])
  {
    TrailingSpaceShifts(s, l, r, |s| - |l|);
    if r != [] {
      assert r[0] == l[0];
    }
  }

  lemma TrailingSpaceShifts(s: string, l: string, r: string, i: nat)
    requires i <= |s| && l == s[i..] && |r| <= |l| && r == l[..|r|]
    requires forall k :: |r| <= k < |l| ==> IsSpace(l[k])
    ensures r == s[i..i + |r|]
    ensures forall k :: i + |r| <= k < |s| ==> IsSpace(s[k])
  {
    forall k | i + |r| <= k < |s| ensures IsSpace(s[k]) {
      assert s[k] == l[k - i];
    }
  }

  /** Stripping twice is stripping once. */
  lemma StripIdempotent(s: string)
    ensures Strip(Strip(s)) == Strip(s)
  {
    var r := Strip(s);
    StripIsTrimmedSlice(s);
    assert StripLeft(r) == r;
    assert StripRight(r) == r;
  }

  // ---------------------------------------------------------------------------
  // Substrings and literal search

  /** `sub` occurs in `s` at position `i`. */
  predicate Occurs(sub: string, s: string, i: int) {
    0 <= i && i + |sub| <= |s| && s[i..i + |sub|] == sub
  }

  /** Python's `sub in s`. */
  predicate Contains(s: string, sub: string) {
    exists i :: 0 <= i <= |s| - |sub| && Occurs(sub, s, i)
  }

  function Step(p: string): nat {
    if |p| == 0 then 1 else |p|
  }

  /** Start offsets of the matches `re.finditer(p, s)` reports from offset
      `from` on when `p` is a literal: scan left to right, take the leftmost
      occurrence, resume after its end (after an empty match, one further). */
  function FindFrom(p: string, s: string, from: nat): (r: seq<nat>)
    requires from <= |s| + 1
    decreases |s| + 1 - from
  {
    if from > |s| then []
    else if Occurs(p, s, from) then [from] + FindFrom(p, s, from + Step(p))
    else FindFrom(p, s, from + 1)
  }

  function FindAll(p: string, s: string): seq<nat> {
    FindFrom(p, s, 0)
  }

  /** Strictly increasing, and consecutive matches do not overlap. */
  predicate Spaced(r: seq<nat>, gap: nat) {
    forall k :: 0 <= k < |r| - 1 ==> r[k] + gap <= r[k + 1]
  }

  /** Every reported offset is an occurrence at or after `from`. */
  lemma {:induction false} FindFromSound(p: string, s: string, from: nat)
    requires from <= |s| + 1
    ensures forall k :: 0 <= k < |FindFrom(p, s, from)| ==>
      from <= FindFrom(p, s, from)[k] && Occurs(p, s, FindFrom(p, s, from)[k])
    decreases |s| + 1 - from
  {
    if from > |s| {
    } else if Occurs(p, s, from) {
      FindFromSound(p, s, from + Step(p));
    } else {
      FindFromSound(p, s, from + 1);
    }
  }

  /** The offsets are increasing and consecutive matches do not overlap. */
  lemma {:induction false} FindFromSpaced(p: string, s: string, from: nat)
    requires from <= |s| + 1
    ensures Spaced(FindFrom(p, s, from), Step(p))
    ensures forall k :: 0 <= k < |FindFrom(p, s, from)| ==> from <= FindFrom(p, s, from)[k]
    decreases |s| + 1 - from
  {
    if from > |s| {
    } else if Occurs(p, s, from) {
      FindFromSpaced(p, s, from + Step(p));
    } else {
      FindFromSpaced(p, s, from + 1);
    }
  }

  /** No occurrence is missed: every occurrence from `from` on lies inside
      (or at the start of) a reported match. */
  lemma {:induction false} FindFromComplete(p: string, s: string, from: nat, i: int)
    requires from <= |s| + 1
    requires from <= i && Occurs(p, s, i)
    ensures exists k :: 0 <= k < |FindFrom(p, s, from)| && FindFrom(p, s, from)[k] <= i < FindFrom(p, s, from)[k] + Step(p)
    decreases |s| + 1 - from
  {
    var r := FindFrom(p, s, from);
    if Occurs(p, s, from) {
      if i < from + Step(p) {
        assert r[0] <= i < r[0] + Step(p);
      } else {
        var rest := FindFrom(p, s, from + Step(p));
        FindFromComplete(p, s, from + Step(p), i);
        var k :| 0 <= k < |rest| && rest[k] <= i < rest[k] + Step(p);
        assert r[k + 1] == rest[k];
      }
    } else {
      FindFromComplete(p, s, from + 1, i);
    }
  }

  /** What `re.finditer` promises for a literal pattern, over the whole string. */
  lemma FindAllCorrect(p: string, s: string)
    ensures forall k :: 0 <= k < |FindAll(p, s)| ==> Occurs(p, s, FindAll(p, s)[k])
    ensures Spaced(FindAll(p, s), Step(p))
    ensures forall i :: Occurs(p, s, i) ==>
      exists k :: 0 <= k < |FindAll(p, s)| && FindAll(p, s)[k] <= i < FindAll(p, s)[k] + Step(p)
  {
    FindFromSound(p, s, 0);
    FindFromSpaced(p, s, 0);
    var r := FindAll(p, s);
    assert r == FindFrom(p, s, 0);
    forall i | Occurs(p, s, i)
      ensures exists k :: 0 <= k < |r| && r[k] <= i < r[k] + Step(p)
    {
      FindFromComplete(p, s, 0, i);
    }
  }

  /** The same facts one offset at a time, for proofs that need only one of
      them (together, soundness and completeness trigger each other). */
  lemma FindAllSoundAt(p: string, s: string, k: int)
    requires 0 <= k < |FindAll(p, s)|
    ensures Occurs(p, s, FindAll(p, s)[k])
  {
    FindFromSound(p, s, 0);
  }

  lemma FindAllCompleteAt(p: string, s: string, i: int)
    requires Occurs(p, s, i)
    ensures exists k :: 0 <= k < |FindAll(p, s)| && FindAll(p, s)[k] <= i < FindAll(p, s)[k] + Step(p)
  {
    FindFromComplete(p, s, 0, i);
    var r := FindFrom(p, s, 0);
    var k :| 0 <= k < |r| && r[k] <= i < r[k] + Step(p);
    assert FindAll(p, s)[k] == r[k];
  }

  lemma FindAllSpaced(p: string, s: string)
    ensures Spaced(FindAll(p, s), Step(p))
  {
    FindFromSpaced(p, s, 0);
  }

  /** Every reported offset leaves room for the match. */
  lemma FindAllInRange(p: string, s: string)
    ensures forall k :: 0 <= k < |FindAll(p, s)| ==> FindAll(p, s)[k] + |p| <= |s|
  {
    FindFromSound(p, s, 0);
  }

  /** Offsets shift with a prefix that holds no part of any match. */
  lemma {:induction false} FindFromShift(p: string, a: string, b: string, g: nat)
    requires |p| > 0 && g <= |b| + 1
    ensures FindFrom(p, a + b, |a| + g) == Shift(|a|, FindFrom(p, b, g))
    decreases |b| + 1 - g
  {
    var s := a + b;
    if g > |b| {
    } else {
      assert Occurs(p, s, |a| + g) <==> Occurs(p, b, g) by {
        if |a| + g + |p| <= |s| {
          assert s[|a| + g..|a| + g + |p|] == b[g..g + |p|];
        }
      }
      if Occurs(p, b, g) {
        FindFromShift(p, a, b, g + Step(p));
      } else {
        FindFromShift(p, a, b, g + 1);
      }
    }
  }

  function Shift(d: nat, r: seq<nat>): (t: seq<nat>)
    ensures |t| == |r| && forall k :: 0 <= k < |r| ==> t[k] == r[k] + d
  {
    if r == [] then [] else [r[0] + d] + Shift(d, r[1..])
  }

  /** No occurrence of `p` in `a + b` starts in `a` and ends in `b`. */
  predicate NoStraddle(p: string, a: string, b: string) {
    forall i :: 0 <= i < |a| < i + |p| ==> !Occurs(p, a + b, i)
  }

  /** The search over `a + b` is the search over `a` followed by the search
      over `b`, when no occurrence straddles the seam. */
  lemma {:induction false} FindFromConcat(p: string, a: string, b: string, f: nat)
    requires |p| > 0 && f <= |a|
    requires NoStraddle(p, a, b)
    ensures FindFrom(p, a + b, f) == FindFrom(p, a, f) + Shift(|a|, FindAll(p, b))
    decreases |a| - f
  {
    var s := a + b;
    if f == |a| {
      FindFromShift(p, a, b, 0);
      assert !Occurs(p, a, |a|);
      assert FindFrom(p, a, |a|) == FindFrom(p, a, |a| + 1) == [];
    } else {
      assert Occurs(p, s, f) <==> Occurs(p, a, f) by {
        if Occurs(p, s, f) {
          assert f + |p| <= |a|;
          assert a[f..f + |p|] == s[f..f + |p|];
        }
        if Occurs(p, a, f) {
          assert a[f..f + |p|] == s[f..f + |p|];
        }
      }
      if Occurs(p, a, f) {
        FindFromConcat(p, a, b, f + Step(p));
      } else {
        FindFromConcat(p, a, b, f + 1);
      }
    }
  }

  /** The number of non-overlapping matches of a literal: `len(re.findall(p, s))`. */
  function CountMatches(p: string, s: string): nat {
    |FindAll(p, s)|
  }

  lemma CountMatchesConcat(p: string, a: string, b: string)
    requires |p| > 0
    requires NoStraddle(p, a, b)
    ensures CountMatches(p, a + b) == CountMatches(p, a) + CountMatches(p, b)
  {
    FindFromConcat(p, a, b, 0);
  }

  /** A string where `p` never occurs has no match. */
  lemma {:induction false} CountMatchesNone(p: string, s: string, from: nat)
    requires from <= |s| + 1
    requires forall i :: from <= i ==> !Occurs(p, s, i)
    ensures FindFrom(p, s, from) == []
    decreases |s| + 1 - from
  {
    if from <= |s| {
      CountMatchesNone(p, s, from + 1);
    }
  }
}
