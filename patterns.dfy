/** The few regular expressions of the corpus preprocessing, each of which is
    a plain string except that `.` matches any character but a newline and a
    pair of parentheses only groups (it matches nothing itself). */
module Patterns {
  import opened Text

  datatype Atom = Exactly(c: char) | AnyButNewline

  type Pattern = seq<Atom>

  predicate AtomMatches(a: Atom, c: char) {
    match a
    case Exactly(d) => c == d
    case AnyButNewline => c != '\n'
  }

  /** The pattern matches `s` starting at offset `i`. */
  predicate MatchesAt(p: Pattern, s: string, i: int) {
    0 <= i && i + |p| <= |s| && forall k :: 0 <= k < |p| ==> AtomMatches(p[k], s[i + k])
  }

  /** `re.findall(p, s)` is non-empty (`re.search(p, s)` succeeds). */
  predicate Found(p: Pattern, s: string) {
    exists i :: 0 <= i <= |s| - |p| && MatchesAt(p, s, i)
  }

  /** A string without metacharacters, as a pattern. */
  function Literal(w: string): (p: Pattern)
    ensures |p| == |w| && forall k :: 0 <= k < |w| ==> p[k] == Exactly(w[k])
  {
    seq(|w|, k requires 0 <= k < |w| => Exactly(w[k]))
  }

  /** A string whose only metacharacter is `.`, as a pattern. */
  function Dotted(w: string): (p: Pattern)
    ensures |p| == |w|
    ensures forall k :: 0 <= k < |w| ==> p[k] == if w[k] == '.' then AnyButNewline else Exactly(w[k])
  {
    seq(|w|, k requires 0 <= k < |w| => if w[k] == '.' then AnyButNewline else Exactly(w[k]))
  }

  /** A literal pattern matches exactly where the string occurs. */
  lemma LiteralMatchesAt(w: string, s: string, i: int)
    ensures MatchesAt(Literal(w), s, i) <==> Occurs(w, s, i)
  {
    if MatchesAt(Literal(w), s, i) {
      assert s[i..i + |w|] == w;
    }
    if Occurs(w, s, i) {
      forall k | 0 <= k < |w| ensures AtomMatches(Literal(w)[k], s[i + k]) {
        assert s[i..i + |w|][k] == s[i + k];
      }
    }
  }

  lemma LiteralFound(w: string, s: string)
    ensures Found(Literal(w), s) <==> Contains(s, w)
  {
    if Found(Literal(w), s) {
      var i :| 0 <= i <= |s| - |w| && MatchesAt(Literal(w), s, i);
      LiteralMatchesAt(w, s, i);
    }
    if Contains(s, w) {
      var i :| 0 <= i <= |s| - |w| && Occurs(w, s, i);
      LiteralMatchesAt(w, s, i);
    }
  }

  /** Wherever the string itself occurs, its dotted pattern matches: the
      wildcard accepts the `.` it stands for. */
  lemma DottedMatchesItself(w: string, s: string, i: int)
    requires Occurs(w, s, i)
    ensures MatchesAt(Dotted(w), s, i)
  {
    forall k | 0 <= k < |w| ensures AtomMatches(Dotted(w)[k], s[i + k]) {
      assert s[i..i + |w|][k] == s[i + k];
    }
  }
}
