/**
 * The capture step of the crawler: the regular expression
 * `days:\s*(\[[\s\S]*?\])\s*,\s*time:` applied with `String.prototype.match`,
 * written as an explicit scan over the page text.
 *
 * The declarative predicates (`OpensAt`, `ClosesAt`, `MatchAt`) say what a match of
 * the expression is; the functions (`OpenAt`, `FirstClose`, `FindFrom`, `DaysCapture`)
 * compute the match that a backtracking engine reports: the leftmost start, and for
 * that start the shortest (lazy) bracketed block.
 */
module DaysBlock {
  import opened Wrappers

  /** JavaScript's `\s`: the WhiteSpace and LineTerminator code points of ECMAScript. */
  predicate IsSpace(c: char) {
    c == '\t' || c == '\n' || c == '\U{B}' || c == '\U{C}' || c == '\r' || c == ' '
    || c == '\U{A0}' || c == '\U{1680}' || ('\U{2000}' <= c <= '\U{200A}')
    || c == '\U{2028}' || c == '\U{2029}' || c == '\U{202F}' || c == '\U{205F}'
    || c == '\U{3000}' || c == '\U{FEFF}'
  }

  /** Every character of s[a..b] is a `\s` character. */
  ghost predicate AllSpaces(s: string, a: nat, b: nat) {
    a <= b <= |s| && forall m :: a <= m < b ==> IsSpace(s[m])
  }

  /** The literal `lit` occurs in s starting at index i. */
  predicate LiteralAt(s: string, i: nat, lit: string) {
    i + |lit| <= |s| && s[i..i + |lit|] == lit
  }

  /** `days:\s*\[` matches at i, with its `[` at index o. */
  ghost predicate OpensAt(s: string, i: nat, o: nat) {
    LiteralAt(s, i, "days:") && i + 5 <= o < |s| && AllSpaces(s, i + 5, o) && s[o] == '['
  }

  /** `\s*,\s*time:` matches starting at index p. */
  ghost predicate TailAt(s: string, p: nat) {
    exists a: nat, b: nat :: AllSpaces(s, p, a) && a < |s| && s[a] == ',' && AllSpaces(s, a + 1, b) && LiteralAt(s, b, "time:")
  }

  /** A `]` at index j followed by `\s*,\s*time:`. */
  ghost predicate ClosesAt(s: string, j: nat) {
    j < |s| && s[j] == ']' && TailAt(s, j + 1)
  }

  /** The whole expression matches from i, capturing s[o..j+1]. */
  ghost predicate MatchAt(s: string, i: nat, o: nat, j: nat) {
    OpensAt(s, i, o) && o < j && ClosesAt(s, j)
  }

  /** Greedy `\s*`: the index of the first non-space character at or after i. */
  function SkipSpaces(s: string, i: nat): (k: nat)
    requires i <= |s|
    ensures i <= k <= |s| && AllSpaces(s, i, k)
    ensures k == |s| || !IsSpace(s[k])
    decreases |s| - i
  {
    if i == |s| || !IsSpace(s[i]) then i else SkipSpaces(s, i + 1)
  }

  /** A run of spaces that ends before a non-space character ends where SkipSpaces stops. */
  lemma SpacesEndAtSkip(s: string, i: nat, k: nat)
    requires i <= |s| && AllSpaces(s, i, k) && k < |s| && !IsSpace(s[k])
    ensures SkipSpaces(s, i) == k
  {
  }

  /** The `[` of an opening match is the first non-space character after `days:`. */
  lemma OpenIsAfterSpaces(s: string, i: nat, o: nat)
    requires OpensAt(s, i, o)
    ensures o == SkipSpaces(s, i + 5)
  {
    SpacesEndAtSkip(s, i + 5, o);
  }

  /** A tail matched with spaces up to a and up to b has its `,` at a and its `time:` at b. */
  lemma TailWitnessIsSkip(s: string, p: nat, a: nat, b: nat)
    requires AllSpaces(s, p, a) && a < |s| && s[a] == ','
    requires AllSpaces(s, a + 1, b) && LiteralAt(s, b, "time:")
    ensures SkipSpaces(s, p) == a && SkipSpaces(s, a + 1) == b
  {
    SpacesEndAtSkip(s, p, a);
    assert s[b] == s[b..b + 5][0] == 't';
    SpacesEndAtSkip(s, a + 1, b);
  }

  /** Any match of the tail is the one found by two greedy space skips. */
  lemma TailIsAfterSpaces(s: string, p: nat)
    requires p <= |s|
    ensures TailAt(s, p) ==> var a := SkipSpaces(s, p);
      a < |s| && s[a] == ',' && LiteralAt(s, SkipSpaces(s, a + 1), "time:")
  {
    if TailAt(s, p) {
      var a: nat, b: nat :| AllSpaces(s, p, a) && a < |s| && s[a] == ',' && AllSpaces(s, a + 1, b) && LiteralAt(s, b, "time:");
      TailWitnessIsSkip(s, p, a, b);
    }
  }

  /** The opening part of the expression at i: its `[` index, if it matches there. */
  function OpenAt(s: string, i: nat): (r: Option<nat>)
    ensures forall o: nat :: OpensAt(s, i, o) <==> r == Some(o)
  {
    if !LiteralAt(s, i, "days:") then None
    else
      var o := SkipSpaces(s, i + 5);
      assert forall o': nat :: OpensAt(s, i, o') ==> o' == o by {
        forall o': nat | OpensAt(s, i, o') ensures o' == o {
          OpenIsAfterSpaces(s, i, o');
        }
      }
      if o < |s| && s[o] == '[' then Some(o) else None
  }

  /** Whether `\s*,\s*time:` matches at p, decided by two greedy space skips. */
  function TailMatches(s: string, p: nat): (r: bool)
    requires p <= |s|
    ensures r <==> TailAt(s, p)
  {
    TailIsAfterSpaces(s, p);
    var a := SkipSpaces(s, p);
    a < |s| && s[a] == ',' && LiteralAt(s, SkipSpaces(s, a + 1), "time:")
  }

  /** Lazy `[\s\S]*?\]` followed by the tail: the first closing `]` at or after j. */
  function FirstClose(s: string, j: nat): (r: Option<nat>)
    requires j <= |s|
    ensures r.Some? ==> j <= r.value && ClosesAt(s, r.value)
    ensures r.Some? ==> forall m :: j <= m < r.value ==> !ClosesAt(s, m)
    ensures r.None? ==> forall m :: j <= m ==> !ClosesAt(s, m)
    decreases |s| - j
  {
    if j == |s| then None
    else if s[j] == ']' && TailMatches(s, j + 1) then Some(j)
    else FirstClose(s, j + 1)
  }

  /** Where a match was found: its start, the index of its `[` and of its closing `]`. */
  datatype Span = Span(start: nat, open: nat, close: nat)

  /**
   * The match the regular-expression engine reports when it tries the start positions
   * i, i+1, ... in turn: the leftmost start that matches at all and, for that start,
   * the shortest block.
   */
  function FindFrom(s: string, i: nat): (r: Option<Span>)
    requires i <= |s|
    ensures r.Some? ==> i <= r.value.start && MatchAt(s, r.value.start, r.value.open, r.value.close)
    ensures r.Some? ==> forall st, o, j :: i <= st < r.value.start ==> !MatchAt(s, st, o, j)
    ensures r.Some? ==> forall j :: r.value.open < j < r.value.close ==> !MatchAt(s, r.value.start, r.value.open, j)
    ensures r.None? ==> forall st, o, j :: i <= st ==> !MatchAt(s, st, o, j)
    decreases |s| - i
  {
    if i == |s| then
      assert forall st, o, j :: i <= st ==> !MatchAt(s, st, o, j);
      None
    else
      match OpenAt(s, i)
      case None => FindFrom(s, i + 1)
      case Some(o) =>
        match FirstClose(s, o + 1)
        case Some(j) => Some(Span(i, o, j))
        case None => FindFrom(s, i + 1)
  }

  /**
   * `html.match(...)` followed by `daysMatch[1]`: the captured block, or None when the
   * expression does not match the page anywhere.
   */
  function DaysCapture(html: string): (r: Option<string>)
    ensures r.None? <==> forall i, o, j :: !MatchAt(html, i, o, j)
    ensures r.Some? ==> exists i: nat, o: nat, j: nat :: MatchAt(html, i, o, j) && r.value == html[o..j + 1]
    ensures r.Some? ==> |r.value| >= 2 && r.value[0] == '[' && r.value[|r.value| - 1] == ']'
    ensures r.Some? ==>
      && FindFrom(html, 0).Some?
      && r.value == html[FindFrom(html, 0).value.open..FindFrom(html, 0).value.close + 1]
  {
    match FindFrom(html, 0)
    case None => None
    case Some(sp) => Some(html[sp.open..sp.close + 1])
  }
}
