/** The optional value the extractors and the ingestion step return. */
module Wrappers {
  datatype Option<T> = None | Some(value: T)
}

/**
 * The string primitives the scraper leans on: Python's whitespace class,
 * `str.lower()`, the `in` substring test, `str.strip()` and slicing `s[:n]`.
 */
module Text {

  type String = seq<char>

  /** Python's `str.isspace()`, which is also the `\s` class of a `str` pattern. */
  predicate IsSpace(c: char) {
    || ('\t' <= c <= '\r')
    || ('\U{1C}' <= c <= '\U{1F}')
    || c == ' ' || c == '\U{85}' || c == '\U{A0}' || c == '\U{1680}'
    || ('\U{2000}' <= c <= '\U{200A}')
    || c == '\U{2028}' || c == '\U{2029}' || c == '\U{202F}' || c == '\U{205F}' || c == '\U{3000}'
  }

  /** Upper-case letters whose lower-case form is the code point 32 above:
      ASCII A-Z and the Latin-1 capitals (U+00C0-U+00DE without the sign U+00D7). */
  predicate IsShiftedUpper(c: char) {
    ('A' <= c <= 'Z') || ('\U{C0}' <= c <= '\U{DE}' && c != '\U{D7}')
  }

  function LowerChar(c: char): (l: char)
    ensures IsShiftedUpper(c) ==> l as int == c as int + 32
    ensures !IsShiftedUpper(c) ==> l == c
  {
    if IsShiftedUpper(c) then (c as int + 32) as char else c
  }

  /** `str.lower()`, character by character. */
  function Lower(s: String): (r: String)
    ensures |r| == |s|
    ensures forall i :: 0 <= i < |s| ==> r[i] == LowerChar(s[i])
  {
    seq(|s|, i requires 0 <= i < |s| => LowerChar(s[i]))
  }

  /** Lower-casing twice is lower-casing once. */
  lemma LowerIdempotent(s: String)
    ensures Lower(Lower(s)) == Lower(s)
  {
  }

  /** Every character of `s[x..y]` satisfies `p`. */
  ghost predicate All(s: String, x: int, y: int, p: char -> bool)
    requires 0 <= x <= y <= |s|
  {
    forall m :: x <= m < y ==> p(s[m])
  }

  /** The end of the longest run of `p`-characters that starts at `k`. */
  function Span(s: String, k: nat, p: char -> bool): (r: nat)
    requires k <= |s|
    ensures k <= r <= |s|
    ensures All(s, k, r, p)
    ensures r < |s| ==> !p(s[r])
    decreases |s| - k
  {
    if k < |s| && p(s[k]) then Span(s, k + 1, p) else k
  }

  /** Any run of `p`-characters from `k` ends no later than `Span`, and one that is
      followed by a non-`p` character (or the end) ends exactly there. */
  lemma SpanIsLongest(s: String, k: nat, m: nat, p: char -> bool)
    requires k <= m <= |s| && All(s, k, m, p)
    ensures m <= Span(s, k, p)
    ensures (m == |s| || !p(s[m])) ==> m == Span(s, k, p)
  {
  }

  // ---------------------------------------------------------------- substring

  /** `needle` occurs in `hay` at position `i`. */
  ghost predicate OccursAt(hay: String, needle: String, i: int) {
    0 <= i && i + |needle| <= |hay| && hay[i..i + |needle|] == needle
  }

  /** Python's `needle in hay`, stated as the existence of an occurrence. */
  ghost predicate Occurs(hay: String, needle: String) {
    exists i :: OccursAt(hay, needle, i)
  }

  /** Scans `hay` left to right from `i` for an occurrence of `needle`. */
  function ContainsFrom(hay: String, needle: String, i: nat): (b: bool)
    requires i <= |hay|
    ensures b <==> exists j :: i <= j && OccursAt(hay, needle, j)
    decreases |hay| - i
  {
    if i + |needle| > |hay| then false
    else if hay[i..i + |needle|] == needle then assert OccursAt(hay, needle, i); true
    else ContainsFrom(hay, needle, i + 1)
  }

  /** The substring test `needle in hay`. */
  function Contains(hay: String, needle: String): (b: bool)
    ensures b <==> Occurs(hay, needle)
  {
    ContainsFrom(hay, needle, 0)
  }

  // ---------------------------------------------------------------- slicing

  function Min(a: int, b: int): int {
    if a <= b then a else b
  }

  /** Python's `s[:n]`: the prefix of length `n`, or all of `s` when it is shorter. */
  function Cut<T>(s: seq<T>, n: nat): (r: seq<T>)
    ensures r <= s
    ensures |r| == Min(n, |s|)
  {
    if |s| <= n then s else s[..n]
  }

  // ---------------------------------------------------------------- strip

  /** No whitespace at either end. */
  ghost predicate Trimmed(s: String) {
    s == [] || (!IsSpace(s[0]) && !IsSpace(s[|s| - 1]))
  }

  /** The start of the trailing whitespace run of `s[..k]`. */
  function TrailingStart(s: String, k: nat): (r: nat)
    requires k <= |s|
    ensures r <= k
    ensures All(s, r, k, IsSpace)
    ensures r > 0 ==> !IsSpace(s[r - 1])
  {
    if k > 0 && IsSpace(s[k - 1]) then TrailingStart(s, k - 1) else k
  }

  /** Python's `str.strip()`: `s` without its leading and trailing whitespace. */
  function Strip(s: String): (r: String)
    ensures Trimmed(r)
    ensures exists a, b :: 0 <= a <= b <= |s| && r == s[a..b] && All(s, 0, a, IsSpace) && All(s, b, |s|, IsSpace)
    ensures (forall m :: 0 <= m < |s| ==> IsSpace(s[m])) <==> r == []
  {
    var a := Span(s, 0, IsSpace);
    if a == |s| then
      assert [] == s[0..0] && All(s, 0, 0, IsSpace);
      []
    else
      var b := TrailingStart(s, |s|);
      assert !IsSpace(s[a]);
      assert a < b;
      var r := s[a..b];
      assert r[0] == s[a] && r[|r| - 1] == s[b - 1];
      assert !(forall m :: 0 <= m < |s| ==> IsSpace(s[m])) by { assert !IsSpace(s[a]); }
      r
  }

  /** A string that is already stripped is its own strip. */
  lemma StripTrimmed(s: String)
    requires Trimmed(s)
    ensures Strip(s) == s
  {
    if s != [] {
      assert Span(s, 0, IsSpace) == 0;
      assert TrailingStart(s, |s|) == |s|;
    }
  }
}
