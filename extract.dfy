/**
 * The field extractors of the backend-br scraper: from an issue's title and
 * body they derive the company, the role, the location, the salary and the
 * technology keywords of a job posting (Api_vagas.py, lines 170-202).
 *
 * Each regular expression of the source is given twice: once as a
 * declarative predicate saying which substrings match it, and once as a
 * left-to-right scanner; the contracts and lemmas connect the two.
 */
module Extract {
  import opened Wrappers
  import opened Text

  // ================================================================ company

  const NoCompany: String := "Não especificada"

  /** Bracket contents that name a work mode or a place rather than a company. */
  const CompanyBlocklist: seq<String> := ["remoto", "híbrido", "presencial", "sp", "rj"]

  predicate NotClose(c: char) { c != ']' }

  /** `t[i..j + 1]` matches `\[([^\]]+)\]`: an opening bracket, at least one
      character, and the first `]` after it (the contents may hold `[`). */
  ghost predicate CompanyTagAt(t: String, i: int, j: int) {
    && 0 <= i && i + 1 < j < |t|
    && t[i] == '[' && t[j] == ']'
    && forall m :: i < m < j ==> t[m] != ']'
  }

  /** The match `re.search` reports: no match starts further left. */
  ghost predicate FirstCompanyTag(t: String, i: int, j: int) {
    CompanyTagAt(t, i, j) && forall i', j' :: 0 <= i' < i ==> !CompanyTagAt(t, i', j')
  }

  /** A match that starts at `i` ends at the first `]` after `i`. */
  lemma CompanyTagEnd(t: String, i: nat)
    requires i < |t|
    ensures forall j :: CompanyTagAt(t, i, j) ==> j == Span(t, i + 1, NotClose)
  {
    forall j | CompanyTagAt(t, i, j)
      ensures j == Span(t, i + 1, NotClose)
    {
      SpanIsLongest(t, i + 1, j, NotClose);
    }
  }

  /** Searches `t` from `i` for the leftmost match of `\[([^\]]+)\]`. */
  function SearchCompanyTag(t: String, i: nat): (r: Option<(nat, nat)>)
    requires i <= |t|
    ensures r.Some? ==> i <= r.value.0 && CompanyTagAt(t, r.value.0, r.value.1)
    ensures r.Some? ==> forall i', j' :: i <= i' < r.value.0 ==> !CompanyTagAt(t, i', j')
    ensures r.None? ==> forall i', j' :: i <= i' ==> !CompanyTagAt(t, i', j')
    decreases |t| - i
  {
    if i == |t| then None
    else if t[i] == '[' then
      var j := Span(t, i + 1, NotClose);
      CompanyTagEnd(t, i);
      if j < |t| && i + 1 < j then Some((i, j)) else SearchCompanyTag(t, i + 1)
    else SearchCompanyTag(t, i + 1)
  }

  /** The company: the contents of the leftmost bracket tag of the title,
      unless their lower-case form is on the blocklist. */
  function Company(title: String): (r: String)
    ensures forall i, j :: FirstCompanyTag(title, i, j) ==>
      r == if Lower(title[i + 1..j]) in CompanyBlocklist then NoCompany else title[i + 1..j]
    ensures (forall i, j :: !CompanyTagAt(title, i, j)) ==> r == NoCompany
  {
    match SearchCompanyTag(title, 0)
    case None => NoCompany
    case Some((i, j)) =>
      CompanyTagEnd(title, i);
      var candidate := title[i + 1..j];
      if Lower(candidate) in CompanyBlocklist then NoCompany else candidate
  }

  // ================================================================ role

  /** `s[i..k + 1]` matches `\[.*?\]`: an opening bracket and the first `]` after
      it, with no line break in between (`.` does not match a newline). */
  ghost predicate TagAt(s: String, i: int, k: int) {
    && 0 <= i < k < |s|
    && s[i] == '[' && s[k] == ']'
    && forall m :: i < m < k ==> s[m] != ']' && s[m] != '\n'
  }

  /** `s` holds no match of `\[.*?\]`. */
  ghost predicate NoTag(s: String) {
    forall i, k :: !TagAt(s, i, k)
  }

  predicate Plain(c: char) { c != ']' && c != '\n' }

  lemma TagEnd(s: String, i: nat)
    requires i < |s|
    ensures forall k :: TagAt(s, i, k) ==> k == Span(s, i + 1, Plain)
  {
    forall k | TagAt(s, i, k)
      ensures k == Span(s, i + 1, Plain)
    {
      SpanIsLongest(s, i + 1, k, Plain);
    }
  }

  /** Where the tag that opens at `i` closes, if it does. */
  function TagClose(s: String, i: nat): (r: Option<nat>)
    requires i < |s| && s[i] == '['
    ensures r.Some? ==> TagAt(s, i, r.value)
    ensures r.None? ==> forall k :: !TagAt(s, i, k)
  {
    var k := Span(s, i + 1, Plain);
    TagEnd(s, i);
    if k < |s| && s[k] == ']' then Some(k) else None
  }

  /** `re.sub(r'\[.*?\]\s*', '', s[p..])`: scanning left to right, each tag and
      the whitespace after it is deleted and scanning resumes after them. */
  function RemoveTagsFrom(s: String, p: nat): (r: String)
    requires p <= |s|
    ensures |r| <= |s| - p
    decreases |s| - p
  {
    if p == |s| then []
    else if s[p] == '[' && TagClose(s, p).Some? then
      RemoveTagsFrom(s, Span(s, TagClose(s, p).value + 1, IsSpace))
    else [s[p]] + RemoveTagsFrom(s, p + 1)
  }


  /** Every `]` from `q` on comes after a line break that is itself at or after `q`. */
  ghost predicate Guarded(x: String, q: nat) {
    forall m :: q <= m < |x| && x[m] == ']' ==> exists n :: q <= n < m && x[n] == '\n'
  }

  /** An opening bracket that starts no tag is followed by no `]` before a line break. */
  lemma KeptOpenGuarded(s: String, p: nat)
    requires p < |s| && s[p] == '[' && TagClose(s, p).None?
    ensures Guarded(s, p + 1)
  {
    var k := Span(s, p + 1, Plain);
    forall m | p + 1 <= m < |s| && s[m] == ']'
      ensures exists n :: p + 1 <= n < m && s[n] == '\n'
    {
      assert k <= m;
      assert s[k] == '\n';
    }
  }

  /** Removing tags from a guarded suffix leaves a guarded string. */
  lemma {:induction false} GuardedKept(s: String, p: nat)
    requires p <= |s| && Guarded(s, p)
    ensures Guarded(RemoveTagsFrom(s, p), 0)
    decreases |s| - p
  {
    if p < |s| {
      if s[p] == '\n' {
        var r := RemoveTagsFrom(s, p);
        assert r[0] == '\n';
      } else if s[p] == ']' {
        assert false;
      } else {
        if s[p] == '[' {
          assert TagClose(s, p).None?;
        }
        var x := RemoveTagsFrom(s, p + 1);
        var r := RemoveTagsFrom(s, p);
        assert r == [s[p]] + x;
        GuardedKept(s, p + 1);
        forall m | 0 <= m < |r| && r[m] == ']'
          ensures exists n :: 0 <= n < m && r[n] == '\n'
        {
          assert x[m - 1] == ']';
          var n :| 0 <= n < m - 1 && x[n] == '\n';
          assert r[n + 1] == '\n';
        }
      }
    }
  }

  /** A tag that does not start at the front of `[c] + x` is a tag of `x`. */
  lemma TagShift(c: char, x: String, i: nat, k: nat)
    requires 0 < i
    ensures TagAt([c] + x, i, k) ==> TagAt(x, i - 1, k - 1)
  {
    var r := [c] + x;
    if TagAt(r, i, k) {
      forall m | i - 1 < m < k - 1
        ensures x[m] != ']' && x[m] != '\n'
      {
        assert x[m] == r[m + 1];
      }
    }
  }

  /** A character put in front of a string without tags starts no tag,
      unless it is an opening bracket and a `]` follows before a line break. */
  lemma ConsNoTag(c: char, x: String)
    requires NoTag(x) && (c == '[' ==> Guarded(x, 0))
    ensures NoTag([c] + x)
  {
    var r := [c] + x;
    forall i, k | 0 <= i < k < |r|
      ensures !TagAt(r, i, k)
    {
      if i == 0 && c == '[' && r[k] == ']' {
        var n :| 0 <= n < k - 1 && x[n] == '\n';
        assert r[n + 1] == '\n';
      } else if i > 0 {
        TagShift(c, x, i, k);
      }
    }
  }

  /** `re.sub` leaves no match of `\[.*?\]` behind. */
  lemma {:induction false} RemoveTagsLeavesNoTag(s: String, p: nat)
    requires p <= |s|
    ensures NoTag(RemoveTagsFrom(s, p))
    decreases |s| - p
  {
    if p < |s| {
      if s[p] == '[' && TagClose(s, p).Some? {
        RemoveTagsLeavesNoTag(s, Span(s, TagClose(s, p).value + 1, IsSpace));
      } else {
        RemoveTagsLeavesNoTag(s, p + 1);
        if s[p] == '[' {
          KeptOpenGuarded(s, p);
          GuardedKept(s, p + 1);
        }
        ConsNoTag(s[p], RemoveTagsFrom(s, p + 1));
      }
    }
  }

  /** A suffix in which no tag starts passes through `re.sub` unchanged. */
  lemma {:induction false} RemoveTagsIdentity(s: String, p: nat)
    requires p <= |s|
    ensures (forall i, k :: p <= i ==> !TagAt(s, i, k)) ==> RemoveTagsFrom(s, p) == s[p..]
    decreases |s| - p
  {
    if p < |s| && forall i, k :: p <= i ==> !TagAt(s, i, k) {
      RemoveTagsIdentity(s, p + 1);
      assert [s[p]] + s[p + 1..] == s[p..];
    }
  }

  /** Matching `\[.*?\]\s*` against `s`, the tag `s[i..k + 1]` deletes the
      character at `m`: `m` lies inside the tag, or in the whitespace run right
      after it. */
  ghost predicate DropsAt(s: String, i: int, k: int, m: int) {
    && TagAt(s, i, k) && 0 <= m < |s|
    && (i <= m <= k || (k < m && All(s, k + 1, m + 1, IsSpace)))
  }

  /** Some tag of `s` deletes the character at `m`. */
  ghost predicate Dropped(s: String, m: int) {
    exists i, k :: DropsAt(s, i, k, m)
  }

  /** The characters of `s[p..]` that no tag deletes, in order. */
  ghost function Kept(s: String, p: nat): String
    requires p <= |s|
    decreases |s| - p
  {
    if p == |s| then [] else (if Dropped(s, p) then [] else [s[p]]) + Kept(s, p + 1)
  }

  /** No tag that opens before `p` deletes anything from `p` on. */
  ghost predicate Clean(s: String, p: nat) {
    forall i, k, m :: i < p <= m ==> !DropsAt(s, i, k, m)
  }

  /** Deleted characters contribute nothing to `Kept`. */
  lemma {:induction false} KeptSkip(s: String, p: nat, q: nat)
    requires p <= q <= |s|
    requires forall m :: p <= m < q ==> Dropped(s, m)
    ensures Kept(s, p) == Kept(s, q)
    decreases q - p
  {
    if p < q {
      assert Dropped(s, p);
      KeptSkip(s, p + 1, q);
    }
  }

  /** Two tags whose openings lie in one tag share its closing bracket. */
  lemma SharedClose(s: String, p: nat, k: nat, i: nat, k': nat)
    requires TagAt(s, p, k) && p <= i <= k
    ensures TagAt(s, i, k') ==> k' == k
  {
  }

  /** The tag the scan takes at `p`, with the whitespace after it, is deleted. */
  lemma TakenTagDropped(s: String, p: nat, k: nat)
    requires TagAt(s, p, k)
    ensures forall m :: p <= m < Span(s, k + 1, IsSpace) ==> Dropped(s, m)
  {
    var q := Span(s, k + 1, IsSpace);
    forall m | p <= m < q
      ensures Dropped(s, m)
    {
      if k < m {
        assert All(s, k + 1, m + 1, IsSpace);
      }
      assert DropsAt(s, p, k, m);
    }
  }

  /** After the scan skips a tag and its whitespace, it stands at a clean position. */
  lemma TakenTagClean(s: String, p: nat, k: nat)
    requires Clean(s, p) && TagAt(s, p, k)
    ensures Clean(s, Span(s, k + 1, IsSpace))
  {
    var q := Span(s, k + 1, IsSpace);
    forall i, k', m | i < q <= m
      ensures !DropsAt(s, i, k', m)
    {
      if p <= i && TagAt(s, i, k') && m < |s| {
        assert k < i ==> IsSpace(s[i]);
        SharedClose(s, p, k, i, k');
        assert !IsSpace(s[q]);
      }
    }
  }

  /** A character the scan keeps, at a clean position, is not deleted, and the
      position after it is clean. */
  lemma KeptCharClean(s: String, p: nat)
    requires p < |s| && Clean(s, p) && !(s[p] == '[' && TagClose(s, p).Some?)
    ensures !Dropped(s, p) && Clean(s, p + 1)
  {
    forall i, k | true
      ensures !DropsAt(s, i, k, p)
    {
      if i == p && s[p] == '[' {
        assert !TagAt(s, p, k);
      }
    }
    forall i, k, m | i < p + 1 <= m
      ensures !DropsAt(s, i, k, m)
    {
      if i == p && s[p] == '[' {
        assert !TagAt(s, p, k);
      }
    }
  }

  /** Where the scan stands at a clean position, it keeps exactly `Kept`. */
  lemma {:induction false} RemoveTagsKept(s: String, p: nat)
    requires p <= |s| && Clean(s, p)
    ensures RemoveTagsFrom(s, p) == Kept(s, p)
    decreases |s| - p
  {
    if p < |s| {
      if s[p] == '[' && TagClose(s, p).Some? {
        var k := TagClose(s, p).value;
        TakenTagDropped(s, p, k);
        KeptSkip(s, p, Span(s, k + 1, IsSpace));
        TakenTagClean(s, p, k);
        RemoveTagsKept(s, Span(s, k + 1, IsSpace));
      } else {
        KeptCharClean(s, p);
        RemoveTagsKept(s, p + 1);
      }
    }
  }

  /** `re.sub(r'\[.*?\]\s*', '', s)`: the characters no tag deletes, in order,
      and with no tag left among them. */
  function RemoveTags(s: String): (r: String)
    ensures r == Kept(s, 0)
    ensures NoTag(r)
  {
    RemoveTagsKept(s, 0);
    RemoveTagsLeavesNoTag(s, 0);
    RemoveTagsFrom(s, 0)
  }

  /** Removing tags twice is removing them once. */
  lemma RemoveTagsIdempotent(s: String)
    ensures RemoveTags(RemoveTags(s)) == RemoveTags(s)
  {
    var r := RemoveTags(s);
    RemoveTagsLeavesNoTag(s, 0);
    RemoveTagsIdentity(r, 0);
    assert r[0..] == r;
  }

  /** A tag of a slice is a tag of the whole string. */
  lemma SliceTag(s: String, a: nat, b: nat, i: nat, k: nat)
    requires a <= b <= |s|
    ensures TagAt(s[a..b], i, k) ==> TagAt(s, a + i, a + k)
  {
    var x := s[a..b];
    if TagAt(x, i, k) {
      forall m | a + i < m < a + k
        ensures s[m] != ']' && s[m] != '\n'
      {
        assert s[m] == x[m - a];
      }
    }
  }

  /** A slice of a string without tags has no tags. */
  lemma NoTagSlice(s: String, a: nat, b: nat)
    requires a <= b <= |s| && NoTag(s)
    ensures NoTag(s[a..b])
  {
    forall i, k | 0 <= i < k < b - a
      ensures !TagAt(s[a..b], i, k)
    {
      SliceTag(s, a, b, i, k);
    }
  }

  lemma StripKeepsNoTag(s: String)
    ensures NoTag(s) ==> NoTag(Strip(s))
  {
    if NoTag(s) {
      var a, b :| 0 <= a <= b <= |s| && Strip(s) == s[a..b];
      NoTagSlice(s, a, b);
    }
  }

  /** The role: the title with its tags (and the whitespace after each) removed
      and then stripped, or the original title when nothing is left. */
  function Role(title: String): (r: String)
    ensures title != [] ==> r != []
    ensures r == title || (r != [] && NoTag(r) && Trimmed(r))
    ensures NoTag(title) ==> r == if Strip(title) == [] then title else Strip(title)
    ensures r == if Strip(Kept(title, 0)) == [] then title else Strip(Kept(title, 0))
  {
    var removed := RemoveTags(title);
    var stripped := Strip(removed);
    RemoveTagsLeavesNoTag(title, 0);
    StripKeepsNoTag(removed);
    RemoveTagsIdentity(title, 0);
    assert title[0..] == title;
    if stripped == [] then title else stripped
  }

  // ================================================================ location

  const Remote: String := "Remoto"
  const Hybrid: String := "Híbrido"
  const NoLocation: String := "Não especificado"

  /** The location, decided on the lower-cased title: a remote word wins over
      the hybrid word. */
  function Location(title: String): (r: String)
    ensures r == Remote <==> Occurs(Lower(title), "remoto") || Occurs(Lower(title), "remote")
    ensures r == Hybrid <==>
      !Occurs(Lower(title), "remoto") && !Occurs(Lower(title), "remote") && Occurs(Lower(title), "híbrido")
    ensures r == NoLocation <==>
      !Occurs(Lower(title), "remoto") && !Occurs(Lower(title), "remote") && !Occurs(Lower(title), "híbrido")
  {
    var t := Lower(title);
    if Contains(t, "remoto") || Contains(t, "remote") then Remote
    else if Contains(t, "híbrido") then Hybrid
    else NoLocation
  }

  // ================================================================ salary

  const NoSalary: String := "Não informado"

  /** `R` under `re.I`. */
  predicate IsR(c: char) { c == 'R' || c == 'r' }

  /** `[\d.,]`, with `\d` read as the ASCII digits. */
  predicate IsAmount(c: char) { ('0' <= c <= '9') || c == '.' || c == ',' }

  /** `[-ka]` under `re.I`; Python also folds the Kelvin sign U+212A to `k`. */
  predicate IsRangeSep(c: char) {
    c == '-' || c == 'k' || c == 'K' || c == '\U{212A}' || c == 'a' || c == 'A'
  }

  /** `s[b..e]` matches `\s*[-ka]\s*[\d.,]+`. */
  ghost predicate RangeTail(s: String, b: int, e: int) {
    && 0 <= b <= e <= |s|
    && exists c, d ::
      && b <= c && c + 1 <= d < e
      && All(s, b, c, IsSpace) && IsRangeSep(s[c]) && All(s, c + 1, d, IsSpace) && All(s, d, e, IsAmount)
  }

  /** `s[i..e]` matches `R\$\s*[\d.,]+(?:\s*[-ka]\s*[\d.,]+)?` under `re.I`. */
  ghost predicate SalaryAt(s: String, i: int, e: int) {
    && 0 <= i && i + 2 <= e <= |s|
    && IsR(s[i]) && s[i + 1] == '$'
    && exists a, b ::
      && i + 2 <= a < b <= e
      && All(s, i + 2, a, IsSpace) && All(s, a, b, IsAmount)
      && (b == e || RangeTail(s, b, e))
  }

  /** The match `re.search` reports: the leftmost start, and from there the
      longest match (greedy quantifiers, with nothing after them to backtrack for). */
  ghost predicate FirstSalary(s: String, i: int, e: int) {
    && SalaryAt(s, i, e)
    && (forall i', e' :: 0 <= i' < i ==> !SalaryAt(s, i', e'))
    && (forall e' :: SalaryAt(s, i, e') ==> e' <= e)
  }

  /** Where the optional group `(?:\s*[-ka]\s*[\d.,]+)` ends when the matcher
      tries it at `b`, if it matches there. */
  function RangeEnd(s: String, b: nat): Option<nat>
    requires b <= |s|
  {
    var c := Span(s, b, IsSpace);
    if c < |s| && IsRangeSep(s[c]) then
      var d := Span(s, c + 1, IsSpace);
      if d < |s| && IsAmount(s[d]) then Some(Span(s, d, IsAmount)) else None
    else None
  }

  /** Where the backtracking matcher ends when it tries the pattern at `i`. */
  function SalaryEndAt(s: String, i: nat): Option<nat>
    requires i <= |s|
  {
    if i + 2 <= |s| && IsR(s[i]) && s[i + 1] == '$' then
      var a := Span(s, i + 2, IsSpace);
      if a < |s| && IsAmount(s[a]) then
        var b := Span(s, a, IsAmount);
        match RangeEnd(s, b)
        case Some(e) => Some(e)
        case None => Some(b)
      else None
    else None
  }

  lemma SalaryClassesDisjoint(c: char)
    ensures IsAmount(c) ==> !IsSpace(c) && !IsRangeSep(c)
    ensures IsRangeSep(c) ==> !IsSpace(c)
  {
  }

  /** A range tail starting at `x` is found by the matcher's optional group,
      which ends no earlier. */
  lemma RangeTailBelow(s: String, x: nat, e: nat)
    requires RangeTail(s, x, e)
    ensures x < |s| && !IsAmount(s[x])
    ensures RangeEnd(s, x).Some? && e <= RangeEnd(s, x).value
  {
    var c', d' :| && x <= c' && c' + 1 <= d' < e
                  && All(s, x, c', IsSpace) && IsRangeSep(s[c']) && All(s, c' + 1, d', IsSpace)
                  && All(s, d', e, IsAmount);
    SalaryClassesDisjoint(s[x]);
    SalaryClassesDisjoint(s[c']);
    SalaryClassesDisjoint(s[d']);
    assert c' > x ==> IsSpace(s[x]);
    SpanIsLongest(s, x, c', IsSpace);
    SpanIsLongest(s, c' + 1, d', IsSpace);
    SpanIsLongest(s, d', e, IsAmount);
  }

  /** The optional group, when it matches, gives a range tail. */
  lemma RangeEndIsTail(s: String, b: nat)
    requires b <= |s| && RangeEnd(s, b).Some?
    ensures RangeTail(s, b, RangeEnd(s, b).value)
  {
    var c := Span(s, b, IsSpace);
    var d := Span(s, c + 1, IsSpace);
    var e := RangeEnd(s, b).value;
    assert && b <= c && c + 1 <= d < e
           && All(s, b, c, IsSpace) && IsRangeSep(s[c]) && All(s, c + 1, d, IsSpace)
           && All(s, d, e, IsAmount);
  }

  /** Any match at `i` ends no later than where the matcher ends. */
  lemma SalaryAtBelow(s: String, i: nat, e: nat)
    requires i <= |s| && SalaryAt(s, i, e)
    ensures SalaryEndAt(s, i).Some? && e <= SalaryEndAt(s, i).value
  {
    var a', b' :| && i + 2 <= a' < b' <= e
                  && All(s, i + 2, a', IsSpace) && All(s, a', b', IsAmount)
                  && (b' == e || RangeTail(s, b', e));
    SalaryClassesDisjoint(s[a']);
    SpanIsLongest(s, i + 2, a', IsSpace);
    var a := Span(s, i + 2, IsSpace);
    assert a' == a;
    SpanIsLongest(s, a, b', IsAmount);
    var b := Span(s, a, IsAmount);
    if RangeEnd(s, b).Some? {
      RangeEndIsTail(s, b);
    }
    if b' != e {
      RangeTailBelow(s, b', e);
      assert b' == b;
    }
  }

  /** The matcher's result at `i` is a match, and the longest one there. */
  lemma SalaryEndAtCorrect(s: String, i: nat)
    requires i <= |s|
    ensures SalaryEndAt(s, i).Some? ==> SalaryAt(s, i, SalaryEndAt(s, i).value)
    ensures forall e :: SalaryAt(s, i, e) ==> SalaryEndAt(s, i).Some? && e <= SalaryEndAt(s, i).value
  {
    forall e | SalaryAt(s, i, e)
      ensures SalaryEndAt(s, i).Some? && e <= SalaryEndAt(s, i).value
    {
      SalaryAtBelow(s, i, e);
    }
    if SalaryEndAt(s, i).Some? {
      var a := Span(s, i + 2, IsSpace);
      var b := Span(s, a, IsAmount);
      var e := SalaryEndAt(s, i).value;
      if RangeEnd(s, b).Some? {
        RangeEndIsTail(s, b);
      }
      assert i + 2 <= a < b <= e && All(s, i + 2, a, IsSpace) && All(s, a, b, IsAmount);
    }
  }

  /** `re.search` for the salary pattern in `s[i..]`: the leftmost start and its match. */
  function SearchSalary(s: String, i: nat): (r: Option<(nat, nat)>)
    requires i <= |s|
    ensures r.Some? ==> i <= r.value.0 && SalaryAt(s, r.value.0, r.value.1)
    ensures r.Some? ==> forall e' :: SalaryAt(s, r.value.0, e') ==> e' <= r.value.1
    ensures r.Some? ==> forall i', e' :: i <= i' < r.value.0 ==> !SalaryAt(s, i', e')
    ensures r.None? ==> forall i', e' :: i <= i' ==> !SalaryAt(s, i', e')
    decreases |s| - i
  {
    SalaryEndAtCorrect(s, i);
    if i == |s| then None
    else match SalaryEndAt(s, i)
      case Some(e) => Some((i, e))
      case None => SearchSalary(s, i + 1)
  }

  /** The salary: the first match of the currency pattern in the body, or the
      sentinel when the body is empty or holds no match. */
  function Salary(body: String): (r: String)
    ensures forall i, e :: FirstSalary(body, i, e) ==> r == body[i..e]
    ensures (forall i, e :: !SalaryAt(body, i, e)) ==> r == NoSalary
    ensures r == NoSalary || exists i, e :: SalaryAt(body, i, e) && r == body[i..e]
  {
    if body == [] then NoSalary
    else match SearchSalary(body, 0)
      case None => NoSalary
      case Some((i, e)) => body[i..e]
  }

  /** A salary that is not the sentinel begins with the currency marker. */
  lemma SalaryShape(body: String)
    ensures Salary(body) == NoSalary || (|Salary(body)| >= 3 && IsR(Salary(body)[0]) && Salary(body)[1] == '$')
  {
    var r := Salary(body);
    if r != NoSalary {
      var i, e :| SalaryAt(body, i, e) && r == body[i..e];
      assert r[0] == body[i] && r[1] == body[i + 1];
    }
  }

  // ================================================================ keywords

  /** The technology names the scraper looks for, in the source's order. */
  const TechList: seq<String> := [
    "Python", "Django", "Flask", "FastAPI", "Java", "Node",
    "TypeScript", "JavaScript", "Go", "Ruby", "PHP", "Docker",
    "AWS", "PostgreSQL", "MongoDB", "Redis", "Backend"]

  const MaxKeywords: nat := 8
  const NoKeywords: String := "backend"

  ghost predicate Distinct<T>(xs: seq<T>) {
    forall i, j :: 0 <= i < j < |xs| ==> xs[i] != xs[j]
  }

  /** The text the keywords are looked for in: `(title + ' ' + body).lower()`. */
  function KeywordText(title: String, body: String): String {
    Lower(title + " " + body)
  }

  /** `[t for t in names if t.lower() in text]`. */
  function Matching(names: seq<String>, text: String): (r: seq<String>)
    ensures forall t :: t in r <==> t in names && Occurs(text, Lower(t))
    ensures |r| <= |names|
  {
    if names == [] then []
    else (if Contains(text, Lower(names[0])) then [names[0]] else []) + Matching(names[1..], text)
  }

  lemma {:induction false} MatchingAppend(a: seq<String>, b: seq<String>, text: String)
    ensures Matching(a + b, text) == Matching(a, text) + Matching(b, text)
  {
    if a != [] {
      assert (a + b)[0] == a[0];
      assert (a + b)[1..] == a[1..] + b;
      MatchingAppend(a[1..], b, text);
    } else {
      assert a + b == b;
    }
  }

  lemma {:induction false} MatchingDistinct(names: seq<String>, text: String)
    requires Distinct(names)
    ensures Distinct(Matching(names, text))
  {
    if names != [] {
      MatchingDistinct(names[1..], text);
      assert names[0] !in names[1..];
    }
  }

  lemma TechListDistinct()
    ensures Distinct(TechList)
  {
  }

  /** Every name on the list is non-empty, at most ten characters long and
      capitalised. */
  lemma TechListShape()
    ensures forall x :: x in TechList ==> 0 < |x| <= 10 && 'A' <= x[0] <= 'Z'
  {
  }

  /** `techs[:8]`: the first eight matching names in list order. */
  function Selected(text: String): seq<String> {
    Cut(Matching(TechList, text), MaxKeywords)
  }

  /** `techs[:8]` holds no name twice, so `set()` keeps every selected name. */
  lemma SelectedDistinct(text: String)
    ensures Distinct(Selected(text))
  {
    TechListDistinct();
    MatchingDistinct(TechList, text);
  }

  /** A matching name sits in the filtered list right after the matching names
      that precede it. */
  lemma MatchingPosition(names: seq<String>, text: String, k: nat)
    requires k < |names| && Occurs(text, Lower(names[k]))
    ensures |Matching(names[..k], text)| < |Matching(names, text)|
    ensures Matching(names, text)[|Matching(names[..k], text)|] == names[k]
  {
    assert names == names[..k] + [names[k]] + names[k + 1..];
    MatchingAppend(names[..k] + [names[k]], names[k + 1..], text);
    MatchingAppend(names[..k], [names[k]], text);
    assert Matching([names[k]], text) == [names[k]] by {
      assert [names[k]][1..] == [];
    }
  }

  /** Over a list without repeats: a name is among the first `n` matches iff it
      is on the list, occurs in the text, and fewer than `n` matching names
      precede it. */
  lemma FirstMatchesIff(names: seq<String>, text: String, n: nat, t: String)
    requires Distinct(names)
    ensures t in Cut(Matching(names, text), n) <==>
      exists k :: 0 <= k < |names| && names[k] == t && Occurs(text, Lower(t))
                  && |Matching(names[..k], text)| < n
  {
    var m := Matching(names, text);
    MatchingDistinct(names, text);
    forall k | 0 <= k < |names| && names[k] == t && Occurs(text, Lower(t))
      ensures |Matching(names[..k], text)| < |m|
      ensures m[|Matching(names[..k], text)|] == t
    {
      MatchingPosition(names, text, k);
    }
    if t in Cut(m, n) {
      var j :| 0 <= j < |Cut(m, n)| && Cut(m, n)[j] == t;
      assert t in m;
      var k :| 0 <= k < |names| && names[k] == t;
      assert m[|Matching(names[..k], text)|] == t;
      assert m[j] == t;
    }
  }

  /** A name is selected iff it is on the list, occurs in the text, and fewer
      than eight matching names come before it on the list. */
  lemma SelectedIff(text: String, t: String)
    ensures t in Selected(text) <==>
      exists k :: 0 <= k < |TechList| && TechList[k] == t && Occurs(text, Lower(t))
                  && |Matching(TechList[..k], text)| < MaxKeywords
  {
    TechListDistinct();
    FirstMatchesIff(TechList, text, MaxKeywords, t);
  }

  /** The total length of the names. */
  function TotalLength(xs: seq<String>): nat {
    if xs == [] then 0 else |xs[0]| + TotalLength(xs[1..])
  }

  /** `', '.join(xs)`: the names in order, the first one leading, with a
      two-character separator between neighbours. */
  function Join(xs: seq<String>): (r: String)
    ensures xs != [] ==> xs[0] <= r
    ensures |r| == if xs == [] then 0 else TotalLength(xs) + 2 * (|xs| - 1)
  {
    if |xs| == 0 then []
    else if |xs| == 1 then xs[0]
    else xs[0] + ", " + Join(xs[1..])
  }

  /** Joining one more name appends the separator and that name. */
  lemma {:induction false} JoinAppend(xs: seq<String>, x: String)
    requires xs != []
    ensures Join(xs + [x]) == Join(xs) + ", " + x
    decreases |xs|
  {
    if |xs| == 1 {
      assert (xs + [x])[1..] == [x];
    } else {
      assert (xs + [x])[1..] == xs[1..] + [x];
      JoinAppend(xs[1..], x);
    }
  }

  lemma {:induction false} JoinLength(xs: seq<String>)
    requires forall x :: x in xs ==> |x| <= 10
    ensures |Join(xs)| <= 12 * |xs|
  {
    if |xs| > 1 {
      assert forall x :: x in xs[1..] ==> x in xs;
      JoinLength(xs[1..]);
    }
  }

  /** Python's iteration order over a set is not specified, so the model takes
      it as a parameter: any function that reorders its argument. */
  ghost predicate IsArrangement(arrange: seq<String> -> seq<String>) {
    forall xs :: multiset(arrange(xs)) == multiset(xs)
  }

  /** `', '.join(set(techs[:8])) or 'backend'`: the selected names, each once,
      in some order, or the sentinel when none was found. */
  function Keywords(title: String, body: String, arrange: seq<String> -> seq<String>): (r: String)
    requires IsArrangement(arrange)
    ensures r == NoKeywords <==> Selected(KeywordText(title, body)) == []
    ensures r != NoKeywords ==>
      exists xs :: r == Join(xs) && multiset(xs) == multiset(Selected(KeywordText(title, body)))
    ensures |r| < 250
  {
    var selected := Selected(KeywordText(title, body));
    var names := arrange(selected);
    assert multiset(names) == multiset(selected);
    assert |names| == |selected| by {
      assert |multiset(names)| == |names| && |multiset(selected)| == |selected|;
    }
    assert forall x :: x in names ==> x in TechList by {
      forall x | x in names ensures x in TechList {
        assert x in multiset(names);
      }
    }
    TechListShape();
    JoinLength(names);
    var joined := Join(names);
    if joined == [] then NoKeywords else joined
  }
}
