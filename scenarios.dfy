/**
 * Concrete titles and bodies run through the extractors: the behaviour the
 * scraper shows on typical postings, derived from the general contracts.
 * Each lemma takes its string as a parameter fixed by its `requires`: on a
 * literal argument the verifier would unfold the recursive scanners without
 * bound, while a parameter leaves the unfolding to the proof.
 */
module Scenarios {
  import opened Wrappers
  import opened Text
  import opened Extract
  import opened Ingestion

  // ---------------------------------------------------------------- company and role

  lemma AcmeCompany(t: String)
    requires t == "[Acme] Backend Dev"
    ensures Company(t) == "Acme"
  {
    assert FirstCompanyTag(t, 0, 5);
    assert t[1..5] == "Acme";
  }

  lemma AcmeTagRemoved(t: String)
    requires t == "[Acme] Backend Dev"
    ensures RemoveTags(t) == RemoveTagsFrom(t, 7)
  {
    assert TagClose(t, 0) == Some(5) by {
      assert TagAt(t, 0, 5);
      TagEnd(t, 0);
    }
    SpanIsLongest(t, 6, 7, IsSpace);
  }

  lemma AcmeRest(t: String)
    requires t == "[Acme] Backend Dev"
    ensures RemoveTagsFrom(t, 7) == "Backend Dev"
  {
    assert forall i :: 7 <= i < |t| ==> t[i] != '[';
    RemoveTagsIdentity(t, 7);
    assert t[7..] == "Backend Dev";
  }

  /** A bracketed company name is taken as the company and dropped from the role. */
  lemma CompanyAndRoleFromTag(t: String)
    requires t == "[Acme] Backend Dev"
    ensures Company(t) == "Acme"
    ensures Role(t) == "Backend Dev"
  {
    AcmeCompany(t);
    AcmeTagRemoved(t);
    AcmeRest(t);
    StripTrimmed("Backend Dev");
  }

  /** The blocklist is Portuguese: `[Remoto]` is not a company, `[Remote]` is. */
  lemma BlocklistIsPortuguese(t: String, u: String)
    requires t == "[Remoto] Backend Dev" && u == "[Remote] Backend Dev"
    ensures Company(t) == NoCompany
    ensures Company(u) == "Remote"
  {
    assert FirstCompanyTag(t, 0, 7);
    assert t[1..7] == "Remoto";
    assert Lower("Remoto") == "remoto";
    assert FirstCompanyTag(u, 0, 7);
    assert u[1..7] == "Remote";
    assert Lower("Remote") == "remote";
  }

  // ---------------------------------------------------------------- location

  /** A needle whose first two characters never stand side by side in `hay`
      does not occur in it. */
  lemma NoPairNoOccurrence(hay: String, needle: String)
    requires |needle| >= 2
    requires forall i :: 0 <= i < |hay| - 1 ==> !(hay[i] == needle[0] && hay[i + 1] == needle[1])
    ensures !Occurs(hay, needle)
  {
    forall i | 0 <= i && i + |needle| <= |hay|
      ensures !OccursAt(hay, needle, i)
    {
      var w := hay[i..i + |needle|];
      assert w[0] == hay[i] && w[1] == hay[i + 1];
    }
  }

  /** The English word counts as remote even inside a tag. */
  lemma RemoteTagIsRemote(u: String)
    requires u == "[Remote] Backend Dev"
    ensures Location(u) == Remote
  {
    assert Lower(u)[1..7] == "remote";
    assert OccursAt(Lower(u), "remote", 1);
  }

  /** Lower-casing reaches the accented capital, so a shouted hybrid title is hybrid. */
  lemma ShoutedHybrid(t: String)
    requires t == "Dev HÍBRIDO"
    ensures Location(t) == Hybrid
  {
    var l := Lower(t);
    assert l == "dev híbrido";
    assert forall i :: 0 <= i < |l| - 1 ==> !(l[i] == 'r' && l[i + 1] == 'e');
    NoPairNoOccurrence(l, "remoto");
    NoPairNoOccurrence(l, "remote");
    assert l[4..11] == "híbrido";
    assert OccursAt(l, "híbrido", 4);
  }

  // ---------------------------------------------------------------- salary

  lemma CurrencyAfterDash(s: String)
    requires s == "R$ 5.000 - R$ 7.000"
    ensures RangeEnd(s, 8).None?
  {
    SpanIsLongest(s, 8, 9, IsSpace);
    SpanIsLongest(s, 10, 11, IsSpace);
  }

  lemma FirstAmountEnds(s: String)
    requires s == "R$ 5.000 - R$ 7.000"
    ensures SalaryEndAt(s, 0) == Some(8)
  {
    CurrencyAfterDash(s);
    SpanIsLongest(s, 2, 3, IsSpace);
    SpanIsLongest(s, 3, 8, IsAmount);
  }

  /** The range of the salary pattern needs digits right after the separator:
      a second currency marker ends the match before the range. */
  lemma SalaryRangeNeedsDigits(s: String)
    requires s == "R$ 5.000 - R$ 7.000"
    ensures Salary(s) == "R$ 5.000"
  {
    FirstAmountEnds(s);
    assert SearchSalary(s, 0) == Some((0, 8));
    assert s[0..8] == "R$ 5.000";
  }

  lemma DigitsAfterDash(s: String)
    requires s == "R$ 5.000 - 7.000"
    ensures RangeEnd(s, 8) == Some(16)
  {
    SpanIsLongest(s, 8, 9, IsSpace);
    SpanIsLongest(s, 10, 11, IsSpace);
    SpanIsLongest(s, 11, 16, IsAmount);
  }

  lemma WholeRangeEnds(s: String)
    requires s == "R$ 5.000 - 7.000"
    ensures SalaryEndAt(s, 0) == Some(16)
  {
    DigitsAfterDash(s);
    SpanIsLongest(s, 2, 3, IsSpace);
    SpanIsLongest(s, 3, 8, IsAmount);
  }

  /** A range written with digits on both sides is matched as a whole. */
  lemma SalaryRangeMatchedWhole(s: String)
    requires s == "R$ 5.000 - 7.000"
    ensures Salary(s) == s
  {
    WholeRangeEnds(s);
    assert SearchSalary(s, 0) == Some((0, 16));
  }

  // ---------------------------------------------------------------- defaults

  /** An issue without a title is read as "Sem título": no company, and the
      default title as its role. */
  lemma MissingTitleDefaults(body: String, link: String, created: String, arrange: seq<String> -> seq<String>)
    requires IsArrangement(arrange)
    ensures ExtractVaga(Issue(Missing, Str(body), Str(link), Str(created)), arrange).Some?
    ensures ExtractVaga(Issue(Missing, Str(body), Str(link), Str(created)), arrange).value.company == NoCompany
    ensures ExtractVaga(Issue(Missing, Str(body), Str(link), Str(created)), arrange).value.role == Untitled
  {
    var t := Untitled;
    assert forall i :: 0 <= i < |t| ==> t[i] != '[';
    StripTrimmed(t);
  }
}
