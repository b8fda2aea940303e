/**
 * The ingestion run of `scrape_backend_br` (Api_vagas.py, lines 158-237):
 * every fetched issue is turned into a record, cut to the column widths, and
 * inserted into the `vagas` table unless a row with the same link is already
 * there; the run reports how many issues it saw, how many rows it created,
 * and up to five samples of the created rows.
 */
module Ingestion {
  import opened Wrappers
  import opened Text
  import opened Extract

  // ================================================================ input

  /** A field of an issue as the JSON decoder hands it over. */
  datatype JsonField = Missing | Null | Str(text: String)

  /** An issue of the GitHub listing, reduced to the fields the scraper reads. */
  datatype Issue = Issue(title: JsonField, body: JsonField, htmlUrl: JsonField, createdAt: JsonField)

  /** `issue.get(key, default)`: the default when the key is absent, and
      Python's `None` (here `None`) when the value is a JSON null. */
  function Get(f: JsonField, default: String): (r: Option<String>)
    ensures r.None? <==> f.Null?
    ensures f.Missing? ==> r == Some(default)
    ensures f.Str? ==> r == Some(f.text)
  {
    match f
    case Missing => Some(default)
    case Null => None
    case Str(s) => Some(s)
  }

  const Untitled: String := "Sem título"

  // ================================================================ records

  /** A row of `vagas` (empresa, cargo, salario, link, palavras_chave,
      data_postagem, localizacao), or the values extracted for one. */
  datatype Vaga = Vaga(
    company: String, role: String, salary: String, link: String,
    keywords: String, postedOn: String, location: String)

  const CompanyWidth: nat := 100
  const RoleWidth: nat := 250
  const SalaryWidth: nat := 100
  const LinkWidth: nat := 500
  const KeywordsWidth: nat := 250
  const LocationWidth: nat := 100
  const DateWidth: nat := 10

  /** Extracts the record of one issue. `None` stands for the exception Python
      raises when a JSON null reaches a string operation: `created_at[:10]`,
      `re.search` on the title, `titulo + ' ' + corpo`, or `link[:500]`. */
  function ExtractVaga(issue: Issue, arrange: seq<String> -> seq<String>): (r: Option<Vaga>)
    requires IsArrangement(arrange)
    ensures r.None? <==>
      issue.title.Null? || issue.body.Null? || issue.htmlUrl.Null? || issue.createdAt.Null?
    ensures r.Some? ==> r.value.link == Get(issue.htmlUrl, []).value
    ensures r.Some? ==> r.value.postedOn <= Get(issue.createdAt, []).value
    ensures r.Some? ==> |r.value.postedOn| == Min(DateWidth, |Get(issue.createdAt, []).value|)
    ensures r.Some? ==> |r.value.keywords| < KeywordsWidth
    ensures r.Some? && Get(issue.title, Untitled).value != [] ==> r.value.role != []
    ensures r.Some? ==>
      var t, b := Get(issue.title, Untitled).value, Get(issue.body, []).value;
      && r.value.company == Company(t) && r.value.role == Role(t) && r.value.location == Location(t)
      && r.value.salary == Salary(b) && r.value.keywords == Keywords(t, b, arrange)
  {
    var title := Get(issue.title, Untitled);
    var body := Get(issue.body, []);
    var link := Get(issue.htmlUrl, []);
    var created := Get(issue.createdAt, []);
    if created.None? || title.None? || body.None? || link.None? then None
    else
      var t, b := title.value, body.value;
      Some(Vaga(Company(t), Role(t), Salary(b), link.value, Keywords(t, b, arrange),
                Cut(created.value, DateWidth), Location(t)))
  }

  /** The values bound to the INSERT: every text cut to its column width. */
  function Normalize(v: Vaga): (r: Vaga)
    ensures r.company <= v.company && |r.company| == Min(CompanyWidth, |v.company|)
    ensures r.role <= v.role && |r.role| == Min(RoleWidth, |v.role|)
    ensures r.salary <= v.salary && |r.salary| == Min(SalaryWidth, |v.salary|)
    ensures r.link <= v.link && |r.link| == Min(LinkWidth, |v.link|)
    ensures r.keywords <= v.keywords && |r.keywords| == Min(KeywordsWidth, |v.keywords|)
    ensures r.location <= v.location && |r.location| == Min(LocationWidth, |v.location|)
    ensures r.postedOn == v.postedOn
  {
    Vaga(Cut(v.company, CompanyWidth), Cut(v.role, RoleWidth), Cut(v.salary, SalaryWidth),
         Cut(v.link, LinkWidth), Cut(v.keywords, KeywordsWidth), v.postedOn,
         Cut(v.location, LocationWidth))
  }

  /** The keyword text never reaches its column width, so its cut changes nothing. */
  lemma KeywordsNeverCut(issue: Issue, arrange: seq<String> -> seq<String>)
    requires IsArrangement(arrange) && ExtractVaga(issue, arrange).Some?
    ensures Normalize(ExtractVaga(issue, arrange).value).keywords == ExtractVaga(issue, arrange).value.keywords
  {
  }

  /** Two links that agree on their first 500 characters are stored as the same key. */
  lemma LinksCollideOnPrefix(v: Vaga, w: Vaga)
    requires |v.link| >= LinkWidth && |w.link| >= LinkWidth && v.link[..LinkWidth] == w.link[..LinkWidth]
    ensures Normalize(v).link == Normalize(w).link
  {
  }

  /** The records of `rows` as stored. */
  function Stored(xs: seq<Vaga>): (r: seq<Vaga>)
    ensures |r| == |xs|
    ensures forall i :: 0 <= i < |xs| ==> r[i] == Normalize(xs[i])
  {
    seq(|xs|, i requires 0 <= i < |xs| => Normalize(xs[i]))
  }

  ghost function LinksOf(rows: seq<Vaga>): set<String> {
    set i | 0 <= i < |rows| :: rows[i].link
  }

  /** The UNIQUE constraint on `link`. */
  ghost predicate UniqueLinks(rows: seq<Vaga>) {
    forall i, j :: 0 <= i < j < |rows| ==> rows[i].link != rows[j].link
  }

  lemma LinksOfAppend(a: seq<Vaga>, b: seq<Vaga>)
    ensures LinksOf(a + b) == LinksOf(a) + LinksOf(b)
  {
    var ab := a + b;
    forall l | l in LinksOf(ab) ensures l in LinksOf(a) + LinksOf(b) {
      var i :| 0 <= i < |ab| && ab[i].link == l;
      if i >= |a| { assert b[i - |a|].link == l; }
    }
    forall l | l in LinksOf(a) + LinksOf(b) ensures l in LinksOf(ab) {
      if l in LinksOf(a) {
        var i :| 0 <= i < |a| && a[i].link == l;
        assert ab[i].link == l;
      } else {
        var i :| 0 <= i < |b| && b[i].link == l;
        assert ab[|a| + i].link == l;
      }
    }
  }

  lemma StoredAppend(xs: seq<Vaga>, v: Vaga)
    ensures Stored(xs + [v]) == Stored(xs) + [Normalize(v)]
  {
  }

  lemma LinksOfSingleton(v: Vaga)
    ensures LinksOf([v]) == {v.link}
  {
    assert [v][0].link == v.link;
  }

  // ================================================================ the run

  /** What each issue of the batch turns into: a record, or `None` when it raises. */
  function Extracted(issues: seq<Issue>, arrange: seq<String> -> seq<String>): (r: seq<Option<Vaga>>)
    requires IsArrangement(arrange)
    ensures |r| == |issues|
    ensures forall k :: 0 <= k < |issues| ==> r[k] == ExtractVaga(issues[k], arrange)
  {
    seq(|issues|, k requires 0 <= k < |issues| => ExtractVaga(issues[k], arrange))
  }

  /** The extracted records a run creates rows for, in input order, when the
      table already holds the links `present`: an issue is skipped when it
      raised (`None`) or when its stored link is already taken. */
  ghost function Accepted(present: set<String>, results: seq<Option<Vaga>>): seq<Vaga>
    decreases |results|
  {
    if results == [] then []
    else Step(present, Accepted(present, results[..|results| - 1]), results[|results| - 1])
  }

  /** One issue of the run, after the records `prev` were created. */
  ghost function Step(present: set<String>, prev: seq<Vaga>, result: Option<Vaga>): seq<Vaga> {
    match result
    case None => prev
    case Some(v) =>
      if Normalize(v).link in present + LinksOf(Stored(prev)) then prev else prev + [v]
  }

  lemma AcceptedPrefix(present: set<String>, results: seq<Option<Vaga>>, k: nat)
    requires k < |results|
    ensures Accepted(present, results[..k + 1]) == Step(present, Accepted(present, results[..k]), results[k])
  {
    assert results[..k + 1][..k] == results[..k];
  }

  /** A run creates at most one row per issue. */
  lemma {:induction false} AcceptedAtMostIssues(present: set<String>, results: seq<Option<Vaga>>)
    ensures |Accepted(present, results)| <= |results|
    decreases |results|
  {
    if results != [] {
      AcceptedAtMostIssues(present, results[..|results| - 1]);
    }
  }

  /** Adding a record whose link is new keeps the links unique. */
  lemma UniqueLinksAppend(rows: seq<Vaga>, v: Vaga)
    requires UniqueLinks(rows) && v.link !in LinksOf(rows)
    ensures UniqueLinks(rows + [v])
    ensures LinksOf(rows + [v]) == LinksOf(rows) + {v.link}
  {
    LinksOfAppend(rows, [v]);
    LinksOfSingleton(v);
    var s := rows + [v];
    forall i, j | 0 <= i < j < |s| ensures s[i].link != s[j].link {
      if j == |rows| {
        assert s[i].link in LinksOf(rows) by { assert rows[i] == s[i]; }
      } else {
        assert rows[i] == s[i] && rows[j] == s[j];
      }
    }
  }

  /** The created rows have pairwise different links, none of them already present. */
  lemma {:induction false} AcceptedFresh(present: set<String>, results: seq<Option<Vaga>>)
    ensures UniqueLinks(Stored(Accepted(present, results)))
    ensures LinksOf(Stored(Accepted(present, results))) !! present
    decreases |results|
  {
    if results != [] {
      var prev := Accepted(present, results[..|results| - 1]);
      AcceptedFresh(present, results[..|results| - 1]);
      match results[|results| - 1]
      case None =>
      case Some(v) =>
        if Normalize(v).link !in present + LinksOf(Stored(prev)) {
          StoredAppend(prev, v);
          UniqueLinksAppend(Stored(prev), Normalize(v));
        }
    }
  }

  /** After a run, the link of every issue that did not raise is in the table. */
  lemma {:induction false} AcceptedCovers(present: set<String>, results: seq<Option<Vaga>>, k: nat)
    requires k < |results| && results[k].Some?
    ensures Normalize(results[k].value).link in present + LinksOf(Stored(Accepted(present, results)))
    decreases |results|
  {
    var n := |results| - 1;
    var prev := Accepted(present, results[..n]);
    if k < n {
      AcceptedCovers(present, results[..n], k);
      assert results[..n][k] == results[k];
    }
    if results[n].Some? {
      var v := results[n].value;
      StoredAppend(prev, v);
      LinksOfAppend(Stored(prev), [Normalize(v)]);
      LinksOfSingleton(Normalize(v));
    }
  }

  /** When the link of every issue that does not raise is already present, a
      run creates nothing. */
  lemma {:induction false} AllPresentCreatesNothing(present: set<String>, results: seq<Option<Vaga>>)
    requires forall k :: 0 <= k < |results| && results[k].Some? ==> Normalize(results[k].value).link in present
    ensures Accepted(present, results) == []
    decreases |results|
  {
    if results != [] {
      var n := |results| - 1;
      assert forall k :: 0 <= k < n ==> results[..n][k] == results[k];
      AllPresentCreatesNothing(present, results[..n]);
    }
  }

  /** Running the same batch a second time creates no row. */
  lemma SecondRunCreatesNothing(present: set<String>, results: seq<Option<Vaga>>)
    ensures Accepted(present + LinksOf(Stored(Accepted(present, results))), results) == []
  {
    var after := present + LinksOf(Stored(Accepted(present, results)));
    forall k | 0 <= k < |results| && results[k].Some?
      ensures Normalize(results[k].value).link in after
    {
      AcceptedCovers(present, results, k);
    }
    AllPresentCreatesNothing(after, results);
  }

  /** An issue that raises changes nothing about the run: the issues after it
      are processed as if it were not there. */
  lemma {:induction false} RaisingIssueIgnored(present: set<String>, before: seq<Option<Vaga>>, after: seq<Option<Vaga>>)
    ensures Accepted(present, before + [None] + after) == Accepted(present, before + after)
    decreases |after|
  {
    if after == [] {
      assert (before + [None])[..|before|] == before;
      assert before + [None] + [] == before + [None];
      assert before + [] == before;
    } else {
      var m := |after| - 1;
      RaisingIssueIgnored(present, before, after[..m]);
      assert (before + [None] + after)[..|before| + 1 + m] == before + [None] + after[..m];
      assert (before + after)[..|before| + m] == before + after[..m];
    }
  }

  /** Every created record is the extraction of one of the issues. */
  lemma {:induction false} AcceptedComeFromIssues(present: set<String>, results: seq<Option<Vaga>>, v: Vaga)
    requires v in Accepted(present, results)
    ensures exists k :: 0 <= k < |results| && results[k] == Some(v)
    decreases |results|
  {
    var n := |results| - 1;
    var prev := Accepted(present, results[..n]);
    if v in prev {
      AcceptedComeFromIssues(present, results[..n], v);
      var k :| 0 <= k < n && results[..n][k] == Some(v);
      assert results[..n][k] == results[k];
    } else {
      assert results[n] == Some(v);
    }
  }

  /** An issue with a null title, body, link or date is extracted as `None`,
      which `Step` skips. */
  lemma NullFieldRaises(issues: seq<Issue>, arrange: seq<String> -> seq<String>, k: nat)
    requires IsArrangement(arrange) && k < |issues|
    requires issues[k].title.Null? || issues[k].body.Null? || issues[k].htmlUrl.Null? || issues[k].createdAt.Null?
    ensures Extracted(issues, arrange)[k].None?
  {
  }

  // ================================================================ summary

  /** An entry of `vagas_exemplo`: the company as extracted (not cut to its
      column width) and the first 60 characters of the role. */
  datatype Sample = Sample(company: String, role: String)

  const SampleRoleWidth: nat := 60
  const MaxSamples: nat := 5

  function SampleOf(v: Vaga): Sample {
    Sample(v.company, Cut(v.role, SampleRoleWidth))
  }

  /** The samples of the first five created records. */
  function Samples(xs: seq<Vaga>): (r: seq<Sample>)
    ensures |r| == Min(MaxSamples, |xs|)
    ensures forall i :: 0 <= i < |r| ==> r[i] == SampleOf(xs[i])
  {
    seq(Min(MaxSamples, |xs|), i requires 0 <= i < Min(MaxSamples, |xs|) => SampleOf(xs[i]))
  }

  lemma SamplesAppend(xs: seq<Vaga>, v: Vaga)
    ensures Samples(xs + [v]) == if |xs| < MaxSamples then Samples(xs) + [SampleOf(v)] else Samples(xs)
  {
  }

  /** What one insert of the loop does to the rows, the count and the samples,
      in terms of the run's specification. */
  lemma StepRows(present: set<String>, rows0: seq<Vaga>, prev: seq<Vaga>, v: Vaga, created: bool)
    requires created <==> Normalize(v).link !in present + LinksOf(Stored(prev))
    ensures Step(present, prev, Some(v)) == if created then prev + [v] else prev
    ensures created ==> rows0 + Stored(prev) + [Normalize(v)] == rows0 + Stored(prev + [v])
    ensures created ==> |prev + [v]| == |prev| + 1
    ensures created ==>
      Samples(prev + [v]) == if |Samples(prev)| < MaxSamples then Samples(prev) + [SampleOf(v)] else Samples(prev)
  {
    if created {
      StoredAppend(prev, v);
      SamplesAppend(prev, v);
    }
  }

  /** The JSON answer of a run: `total_analisadas`, the count of saved rows
      behind the message, and `vagas_exemplo`. */
  datatype Summary = Summary(totalSeen: nat, totalSaved: nat, examples: seq<Sample>)

  /** The answer of the endpoint: the run's summary, or a single error when the
      fetch of the issues failed. */
  datatype Response = FetchFailed | Ingested(summary: Summary)

  // ================================================================ storage

  /** The `vagas` table: its rows in insertion order and the unique index on `link`. */
  class Store {
    var rows: seq<Vaga>
    var index: set<String>

    ghost predicate Valid()
      reads this
    {
      UniqueLinks(rows) && index == LinksOf(rows)
    }

    constructor ()
      ensures Valid() && rows == []
    {
      rows := [];
      index := {};
    }

    /** `INSERT OR IGNORE` / `ON CONFLICT (link) DO NOTHING`: adds the row
        unless its link is taken, and says whether it did (`rowcount > 0`). */
    method InsertIfAbsent(v: Vaga) returns (created: bool)
      requires Valid()
      modifies this
      ensures Valid()
      ensures created <==> v.link !in old(index)
      ensures rows == if created then old(rows) + [v] else old(rows)
      ensures index == old(index) + {v.link}
    {
      created := v.link !in index;
      if created {
        UniqueLinksAppend(rows, v);
        rows := rows + [v];
        index := index + {v.link};
      }
    }

    /** The loop of `scrape_backend_br` over the fetched issues. */
    method Ingest(issues: seq<Issue>, arrange: seq<String> -> seq<String>) returns (summary: Summary)
      requires Valid() && IsArrangement(arrange)
      modifies this
      ensures Valid()
      ensures rows == old(rows) + Stored(Accepted(old(index), Extracted(issues, arrange)))
      ensures summary.totalSeen == |issues|
      ensures summary.totalSaved == |Accepted(old(index), Extracted(issues, arrange))|
      ensures summary.examples == Samples(Accepted(old(index), Extracted(issues, arrange)))
    {
      ghost var present := index;
      ghost var rows0 := rows;
      ghost var results := Extracted(issues, arrange);
      var saved := 0;
      var examples: seq<Sample> := [];
      assert results[..0] == [];
      assert rows == rows0 + Stored([]);
      for k := 0 to |issues|
        invariant Valid()
        invariant rows == rows0 + Stored(Accepted(present, results[..k]))
        invariant saved == |Accepted(present, results[..k])|
        invariant examples == Samples(Accepted(present, results[..k]))
      {
        ghost var prev := Accepted(present, results[..k]);
        AcceptedPrefix(present, results, k);
        LinksOfAppend(rows0, Stored(prev));
        var result := ExtractVaga(issues[k], arrange);
        assert result == results[k];
        match result {
          case None =>
          case Some(v) =>
            var created := InsertIfAbsent(Normalize(v));
            if created {
              saved := saved + 1;
              if |examples| < MaxSamples {
                examples := examples + [SampleOf(v)];
              }
            }
            StepRows(present, rows0, prev, v, created);
        }
      }
      assert results[..|issues|] == results;
      summary := Summary(|issues|, saved, examples);
    }
  }

  /** Ingesting the same batch twice: the second run saves nothing, samples
      nothing and leaves the rows as the first run left them. */
  method IngestTwice(store: Store, issues: seq<Issue>, arrange: seq<String> -> seq<String>)
    returns (first: Summary, second: Summary)
    requires store.Valid() && IsArrangement(arrange)
    modifies store
    ensures store.Valid()
    ensures store.rows == old(store.rows) + Stored(Accepted(old(store.index), Extracted(issues, arrange)))
    ensures first.totalSaved == |Accepted(old(store.index), Extracted(issues, arrange))|
    ensures second.totalSeen == |issues| && second.totalSaved == 0 && second.examples == []
  {
    ghost var rows0, index0 := store.rows, store.index;
    ghost var results := Extracted(issues, arrange);
    first := store.Ingest(issues, arrange);
    LinksOfAppend(rows0, Stored(Accepted(index0, results)));
    SecondRunCreatesNothing(index0, results);
    ghost var rows1 := store.rows;
    second := store.Ingest(issues, arrange);
    assert store.rows == rows1 + Stored([]);
  }

  /** The endpoint: a failed fetch (network error, error status, undecodable
      answer) is one error for the whole run and touches no row; otherwise the
      fetched issues are ingested. */
  method Scrape(store: Store, fetched: Option<seq<Issue>>, arrange: seq<String> -> seq<String>) returns (response: Response)
    requires store.Valid() && IsArrangement(arrange)
    modifies store
    ensures store.Valid()
    ensures fetched.None? ==> response == FetchFailed && store.rows == old(store.rows)
    ensures fetched.Some? ==> response.Ingested?
    ensures fetched.Some? ==> response.summary.totalSeen == |fetched.value|
    ensures fetched.Some? ==>
      store.rows == old(store.rows) + Stored(Accepted(old(store.index), Extracted(fetched.value, arrange)))
    ensures fetched.Some? ==>
      response.summary.totalSaved == |Accepted(old(store.index), Extracted(fetched.value, arrange))|
    ensures fetched.Some? ==>
      response.summary.examples == Samples(Accepted(old(store.index), Extracted(fetched.value, arrange)))
  {
    match fetched
    case None =>
      response := FetchFailed;
    case Some(issues) =>
      var summary := store.Ingest(issues, arrange);
      response := Ingested(summary);
  }
}
