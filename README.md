# Job-posting ingestion of the backend-br scraper, in Dafny

The scraper reads the open issues of the `backend-br/vagas` GitHub repository
(each issue is a Brazilian backend job posting). For every issue it derives a
record of the `vagas` table: company, role (`cargo`), salary, location,
technology keywords, posting date and link. It then inserts the record unless
its link is already stored, and answers with a summary of the run. This
project models that pipeline, the body of the `scrape_backend_br` endpoint,
and proves what it does.

* `text.dfy`: module `Wrappers` (an `Option` type) and module `Text`.
  `Text` holds the string primitives the scraper uses: Python's whitespace
  class (`str.isspace`, which is also the `\s` of a `str` pattern),
  `str.lower()`, the substring test `needle in hay`, `str.strip()` and the
  prefix cut `s[:n]`. Each scanning function is proved against a declarative
  predicate (`Contains` against `Occurs`, `Strip` against `Trimmed` and the
  whitespace runs it removes).
* `extract.dfy`: module `Extract`, the field extractors and the three regular
  expressions they use. Each expression is a declarative predicate saying
  which slices match it: `CompanyTagAt` for `\[([^\]]+)\]`, `TagAt` for
  `\[.*?\]`, `SalaryAt` for `R\$\s*[\d.,]+(?:\s*[-ka]\s*[\d.,]+)?` under
  `re.I`. Next to each predicate is a scanner proved to return Python's
  leftmost match (and, for the salary, the greedy longest one there).
  `re.sub` is modelled by the scan `RemoveTagsFrom`. It is proved equal to
  `Kept`, the characters that no match of `\[.*?\]\s*` covers, and to leave
  no tag behind.
* `ingestion.dfy`: module `Ingestion`. It contains:
  - the issue as JSON: each field is missing, `null` or a string;
  - the per-issue extraction `ExtractVaga`. An issue with a `null` title,
    body, link or date raises in the source and is skipped; the model gives
    `None` for it;
  - the column-width cuts applied at the INSERT (`Normalize`);
  - the table as a class `Store`. Its rows and its unique index on `link`
    are updated in place by `InsertIfAbsent` (`INSERT OR IGNORE` /
    `ON CONFLICT (link) DO NOTHING`);
  - the loop `Store.Ingest`, proved against the ghost specification
    `Accepted` of which records a run creates;
  - the endpoint `Scrape`.
* `scenarios.dfy`: module `Scenarios`, concrete titles and bodies worked
  through the general contracts.

Python's iteration order over a `set` is not fixed. It decides the order of
the keywords in `', '.join(set(techs[:8]))`, so the model takes that order as
a parameter `arrange`: any function that permutes its argument
(`IsArrangement`). Every result is proved for all such orders.

## Model

| member | source | states |
|---|---|---|
| Text.Lower | Api_vagas.py:175 | `str.lower()` keeps the length and lowers each character on its own: ASCII and Latin-1 capitals move 32 code points up, every other character stays |
| Text.LowerIdempotent | Api_vagas.py:183-185 | lower-casing an already lower-cased title changes nothing |
| Text.Contains | Api_vagas.py:183-186 | the substring test holds iff the needle occurs at some index of the text |
| Text.Strip | Api_vagas.py:179 | the result has no whitespace at either end, is a slice of the input with only whitespace cut off either side, and is empty iff the input is all whitespace |
| Text.Cut | Api_vagas.py:210-211 | `s[:n]` is a prefix of `s` whose length is the smaller of `n` and `len(s)` |
| Extract.SearchCompanyTag | Api_vagas.py:172 | a result is a match of `\[([^\]]+)\]`, and no match starts between the search start and it; no result means no match anywhere from the start |
| Extract.Company | Api_vagas.py:171-176 | for the leftmost bracket tag, the result is its contents unless their lower-case form is one of remoto, híbrido, presencial, sp, rj, in which case it is "Não especificada"; a title without a tag gives "Não especificada" |
| Extract.RemoveTags | Api_vagas.py:179 | the substitution keeps, in order, exactly the characters that lie neither inside a match of `\[.*?\]` nor in the whitespace run right after one, and leaves no tag |
| Extract.RemoveTagsKept | Api_vagas.py:179 | from any position that no earlier tag reaches past, the left-to-right scan keeps exactly those characters |
| Extract.RemoveTagsLeavesNoTag | Api_vagas.py:179 | no match of `\[.*?\]` starts anywhere in the text left by the substitution |
| Extract.RemoveTagsIdentity | Api_vagas.py:179 | a text in which no tag starts passes through the substitution unchanged |
| Extract.RemoveTagsIdempotent | Api_vagas.py:179 | removing the tags twice gives the same text as removing them once |
| Extract.Role | Api_vagas.py:179 | the role is the strip of the characters no tag or its trailing whitespace covers, or the whole title when that strip is empty; so a non-empty title gives a non-empty role, the role is the title or a trimmed tag-free text, and a title without tags gives its strip, or the title itself when that strip is empty |
| Extract.Location | Api_vagas.py:182-186 | "Remoto" iff the lower-cased title contains remoto or remote; "Híbrido" iff it contains neither but contains híbrido; "Não especificado" iff it contains none of the three |
| Extract.SalaryEndAtCorrect | Api_vagas.py:191 | the matcher's end at a position is a match of the salary pattern, and every match starting there ends no later |
| Extract.SearchSalary | Api_vagas.py:191 | the result is the leftmost start of a match and its longest end; no result means no match from the search start on |
| Extract.Salary | Api_vagas.py:189-193 | the salary is exactly the slice of the leftmost, longest match; a body without a match gives "Não informado"; every result is that sentinel or a matched slice of the body |
| Extract.SalaryShape | Api_vagas.py:189-193 | a salary other than "Não informado" starts with `R$` or `r$` and is at least three characters long |
| Extract.Matching | Api_vagas.py:201 | a name is kept iff it is on the list and its lower-case form occurs in the text; the result is no longer than the list |
| Extract.MatchingDistinct | Api_vagas.py:201 | filtering a list without repeats gives a list without repeats |
| Extract.TechListDistinct | Api_vagas.py:196-198 | the technology list has no repeated name, so `set(techs[:8])` drops nothing |
| Extract.SelectedIff | Api_vagas.py:201-202 | a name is among `techs[:8]` iff it is on the list, occurs in the lower-cased title and body, and fewer than eight matching names precede it on the list |
| Extract.SelectedDistinct | Api_vagas.py:201-202 | `techs[:8]` holds no name twice, so the set built from it keeps every selected name once |
| Extract.Join | Api_vagas.py:202 | `', '.join` starts with the first name and is as long as all names plus two characters per separator |
| Extract.JoinAppend | Api_vagas.py:202 | joining one more name appends ", " and that name |
| Extract.Keywords | Api_vagas.py:196-202 | the result is "backend" iff no name was selected; otherwise it is the selected names, each once, in some order, joined by ", "; it is always shorter than the 250-character column |
| Ingestion.Get | Api_vagas.py:165-168 | `issue.get(key, default)` gives the default for a missing key, the string for a string value, and Python's `None` exactly for a JSON null |
| Ingestion.ExtractVaga | Api_vagas.py:164-202 | the issue raises (gives `None`) iff its title, body, link or date is `null`; otherwise the link is kept whole, the date is the first ten characters of `created_at`, the keywords fit their column, and a non-empty title gives a non-empty role; company, role and location are `Company`, `Role` and `Location` of the title (default "Sem título"), the salary is `Salary` of the body (default empty), and the keywords are `Keywords` of title and body |
| Ingestion.Normalize | Api_vagas.py:210-211 | each text column holds the prefix of its field cut to 100, 250, 100, 500, 250 and 100 characters; the date is passed as it is |
| Ingestion.KeywordsNeverCut | Api_vagas.py:202-211 | the keyword cut at 250 characters never changes the keywords |
| Ingestion.LinksCollideOnPrefix | Api_vagas.py:209-211 | two links that agree on their first 500 characters are stored under the same key, so the second is ignored as a duplicate |
| Ingestion.AcceptedAtMostIssues | Api_vagas.py:219-220 | a run saves at most as many rows as it saw issues |
| Ingestion.AcceptedFresh | Api_vagas.py:204-220 | the rows a run creates have pairwise different links, none of them already in the table |
| Ingestion.AcceptedCovers | Api_vagas.py:204-220 | after a run, the stored link of every issue that did not raise is in the table |
| Ingestion.AllPresentCreatesNothing | Api_vagas.py:204-220 | when every non-raising issue's link is already stored, the run creates nothing |
| Ingestion.SecondRunCreatesNothing | Api_vagas.py:204-220 | running the same batch again right after a run creates no row |
| Ingestion.RaisingIssueIgnored | Api_vagas.py:224-226 | an issue that raises changes nothing: the run creates exactly what it creates without that issue |
| Ingestion.AcceptedComeFromIssues | Api_vagas.py:163-220 | every created record is the extraction of one of the fetched issues |
| Ingestion.NullFieldRaises | Api_vagas.py:164-226 | an issue with a `null` title, body, link or date never yields a record |
| Ingestion.Samples | Api_vagas.py:221-222 | the samples are the first five created records, each as its uncut company and the first 60 characters of its role |
| Ingestion.Store.InsertIfAbsent | Api_vagas.py:204-219 | the row is added iff its link is not yet in the unique index, the result says whether it was, the index then holds the link, and the links stay unique |
| Ingestion.Store.Ingest | Api_vagas.py:158-226 | the rows become the old rows followed by the cut records of `Accepted`; the summary counts every issue as seen, counts the created rows as saved, and samples the first five; the links stay unique |
| Ingestion.IngestTwice | Api_vagas.py:204-220 | ingesting the same batch twice in a row: the second run counts every issue as seen, saves no row and has no samples, and the rows are as the first run left them |
| Ingestion.Scrape | Api_vagas.py:150-240 | a failed fetch gives one error and touches no row; a fetched batch is ingested: the rows gain the cut `Accepted` records, and the answer counts every issue as seen, counts the created rows as saved, and samples the first five of them |
| Scenarios.CompanyAndRoleFromTag | Api_vagas.py:171-179 | "[Acme] Backend Dev" has company "Acme" and role "Backend Dev" |
| Scenarios.BlocklistIsPortuguese | Api_vagas.py:175 | "[Remoto] Backend Dev" has no company, while "[Remote] Backend Dev" has company "Remote" |
| Scenarios.RemoteTagIsRemote | Api_vagas.py:183-184 | "[Remote] Backend Dev" is remote |
| Scenarios.ShoutedHybrid | Api_vagas.py:185-186 | "Dev HÍBRIDO" is hybrid, because lower-casing reaches the accented capital |
| Scenarios.SalaryRangeNeedsDigits | Api_vagas.py:191 | in "R$ 5.000 - R$ 7.000" the salary is "R$ 5.000": the range needs digits right after the dash |
| Scenarios.SalaryRangeMatchedWhole | Api_vagas.py:191 | "R$ 5.000 - 7.000" is matched as a whole |
| Scenarios.MissingTitleDefaults | Api_vagas.py:165-179 | an issue without a title yields a record with no company and role "Sem título" |

## Where the code and its description differ

The model follows the code in each case below.

- **Blocklist.** The blocklist holds Portuguese words only (remoto, híbrido,
  presencial, sp, rj). So `[Remote]` is taken as a company, while
  `[Remoto]` is not (`Scenarios.BlocklistIsPortuguese`).
- **Hybrid location.** Only the accented Portuguese word `híbrido` marks a
  hybrid posting; the English `hybrid` does not.
- **Salary ranges.** The range part of the salary pattern allows no second
  currency marker. So `R$ 5.000 - R$ 7.000` yields `R$ 5.000`
  (`Scenarios.SalaryRangeNeedsDigits`).
- **Missing title.** Only a missing title becomes `Sem título`. An empty
  title stays empty, and so does its role.
- **Empty link.** An empty link is not rejected. It is stored like any
  other link, so at most one row with an empty link can exist.
- **Per-issue errors.** These are printed, not collected. The summary holds
  the count of issues seen, the count of rows saved and the samples, and no
  error list.

## Left out

- The Flask routes other than the scraping endpoint (`/`, `/vagas`,
  `/vagas/buscar/<palavra>`) and the JSON rendering of the answer, including
  the message text and the `banco` field, are not modelled.
- The GitHub request (URL, headers, query parameters, timeout,
  `raise_for_status`, JSON decoding) is an input: `Scrape` receives the
  decoded issue list, or `None` when fetching failed.
- The batch is assumed to be a list of issue objects. A JSON answer of
  another shape, and issue fields holding JSON numbers, booleans or objects,
  are not modelled.
- Connecting to the database, creating the table and choosing between
  PostgreSQL and SQLite are not modelled. Both INSERT variants behave
  alike on the unique `link` column and are one operation here.
- The `id` and `data_cadastro` columns, filled in by the database, are not
  part of the record.
- `conn.commit()` is not modelled: the rows are visible as soon as they are
  inserted. Errors raised by the database itself are not modelled either,
  including PostgreSQL aborting the transaction after a failed statement,
  and failures of the connection or of the commit (which the source answers
  with status 500).
- The `print` logging is not modelled.
- `str.lower()` is modelled for ASCII and the Latin-1 capitals only. Other
  scripts' case mappings, and those that change a string's length (such as
  `İ`), are not modelled.
- `\d` in the salary pattern is read as the ASCII digits. Python also
  accepts other Unicode decimal digits there.
- The order of the keywords is a parameter (`IsArrangement`), not CPython's
  hash order.
