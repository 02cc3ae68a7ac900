# Bandit report summaries, modelled in Dafny

This project models the core of `Lab7_8/individual_repository_level_analysis.py`.
That script reads the Bandit security-linter reports of a repository, one JSON
file per commit, and writes one CSV row per report.

- **Report parser** (`parse_bandit_report`), in `report_parser.dfy`. A decoded
  report's `results` list becomes six counters: confidence HIGH/MEDIUM/LOW and
  severity HIGH/MEDIUM/LOW, matched after upper-casing. It also gives the
  distinct truthy `issue_cwe.id` values and their number.
  `ParseBanditReport` is written as the source's loop, with mutable counters
  and a set. It is proved against recursive specification functions (`Count`,
  `CweSet`). Those functions in turn carry the lemmas that state what the
  counters mean.
- **Repository analyzer** (`analyze_repository`), in
  `repository_analyzer.dfy`. The directory listing is a sequence of
  (filename, decoded report) pairs, or `None` when `bandit_reports` does not
  exist. `SortByName` plays the part of `sorted`. Each row is tagged with the
  repository name and with the commit id `CommitHash` (the filename with every
  `.json` removed). The result is `None` when no CSV would be written.
- **Text** (`text.dfy`): ASCII `str.upper()`, Python's string order `<` (by
  code point, a proper prefix first), and `str.replace(pattern, '')`.
- **Wrappers** (`wrappers.dfy`): `Option`, used for keys a JSON object may
  lack.

The commit id is not a suffix strip: `str.replace('.json', '')` removes
every occurrence of `.json`, wherever it is in the name
(`CommitHashIsNotSuffixStrip`). For names `<stem>.json` whose stem has no
`.json` in it, the result is the stem (`CommitHashOfReportName`).

## Model

| member | source | states |
|---|---|---|
| `Text.UpperChar` | Lab7_8/individual_repository_level_analysis.py:22-23 | the result is never a lower-case letter; a lower-case ASCII letter becomes its own capital (same distance from `A` as from `a`), every other character is unchanged |
| `Text.Upper` | Lab7_8/individual_repository_level_analysis.py:22-23 | upper-casing keeps the length, leaves no lower-case letter, and upper-cases each character in place |
| `Text.UpperEqualIff` | Lab7_8/individual_repository_level_analysis.py:22-40 | two ratings upper-case to the same string exactly when they agree character by character up to ASCII case, which is what the case-insensitive comparison with `'HIGH'`, `'MEDIUM'` and `'LOW'` relies on |
| `Text.UpperIdempotent` | Lab7_8/individual_repository_level_analysis.py:22-23 | upper-casing an upper-cased string changes nothing |
| `Text.Less` | Lab7_8/individual_repository_level_analysis.py:70 | Python's `<` on strings, the comparison `sorted` applies to filenames (its meaning is stated by the next three rows) |
| `Text.LessIsLexicographic` | Lab7_8/individual_repository_level_analysis.py:70 | the order `sorted` uses: `a < b` exactly when `a` is a proper prefix of `b` or first differs from it at a smaller character |
| `Text.LessTotal` | Lab7_8/individual_repository_level_analysis.py:70 | any two different filenames are ordered one way or the other |
| `Text.LessTransitive` | Lab7_8/individual_repository_level_analysis.py:70 | the filename order is transitive |
| `Text.RemoveAll` | Lab7_8/individual_repository_level_analysis.py:72 | `replace(pattern, '')` never lengthens a string, and leaves the string unchanged when the pattern does not occur in it or is empty |
| `Text.RemoveAllFirst` | Lab7_8/individual_repository_level_analysis.py:72 | `replace(p, '')` removes the first occurrence of `p` and resumes scanning after it: if no occurrence starts inside `a`, then `a + p + b` gives `a` followed by the result for `b`; with the unchanged-when-absent and empty-pattern clauses of `RemoveAll` this fixes the result for every input |
| `ReportParser.Results` | Lab7_8/individual_repository_level_analysis.py:21 | `report.get('results', [])`: a missing `results` key is an empty list |
| `ReportParser.RatingOf` | Lab7_8/individual_repository_level_analysis.py:22-23 | `result.get('issue_confidence', '')` and `result.get('issue_severity', '')`: a missing rating is the empty string |
| `ReportParser.LevelOf` | Lab7_8/individual_repository_level_analysis.py:22-40 | the counter an issue raises for one rating: HIGH, MEDIUM or LOW after upper-casing, in that order of tests, or none |
| `ReportParser.CweIdOf` | Lab7_8/individual_repository_level_analysis.py:24 | `result.get('issue_cwe', {}).get('id')`: a missing `issue_cwe` or a missing `id` gives `None` |
| `ReportParser.Truthy` | Lab7_8/individual_repository_level_analysis.py:43 | the `if cwe_id:` test: `None`, `0` and `''` are false, every other id is true |
| `ReportParser.Count` | Lab7_8/individual_repository_level_analysis.py:26-40 | a bucket counter never exceeds the number of results |
| `ReportParser.Recognised` | Lab7_8/individual_repository_level_analysis.py:22-23 | the number of results whose upper-cased rating is HIGH, MEDIUM or LOW is at most the number of results |
| `ReportParser.CweSet` | Lab7_8/individual_repository_level_analysis.py:42-44 | the distinct CWE ids are all truthy and number at most the results |
| `ReportParser.ListOfSet` | Lab7_8/individual_repository_level_analysis.py:53 | `list(unique_cwes)` holds each member of the set exactly once, in an unspecified order, so its length is the set's size |
| `ReportParser.ParseBanditReport` | Lab7_8/individual_repository_level_analysis.py:17-55 | the six counters equal the bucket counts of the results; `unique_cwes` is duplicate-free with exactly the members of `CweSet`; `total_unique_cwes` equals its length and that set's size |
| `ReportParser.EmptyReportSummary` | Lab7_8/individual_repository_level_analysis.py:17-21 | an absent or empty `results` list gives all six counters 0, an empty `unique_cwes` and `total_unique_cwes` 0 |
| `ReportParser.BucketsSumToRecognised` | Lab7_8/individual_repository_level_analysis.py:26-40 | each result raises at most one counter per rating: HIGH + MEDIUM + LOW is the number of results whose upper-cased rating is one of those names; any other value, or a missing one, counts nowhere |
| `ReportParser.CountDependsOnUpperRating` | Lab7_8/individual_repository_level_analysis.py:22-40 | a counter depends only on the upper-cased value of its own rating, result by result |
| `ReportParser.SeverityIgnoresConfidence` | Lab7_8/individual_repository_level_analysis.py:34-40 | replacing every confidence leaves every severity counter unchanged |
| `ReportParser.ConfidenceIgnoresCase` | Lab7_8/individual_repository_level_analysis.py:22-32 | a result with confidence `c` is counted as one with `c` upper-cased (so `"high"` counts as `"HIGH"`) |
| `ReportParser.CweSetMembers` | Lab7_8/individual_repository_level_analysis.py:24-44 | an id is among the distinct CWE ids exactly when it is truthy and some result carries it in `issue_cwe.id`; a result without `issue_cwe`, without `id` or with a falsy id adds nothing |
| `ReportParser.SummaryBounds` | Lab7_8/individual_repository_level_analysis.py:17-54 | the three confidence counters together, the three severity counters together, and `total_unique_cwes` are each at most `len(results)` |
| `RepositoryAnalyzer.CommitHash` | Lab7_8/individual_repository_level_analysis.py:72 | `report_file.replace('.json', '')`, the commit id of a report filename (its properties are the `RemoveAll` rows and the next three) |
| `RepositoryAnalyzer.CommitHashOfReportName` | Lab7_8/individual_repository_level_analysis.py:72 | the commit id of `<c>.json`, where `c` has no `.json`, is `c` |
| `RepositoryAnalyzer.CommitHashOfStem` | Lab7_8/individual_repository_level_analysis.py:72 | the commit id of `<c>.json`, where `c` only has characters after `.` (hexadecimal digits do), is `c` |
| `RepositoryAnalyzer.CommitHashIsNotSuffixStrip` | Lab7_8/individual_repository_level_analysis.py:72 | `.json` is removed wherever it occurs: `x.json.bak` gives `x.bak`, `x.json.json` gives `x` |
| `RepositoryAnalyzer.Insert` | Lab7_8/individual_repository_level_analysis.py:70 | insertion adds exactly the one entry (as a multiset) |
| `RepositoryAnalyzer.SortByName` | Lab7_8/individual_repository_level_analysis.py:70 | `sorted` returns a permutation of the listing |
| `RepositoryAnalyzer.InsertSorted` | Lab7_8/individual_repository_level_analysis.py:70 | inserting into a name-ordered listing keeps it name-ordered |
| `RepositoryAnalyzer.SortByNameSorted` | Lab7_8/individual_repository_level_analysis.py:70 | `sorted` returns the listing in non-decreasing filename order |
| `RepositoryAnalyzer.AnalyzeRepository` | Lab7_8/individual_repository_level_analysis.py:63-82 | a missing reports directory or an empty one gives no table; otherwise there is one row per file, in sorted filename order, each with `repo` the repository name, `commit` the filename without `.json`, and the report's summary |
| `RepositoryAnalyzer.EveryFileHasARow` | Lab7_8/individual_repository_level_analysis.py:70-78 | every file of the listing has a row with its commit id and its report's summary |
| `RepositoryAnalyzer.LessWithJsonExt` | Lab7_8/individual_repository_level_analysis.py:70-72 | for stems made of characters after `.`, appending `.json` keeps their order |
| `RepositoryAnalyzer.RowsInCommitOrder` | Lab7_8/individual_repository_level_analysis.py:70-78 | when every file is `<stem>.json` with such a stem, the rows are also in non-decreasing commit-id order |
| `RepositoryAnalyzer.ExampleSummary` | Lab7_8/individual_repository_level_analysis.py:17-55 | one result with HIGH confidence, LOW severity and CWE id 79 gives counters 1,0,0,0,0,1, CWE list `[79]` and count 1 |
| `RepositoryAnalyzer.ExampleOrder` | Lab7_8/individual_repository_level_analysis.py:70 | a listing `bbb222.json`, `aaa111.json` is sorted to `aaa111.json`, `bbb222.json` |
| `RepositoryAnalyzer.ExampleCommits` | Lab7_8/individual_repository_level_analysis.py:72 | `aaa111.json` and `bbb222.json` have commit ids `aaa111` and `bbb222` |
| `RepositoryAnalyzer.TwoReportsExample` | Lab7_8/individual_repository_level_analysis.py:68-82 | those two reports give exactly two rows, `aaa111` then `bbb222`, each with one HIGH confidence, one LOW severity and the single CWE id 79 |

## Left out

- Opening a report and `json.load` (lines 14-15): the parser takes the decoded report. A file that is not valid JSON aborts the whole run in the source. That failure is not modelled.
- `os.path.exists`, `os.listdir`, `os.path.join` and `os.makedirs` (lines 8, 63-71): the listing is an input. `None` stands for a missing directory. Every entry is taken to be a decodable report. A directory entry that is not one would make the source fail.
- `pd.DataFrame(...).to_csv`, the output path and the CSV column layout (lines 84-88): the model returns the rows that would be written, or `None` when no file is written.
- All `print` calls, the module-level `REPOSITORIES` list and the driver loop (lines 6-7, 61, 65, 81, 89, 92-95).
- `Text.Upper`: upper-cases ASCII letters only. Python's `str.upper()` also maps other Unicode letters, and some of those map to ASCII letters (for example the dotless `ı` maps to `I`).
- `ReportParser.CweId`: only `None`, integers and strings are modelled as `issue_cwe.id` values. Booleans and floats are left out: Python's set would treat `True` as equal to `1`, and `1.0` as equal to `1`. A non-empty list or object as an id is not a value the source can handle: it passes `if cwe_id:` (line 43), and `unique_cwes.add` (line 44) then raises `TypeError`, because the value is unhashable.
- Crashes in the source are excluded by the types, not modelled as errors. These are:
  - a decoded report that is not an object, so `report.get` fails (line 21);
  - `results` present but `null`, a number, a boolean, or a non-empty value that is not a list of objects, so iteration or `result.get` fails (lines 21-22). An empty object or empty string there iterates nothing and gives what `Report(Some([]))` gives;
  - `issue_confidence` or `issue_severity` present but not a string, so `.upper()` fails (lines 22-23);
  - `issue_cwe` present but `null` or not an object, so `.get('id')` fails (line 24);
  - a truthy list or object id, so `unique_cwes.add` fails (line 44).
- Strings here are `string`, a sequence of Unicode scalar values, so Python strings holding lone surrogates are not modelled. Such strings come from a JSON `"\ud800"` escape, or from a filename with undecodable bytes as `os.listdir` returns it, and they cannot be CWE ids or filenames in the model. None of them upper-cases to HIGH, MEDIUM or LOW, so the counters are unaffected.
- `ReportParser.ListOfSet`: the order of `list(unique_cwes)` comes from Python's set iteration. The method picks elements nondeterministically, so no order is claimed.
- `RepositoryAnalyzer.SortByName`: Python's `sorted` is Timsort and this is an insertion sort. Both order by the same comparison. The model proves sortedness and permutation, and does not prove stability. Names returned by `os.listdir` are distinct, and for distinct names sortedness plus permutation leaves only one possible order. A listing with repeated names is not something the source can receive.
