/**
 * The repository analyzer: the reports of one repository are visited in
 * sorted filename order and each becomes one row tagged with the repository
 * name and the commit id taken from the filename. No rows, no table.
 */
module RepositoryAnalyzer {
  import opened Wrappers
  import opened Text
  import opened ReportParser

  /** The extension removed from a report filename to get its commit id. */
  const JsonExt: string := ".json"

  /** One entry of `<repository>/bandit_reports`, with its decoded content. */
  datatype ReportFile = ReportFile(name: string, report: Report)

  /** One row of the summary table. */
  datatype Row = Row(summary: Summary, repo: string, commit: string)

  /** `report_file.replace('.json', '')` */
  function CommitHash(fileName: string): string {
    RemoveAll(fileName, JsonExt)
  }

  /** A report named `<c>.json` whose stem contains no `.json` has commit id `c`. */
  lemma {:induction false} CommitHashOfReportName(c: string)
    requires !Contains(c, JsonExt)
    ensures CommitHash(c + JsonExt) == c
  {
    var s := c + JsonExt;
    if c == [] {
      assert s == JsonExt;
      assert s[|JsonExt|..] == [];
    } else {
      JsonExtNotAtStart(c);
      assert s[1..] == c[1..] + JsonExt;
      CommitHashOfReportName(c[1..]);
    }
  }

  /** `.json` cannot start inside a non-empty stem free of `.json`: its `.` occurs only once. */
  lemma {:induction false} JsonExtNotAtStart(c: string)
    requires c != [] && !Contains(c, JsonExt)
    ensures (c + JsonExt)[..|JsonExt|] != JsonExt
  {
    var s := c + JsonExt;
    if |c| >= |JsonExt| {
      assert s[..|JsonExt|] == c[..|JsonExt|];
    } else {
      assert s[..|JsonExt|][|c|] == '.';
    }
  }

  /** Filenames appear in non-decreasing order. */
  predicate SortedByName(fs: seq<ReportFile>) {
    forall i, j :: 0 <= i < j < |fs| ==> !Less(fs[j].name, fs[i].name)
  }

  /** Places `f` before the first entry whose name is not smaller than its own. */
  function Insert(f: ReportFile, fs: seq<ReportFile>): (r: seq<ReportFile>)
    ensures multiset(r) == multiset(fs) + multiset{f}
  {
    if fs == [] || !Less(fs[0].name, f.name) then [f] + fs
    else
      assert fs == [fs[0]] + fs[1..];
      [fs[0]] + Insert(f, fs[1..])
  }

  /** `sorted(os.listdir(...))`: a stable insertion sort by filename. */
  function SortByName(fs: seq<ReportFile>): (r: seq<ReportFile>)
    ensures multiset(r) == multiset(fs)
    ensures |r| == |fs|
  {
    if fs == [] then []
    else
      assert fs == [fs[0]] + fs[1..];
      Insert(fs[0], SortByName(fs[1..]))
  }

  lemma {:induction false} InsertSorted(f: ReportFile, fs: seq<ReportFile>)
    requires SortedByName(fs)
    ensures SortedByName(Insert(f, fs))
  {
    if fs == [] {
    } else if !Less(fs[0].name, f.name) {
      forall j | 0 <= j < |fs|
        ensures !Less(fs[j].name, f.name)
      {
        if j > 0 {
          NotLessTransitive(f.name, fs[0].name, fs[j].name);
        }
      }
    } else {
      var rest := Insert(f, fs[1..]);
      InsertSorted(f, fs[1..]);
      forall j | 0 <= j < |rest|
        ensures !Less(rest[j].name, fs[0].name)
      {
        assert rest[j] in multiset(rest);
        if rest[j] == f {
          if Less(f.name, fs[0].name) {
            LessTransitive(fs[0].name, f.name, fs[0].name);
            LessIrreflexive(fs[0].name);
          }
        } else {
          assert rest[j] in multiset(fs[1..]);
          var k :| 0 <= k < |fs[1..]| && fs[1..][k] == rest[j];
          assert fs[k + 1] == rest[j];
        }
      }
    }
  }

  /** `sorted` returns the listing in filename order. */
  lemma {:induction false} SortByNameSorted(fs: seq<ReportFile>)
    ensures SortedByName(SortByName(fs))
  {
    if fs != [] {
      SortByNameSorted(fs[1..]);
      InsertSorted(fs[0], SortByName(fs[1..]));
    }
  }

  /** `rows` are the rows of `files`, one per file and in the same order. */
  ghost predicate RowsFor(repo: string, files: seq<ReportFile>, rows: seq<Row>) {
    && |rows| == |files|
    && forall i :: 0 <= i < |rows| ==>
         && rows[i].repo == repo
         && rows[i].commit == CommitHash(files[i].name)
         && Describes(rows[i].summary, Results(files[i].report))
  }

  /**
   * `analyze_repository` without the I/O: `listing` is `None` when the
   * reports directory does not exist; the result is the table written to
   * CSV, or `None` when nothing is written.
   */
  method AnalyzeRepository(repo: string, listing: Option<seq<ReportFile>>) returns (table: Option<seq<Row>>)
    ensures listing.None? ==> table.None?
    ensures listing.Some? ==> (table.Some? <==> |listing.value| > 0)
    ensures table.Some? ==> listing.Some? && RowsFor(repo, SortByName(listing.value), table.value)
  {
    if listing.None? {
      return None;
    }

    var analysisResults: seq<Row> := [];
    var files := SortByName(listing.value);
    for i := 0 to |files|
      invariant RowsFor(repo, files[..i], analysisResults)
    {
      var reportData := ParseBanditReport(files[i].report);
      var commitHash := CommitHash(files[i].name);
      analysisResults := analysisResults + [Row(reportData, repo, commitHash)];
    }
    assert files[..|files|] == files;

    if |analysisResults| == 0 {
      return None;
    }
    return Some(analysisResults);
  }

  /** Every file of the listing has its row in the table. */
  lemma {:induction false} EveryFileHasARow(repo: string, listing: seq<ReportFile>, rows: seq<Row>, f: ReportFile)
    requires RowsFor(repo, SortByName(listing), rows)
    requires f in listing
    ensures exists i :: 0 <= i < |rows| && rows[i].commit == CommitHash(f.name)
                        && Describes(rows[i].summary, Results(f.report))
  {
    var files := SortByName(listing);
    assert f in multiset(listing);
    assert f in files;
    var i :| 0 <= i < |files| && files[i] == f;
    assert rows[i].commit == CommitHash(f.name);
  }

  /** A filename `<c>.json` whose stem only has characters after `.` in code-point order (hexadecimal digits do). */
  predicate IsReportName(name: string) {
    && |name| >= |JsonExt|
    && name[|name| - |JsonExt|..] == JsonExt
    && forall k :: 0 <= k < |name| - |JsonExt| ==> '.' < name[k]
  }

  lemma {:induction false} NoDotNoJson(c: string)
    requires forall k :: 0 <= k < |c| ==> '.' < c[k]
    ensures !Contains(c, JsonExt)
  {
    if |c| >= |JsonExt| {
      assert c[..|JsonExt|][0] != '.';
      NoDotNoJson(c[1..]);
    }
  }

  /** Appending `.json` to stems of such characters keeps their order. */
  lemma {:induction false} LessWithJsonExt(a: string, b: string)
    requires forall k :: 0 <= k < |a| ==> '.' < a[k]
    requires forall k :: 0 <= k < |b| ==> '.' < b[k]
    ensures Less(a + JsonExt, b + JsonExt) <==> Less(a, b)
  {
    if a == [] && b == [] {
      assert a + JsonExt == JsonExt;
      LessIrreflexive(JsonExt);
    } else if a != [] && b != [] {
      assert (a + JsonExt)[1..] == a[1..] + JsonExt;
      assert (b + JsonExt)[1..] == b[1..] + JsonExt;
      if a[0] == b[0] {
        LessWithJsonExt(a[1..], b[1..]);
      }
    }
  }

  /** The commit id of `<c>.json` is `c` when `c` only has characters after `.`. */
  lemma {:induction false} CommitHashOfStem(c: string)
    requires forall k :: 0 <= k < |c| ==> '.' < c[k]
    ensures CommitHash(c + JsonExt) == c
  {
    NoDotNoJson(c);
    CommitHashOfReportName(c);
  }

  lemma {:induction false} ReportNameStem(name: string)
    requires IsReportName(name)
    ensures name == name[..|name| - |JsonExt|] + JsonExt
    ensures CommitHash(name) == name[..|name| - |JsonExt|]
  {
    var c := name[..|name| - |JsonExt|];
    assert name == c + JsonExt;
    CommitHashOfStem(c);
  }

  /**
   * When every report is named `<c>.json` with such a stem, the rows come
   * out in commit-id order as well as in filename order.
   */
  lemma {:induction false} RowsInCommitOrder(repo: string, listing: seq<ReportFile>, rows: seq<Row>)
    requires forall i :: 0 <= i < |listing| ==> IsReportName(listing[i].name)
    requires RowsFor(repo, SortByName(listing), rows)
    ensures forall i, j :: 0 <= i < j < |rows| ==> !Less(rows[j].commit, rows[i].commit)
  {
    var files := SortByName(listing);
    SortByNameSorted(listing);
    forall i, j | 0 <= i < j < |rows|
      ensures !Less(rows[j].commit, rows[i].commit)
    {
      var a, b := files[i].name, files[j].name;
      assert IsReportName(a) by {
        assert files[i] in multiset(listing);
        var k :| 0 <= k < |listing| && listing[k] == files[i];
      }
      assert IsReportName(b) by {
        assert files[j] in multiset(listing);
        var k :| 0 <= k < |listing| && listing[k] == files[j];
      }
      ReportNameStem(a);
      ReportNameStem(b);
      LessWithJsonExt(b[..|b| - |JsonExt|], a[..|a| - |JsonExt|]);
    }
  }

  /** `replace` removes `.json` wherever it occurs, not only as a suffix. */
  lemma {:induction false} CommitHashIsNotSuffixStrip()
    ensures CommitHash("x.json.bak") == "x.bak"
    ensures CommitHash("x.json.json") == "x"
  {
  }

  /** One issue rated HIGH confidence and LOW severity, with CWE id 79. */
  const ExampleReport := Report(Some([Issue(Some("HIGH"), Some("LOW"), Some(Cwe(Some(Int(79)))))]))

  /** The summary of that report. */
  lemma {:induction false} ExampleSummary(s: Summary)
    requires Describes(s, Results(ExampleReport))
    ensures s == Summary(1, 0, 0, 0, 0, 1, [Int(79)], 1)
  {
  }

  /** `aaa111.json` sorts before `bbb222.json`. */
  lemma {:induction false} ExampleOrder()
    ensures SortByName([ReportFile("bbb222.json", ExampleReport), ReportFile("aaa111.json", ExampleReport)])
         == [ReportFile("aaa111.json", ExampleReport), ReportFile("bbb222.json", ExampleReport)]
  {
  }

  lemma {:induction false} ExampleCommits()
    ensures CommitHash("aaa111.json") == "aaa111" && CommitHash("bbb222.json") == "bbb222"
  {
    CommitHashOfStem("aaa111");
    assert "aaa111" + JsonExt == "aaa111.json";
    CommitHashOfStem("bbb222");
    assert "bbb222" + JsonExt == "bbb222.json";
  }

  /**
   * Two reports `bbb222.json` and `aaa111.json`, each holding that one issue,
   * give two rows, `aaa111` first, each with one HIGH confidence, one LOW
   * severity and the single CWE id 79.
   */
  lemma {:induction false} TwoReportsExample(rows: seq<Row>)
    requires RowsFor("repo", SortByName([ReportFile("bbb222.json", ExampleReport), ReportFile("aaa111.json", ExampleReport)]), rows)
    ensures |rows| == 2
    ensures rows[0] == Row(Summary(1, 0, 0, 0, 0, 1, [Int(79)], 1), "repo", "aaa111")
    ensures rows[1] == Row(Summary(1, 0, 0, 0, 0, 1, [Int(79)], 1), "repo", "bbb222")
  {
    ExampleOrder();
    ExampleCommits();
    ExampleSummary(rows[0].summary);
    ExampleSummary(rows[1].summary);
  }
}
