/**
 * The Bandit report parser: one decoded report is folded into six counters
 * (confidence and severity, each HIGH, MEDIUM or LOW) and the set of distinct
 * weakness identifiers (CWE ids) found in it.
 */
module ReportParser {
  import opened Wrappers
  import opened Text

  /** A value found under `issue_cwe.id`. */
  datatype CweId = Null | Int(n: int) | Str(s: string)

  /** Python truthiness of an id: `None`, `0` and `''` are false. */
  predicate Truthy(id: CweId) {
    match id
    case Null => false
    case Int(n) => n != 0
    case Str(s) => s != ""
  }

  /** The `issue_cwe` object; its `id` key may be missing. */
  datatype Cwe = Cwe(id: Option<CweId>)

  /** One element of a report's `results` list; `None` is a missing key. */
  datatype Issue = Issue(confidence: Option<string>, severity: Option<string>, cwe: Option<Cwe>)

  /** A decoded report; `results` may be missing. */
  datatype Report = Report(results: Option<seq<Issue>>)

  /** What the parser returns for one report. */
  datatype Summary = Summary(
    highConf: nat, medConf: nat, lowConf: nat,
    highSev: nat, medSev: nat, lowSev: nat,
    uniqueCwes: seq<CweId>, totalUniqueCwes: nat)

  /** The two independent ratings an issue carries. */
  datatype Rating = Confidence | Severity

  /** The bucket a rating falls into. */
  datatype Level = High | Medium | Low | Unrecognised

  /** `report.get('results', [])` */
  function Results(report: Report): seq<Issue> {
    report.results.GetOr([])
  }

  /** `result.get('issue_confidence', '')` or `result.get('issue_severity', '')` */
  function RatingOf(issue: Issue, rating: Rating): string {
    match rating
    case Confidence => issue.confidence.GetOr("")
    case Severity => issue.severity.GetOr("")
  }

  /** The counter an issue raises for `rating`, after upper-casing. */
  function LevelOf(issue: Issue, rating: Rating): Level {
    var u := Upper(RatingOf(issue, rating));
    if u == "HIGH" then High
    else if u == "MEDIUM" then Medium
    else if u == "LOW" then Low
    else Unrecognised
  }

  /** `result.get('issue_cwe', {}).get('id')` */
  function CweIdOf(issue: Issue): CweId {
    match issue.cwe
    case None => Null
    case Some(c) => c.id.GetOr(Null)
  }

  /** How many of `rs` fall into bucket `level` of `rating`. */
  function Count(rs: seq<Issue>, rating: Rating, level: Level): (c: nat)
    ensures c <= |rs|
  {
    if rs == [] then 0
    else Count(rs[..|rs| - 1], rating, level) + (if LevelOf(rs[|rs| - 1], rating) == level then 1 else 0)
  }

  /** How many of `rs` carry a `rating` that upper-cases to a recognised name. */
  function Recognised(rs: seq<Issue>, rating: Rating): (c: nat)
    ensures c <= |rs|
  {
    if rs == [] then 0
    else Recognised(rs[1..], rating) + (if Upper(RatingOf(rs[0], rating)) in {"HIGH", "MEDIUM", "LOW"} then 1 else 0)
  }

  /** The truthy CWE ids among `rs`. */
  function CweSet(rs: seq<Issue>): (ids: set<CweId>)
    ensures |ids| <= |rs|
    ensures forall id :: id in ids ==> Truthy(id)
  {
    if rs == [] then {}
    else
      var id := CweIdOf(rs[|rs| - 1]);
      CweSet(rs[..|rs| - 1]) + (if Truthy(id) then {id} else {})
  }

  predicate Distinct<T(==)>(xs: seq<T>) {
    forall i, j :: 0 <= i < j < |xs| ==> xs[i] != xs[j]
  }

  /** `s` is what the parser returns for the results `rs`. */
  ghost predicate Describes(s: Summary, rs: seq<Issue>) {
    && s.highConf == Count(rs, Confidence, High)
    && s.medConf == Count(rs, Confidence, Medium)
    && s.lowConf == Count(rs, Confidence, Low)
    && s.highSev == Count(rs, Severity, High)
    && s.medSev == Count(rs, Severity, Medium)
    && s.lowSev == Count(rs, Severity, Low)
    && Distinct(s.uniqueCwes)
    && (forall id :: id in s.uniqueCwes <==> id in CweSet(rs))
    && |s.uniqueCwes| == s.totalUniqueCwes == |CweSet(rs)|
  }

  /** `list(unique_cwes)`: the members of `s` once each, in an unspecified order. */
  method ListOfSet<T(==)>(s: set<T>) returns (xs: seq<T>)
    ensures Distinct(xs)
    ensures forall x :: x in xs <==> x in s
    ensures |xs| == |s|
  {
    xs := [];
    var rest := s;
    while rest != {}
      invariant rest <= s
      invariant Distinct(xs)
      invariant forall x :: x in xs <==> x in s && x !in rest
      invariant |xs| + |rest| == |s|
      decreases |rest|
    {
      var x :| x in rest;
      xs := xs + [x];
      rest := rest - {x};
    }
  }

  /** `parse_bandit_report` after the file has been read and decoded. */
  method ParseBanditReport(report: Report) returns (s: Summary)
    ensures Describes(s, Results(report))
  {
    var results := Results(report);
    var highConf, medConf, lowConf := 0, 0, 0;
    var highSev, medSev, lowSev := 0, 0, 0;
    var uniqueCwes: set<CweId> := {};

    for i := 0 to |results|
      invariant highConf == Count(results[..i], Confidence, High)
      invariant medConf == Count(results[..i], Confidence, Medium)
      invariant lowConf == Count(results[..i], Confidence, Low)
      invariant highSev == Count(results[..i], Severity, High)
      invariant medSev == Count(results[..i], Severity, Medium)
      invariant lowSev == Count(results[..i], Severity, Low)
      invariant uniqueCwes == CweSet(results[..i])
    {
      var result := results[i];
      CountStep(results, i, Confidence, High);
      CountStep(results, i, Confidence, Medium);
      CountStep(results, i, Confidence, Low);
      CountStep(results, i, Severity, High);
      CountStep(results, i, Severity, Medium);
      CountStep(results, i, Severity, Low);
      CweSetStep(results, i);
      var confidence := Upper(RatingOf(result, Confidence));
      var severity := Upper(RatingOf(result, Severity));
      var cweId := CweIdOf(result);

      if confidence == "HIGH" {
        highConf := highConf + 1;
      } else if confidence == "MEDIUM" {
        medConf := medConf + 1;
      } else if confidence == "LOW" {
        lowConf := lowConf + 1;
      }

      if severity == "HIGH" {
        highSev := highSev + 1;
      } else if severity == "MEDIUM" {
        medSev := medSev + 1;
      } else if severity == "LOW" {
        lowSev := lowSev + 1;
      }

      if Truthy(cweId) {
        uniqueCwes := uniqueCwes + {cweId};
      }
    }
    assert results[..|results|] == results;

    var cweList := ListOfSet(uniqueCwes);
    s := Summary(highConf, medConf, lowConf, highSev, medSev, lowSev, cweList, |uniqueCwes|);
  }

  /** What the `i`-th issue adds to one counter. */
  lemma {:induction false} CountStep(rs: seq<Issue>, i: nat, rating: Rating, level: Level)
    requires i < |rs|
    ensures Count(rs[..i + 1], rating, level)
      == Count(rs[..i], rating, level) + (if LevelOf(rs[i], rating) == level then 1 else 0)
  {
    assert rs[..i + 1][..i] == rs[..i];
  }

  /** What the `i`-th issue adds to the CWE set. */
  lemma {:induction false} CweSetStep(rs: seq<Issue>, i: nat)
    requires i < |rs|
    ensures CweSet(rs[..i + 1])
      == CweSet(rs[..i]) + (if Truthy(CweIdOf(rs[i])) then {CweIdOf(rs[i])} else {})
  {
    assert rs[..i + 1][..i] == rs[..i];
  }

  /** An absent or empty `results` list gives zero everywhere. */
  lemma {:induction false} EmptyReportSummary(report: Report, s: Summary)
    requires report.results == None || report.results == Some([])
    requires Describes(s, Results(report))
    ensures s.highConf == s.medConf == s.lowConf == 0
    ensures s.highSev == s.medSev == s.lowSev == 0
    ensures s.uniqueCwes == [] && s.totalUniqueCwes == 0
  {
  }

  /**
   * Each issue raises at most one counter per rating: the three buckets add up
   * to the number of issues whose upper-cased rating is HIGH, MEDIUM or LOW.
   */
  lemma {:induction false} BucketsSumToRecognised(rs: seq<Issue>, rating: Rating)
    ensures Count(rs, rating, High) + Count(rs, rating, Medium) + Count(rs, rating, Low)
         == Recognised(rs, rating)
  {
    if rs != [] {
      var init, last := rs[..|rs| - 1], rs[|rs| - 1];
      BucketsSumToRecognised(init, rating);
      RecognisedSnoc(init, last, rating);
      assert rs == init + [last];
    }
  }

  /** `Recognised` counted from the other end. */
  lemma {:induction false} RecognisedSnoc(rs: seq<Issue>, issue: Issue, rating: Rating)
    ensures Recognised(rs + [issue], rating)
         == Recognised(rs, rating) + (if Upper(RatingOf(issue, rating)) in {"HIGH", "MEDIUM", "LOW"} then 1 else 0)
  {
    if rs != [] {
      RecognisedSnoc(rs[1..], issue, rating);
      assert (rs + [issue])[1..] == rs[1..] + [issue];
    }
  }

  /**
   * A counter depends only on the upper-cased value of its own rating: the
   * other rating, the CWE and the letter case make no difference.
   */
  lemma {:induction false} CountDependsOnUpperRating(rs: seq<Issue>, rs': seq<Issue>, rating: Rating, level: Level)
    requires |rs| == |rs'|
    requires forall i :: 0 <= i < |rs| ==> Upper(RatingOf(rs[i], rating)) == Upper(RatingOf(rs'[i], rating))
    ensures Count(rs, rating, level) == Count(rs', rating, level)
  {
    if rs != [] {
      CountDependsOnUpperRating(rs[..|rs| - 1], rs'[..|rs| - 1], rating, level);
    }
  }

  /** Severity is counted independently of confidence. */
  lemma {:induction false} SeverityIgnoresConfidence(rs: seq<Issue>, confidences: seq<Option<string>>, level: Level)
    requires |confidences| == |rs|
    ensures Count(rs, Severity, level)
         == Count(seq(|rs|, i requires 0 <= i < |rs| => rs[i].(confidence := confidences[i])), Severity, level)
  {
    CountDependsOnUpperRating(rs, seq(|rs|, i requires 0 <= i < |rs| => rs[i].(confidence := confidences[i])), Severity, level);
  }

  /** A confidence written in lower case counts as the upper-case one does. */
  lemma {:induction false} ConfidenceIgnoresCase(rs: seq<Issue>, i: nat, c: string, level: Level)
    requires i < |rs|
    ensures Count(rs[i := rs[i].(confidence := Some(c))], Confidence, level)
         == Count(rs[i := rs[i].(confidence := Some(Upper(c)))], Confidence, level)
  {
    UpperIdempotent(c);
    CountDependsOnUpperRating(rs[i := rs[i].(confidence := Some(c))],
                              rs[i := rs[i].(confidence := Some(Upper(c)))], Confidence, level);
  }

  /**
   * The distinct CWE ids are exactly the truthy `issue_cwe.id` values: an
   * issue without `issue_cwe`, without `id` or with a falsy id adds nothing.
   */
  lemma {:induction false} CweSetMembers(rs: seq<Issue>, id: CweId)
    ensures id in CweSet(rs) <==> Truthy(id) && exists i :: 0 <= i < |rs| && CweIdOf(rs[i]) == id
  {
    if rs != [] {
      var init := rs[..|rs| - 1];
      CweSetMembers(init, id);
      if exists i :: 0 <= i < |init| && CweIdOf(init[i]) == id {
        var i :| 0 <= i < |init| && CweIdOf(init[i]) == id;
        assert CweIdOf(rs[i]) == id;
      }
      if exists i :: 0 <= i < |rs| && CweIdOf(rs[i]) == id {
        var i :| 0 <= i < |rs| && CweIdOf(rs[i]) == id;
        if i < |init| {
          assert CweIdOf(init[i]) == id;
        }
      }
    }
  }

  /** The counters and the CWE count never exceed the number of issues. */
  lemma {:induction false} SummaryBounds(s: Summary, rs: seq<Issue>)
    requires Describes(s, rs)
    ensures s.highConf + s.medConf + s.lowConf <= |rs|
    ensures s.highSev + s.medSev + s.lowSev <= |rs|
    ensures s.totalUniqueCwes <= |rs|
  {
    BucketsSumToRecognised(rs, Confidence);
    BucketsSumToRecognised(rs, Severity);
  }
}
