/**
 * The test-coverage scanner: SimpleCov's line coverage of each application
 * file gives one finding per poorly covered file and one overall
 * coverage row; the findings replace the app's previous coverage findings
 * and are summarised with the overall coverage.
 */
module TestCoverageScanner {
  import opened Wrappers
  import Text
  import Numeric
  import Sorting
  import opened QualityScanModel
  import MetricSummaryModel
  import AppModel

  /**
   * One file of the resultset; `lines` is absent when its coverage is not
   * an array (then `compact` raises), and a line is nil when it is not
   * relevant.
   */
  datatype FileCoverage = FileCoverage(path: string, lines: Option<seq<Option<int>>>)

  /** One suite's entry; `coverage` is absent when the key is missing (then `each` raises). */
  datatype TestData = TestData(coverage: Option<seq<FileCoverage>>)

  /** The decoded resultset: its suites in order; only the first is read. */
  datatype Resultset = Resultset(suites: seq<TestData>)

  /** `file_path.include?("test/")`: test files are skipped. */
  predicate IsTestPath(path: string) {
    Text.Contains(path, "test/")
  }

  /** A line counted by `compact`. */
  predicate Relevant(l: Option<int>) {
    l.Some?
  }

  /** A line counted by `l && l > 0`. */
  predicate Hit(l: Option<int>) {
    l.Some? && l.value > 0
  }

  /** A file's covered lines never outnumber its relevant lines. */
  lemma HitsAtMostRelevant(lines: seq<Option<int>>)
    ensures Sorting.Count(lines, Hit) <= Sorting.Count(lines, Relevant)
  {
    Sorting.CountMonotone(lines, Hit, Relevant);
  }

  /** A percentage kept as hundredths, `h / 100`. */
  function Percent(h: nat): real {
    h as real / 100.0
  }

  /** `(covered.to_f / total * 100).round(2)`, in hundredths. */
  function CoverageHundredths(covered: nat, total: nat): (h: nat)
    requires total > 0
    ensures (2 * h - 1) * total <= 20000 * covered < (2 * h + 1) * total
    ensures covered <= total ==> h <= 10000
  {
    FullCoverageBound(covered, total);
    Numeric.Hundredths(covered, total)
  }

  /** At most all lines covered is at most 100%. */
  lemma FullCoverageBound(covered: nat, total: nat)
    requires total > 0
    ensures covered <= total ==> Numeric.Hundredths(covered, total) <= 10000
  {
    var h := Numeric.Hundredths(covered, total);
    if covered <= total {
      assert (2 * h - 1) * total <= 20000 * total by {
        Numeric.MulLeMonotone(covered, total, 20000);
      }
      Numeric.MulLessCancel(2 * h - 1, 20001, total);
    }
  }

  /** Ruby's `to_s` of a Float with two decimals: `66.67`, `66.7`, `50.0`. */
  function PercentText(h: nat): string {
    Text.DecimalToString(h / 100, h % 100, 2)
  }

  /** Ruby prints these rounded percents without trailing zeros, keeping one digit. */
  lemma PercentTextExamples()
    ensures PercentText(6667) == "66.67"
    ensures PercentText(6670) == "66.7"
    ensures PercentText(5000) == "50.0"
  {
    assert Text.NatToString(66) == "66" && Text.NatToString(50) == "50";
  }

  /** The finding for a file below 80%: high below 50%, medium otherwise. */
  function LowCoverageResult(path: string, h: nat): (r: QualityScan)
    requires h < 8000
    ensures r.scanType == "test_coverage" && r.filePath == Some(path) && r.lineNumber.None?
    ensures r.severity == Some("high") <==> Percent(h) < 50.0
    ensures r.severity == Some("medium") <==> Percent(h) >= 50.0
    ensures r.message == Some("Low test coverage: " + PercentText(h) + "%")
    ensures r.metricValue == Some(Percent(h)) && Percent(h) < 80.0
    ensures Valid(r)
  {
    QualityScan("test_coverage", Some(if h < 5000 then "high" else "medium"),
                Some("Low test coverage: " + PercentText(h) + "%"), Some(path), None, Some(Percent(h)))
  }

  /** The progress of the loop over the files: findings so far, both totals, and whether it raised. */
  datatype Tally = Tally(findings: seq<QualityScan>, total: nat, covered: nat, raised: bool)

  /** A file's finding: one when it has relevant lines and is below 80%, none otherwise. */
  function FileFinding(path: string, lines: seq<Option<int>>): (r: seq<QualityScan>)
    ensures |r| <= 1
    ensures |r| == 1 <==> (Sorting.Count(lines, Relevant) > 0
      && Percent(CoverageHundredths(Sorting.Count(lines, Hit), Sorting.Count(lines, Relevant))) < 80.0)
    ensures |r| == 1 ==>
      r[0] == LowCoverageResult(path, CoverageHundredths(Sorting.Count(lines, Hit), Sorting.Count(lines, Relevant)))
  {
    var fileTotal := Sorting.Count(lines, Relevant);
    if fileTotal > 0 && CoverageHundredths(Sorting.Count(lines, Hit), fileTotal) < 8000
    then [LowCoverageResult(path, CoverageHundredths(Sorting.Count(lines, Hit), fileTotal))]
    else []
  }

  /**
   * One file: nothing once the loop has raised or for a test file; a raise
   * for coverage that is not an array; otherwise its counts are added and
   * its finding, if any, appended.
   */
  function Step(t: Tally, f: FileCoverage): (r: Tally)
    ensures t.raised || IsTestPath(f.path) ==> r == t
    ensures !t.raised && !IsTestPath(f.path) && f.lines.None? ==> r == t.(raised := true)
    ensures !t.raised && !IsTestPath(f.path) && f.lines.Some? ==>
      && !r.raised
      && r.total == t.total + Sorting.Count(f.lines.value, Relevant)
      && r.covered == t.covered + Sorting.Count(f.lines.value, Hit)
      && r.findings == t.findings + FileFinding(f.path, f.lines.value)
  {
    if t.raised || IsTestPath(f.path) then t
    else if f.lines.None? then t.(raised := true)
    else
      Tally(t.findings + FileFinding(f.path, f.lines.value), t.total + Sorting.Count(f.lines.value, Relevant),
            t.covered + Sorting.Count(f.lines.value, Hit), false)
  }

  /** The tally after the files, one at a time. */
  function TallyFiles(files: seq<FileCoverage>): Tally {
    if files == [] then Tally([], 0, 0, false)
    else Step(TallyFiles(files[..|files| - 1]), files[|files| - 1])
  }

  lemma TallyPrefix(files: seq<FileCoverage>, i: int)
    requires 0 <= i < |files|
    ensures TallyFiles(files[..i + 1]) == Step(TallyFiles(files[..i]), files[i])
  {
    assert files[..i + 1][..i] == files[..i];
  }

  /** Once the loop has raised, the later files change nothing. */
  lemma {:induction false} RaisedStays(files: seq<FileCoverage>, n: int)
    requires 0 <= n <= |files| && TallyFiles(files[..n]).raised
    ensures TallyFiles(files) == TallyFiles(files[..n])
    decreases |files|
  {
    if n < |files| {
      var init := files[..|files| - 1];
      assert init[..n] == files[..n];
      RaisedStays(init, n);
    } else {
      assert files[..n] == files;
    }
  }

  /** A test file, wherever it stands, adds to neither total nor to the findings. */
  lemma TestFileIgnored(files: seq<FileCoverage>, f: FileCoverage)
    requires IsTestPath(f.path)
    ensures TallyFiles(files + [f]) == TallyFiles(files)
  {
    assert (files + [f])[..|files|] == files;
  }

  /**
   * The totals never have more covered than relevant lines, and every
   * finding is a valid test-coverage finding below 80%, high exactly below
   * 50%, never an info row.
   */
  lemma {:induction false} TallyFacts(files: seq<FileCoverage>)
    ensures TallyFiles(files).covered <= TallyFiles(files).total
    ensures forall k :: 0 <= k < |TallyFiles(files).findings| ==>
      var r := TallyFiles(files).findings[k];
      && r.scanType == "test_coverage" && Valid(r) && r.severity.Some? && r.severity != Some("info")
      && r.metricValue.Some? && r.metricValue.value < 80.0
      && (r.severity == Some("high") <==> r.metricValue.value < 50.0)
    decreases |files|
  {
    if files != [] {
      var init := files[..|files| - 1];
      var f := files[|files| - 1];
      TallyFacts(init);
      var t := TallyFiles(init);
      if !t.raised && !IsTestPath(f.path) && f.lines.Some? {
        HitsAtMostRelevant(f.lines.value);
        var r := TallyFiles(files);
        var more := FileFinding(f.path, f.lines.value);
        forall k | |t.findings| <= k < |r.findings|
          ensures r.findings[k] == more[0]
        {
        }
      }
    }
  }

  /** The overall coverage: covered over relevant lines in hundredths, or the Integer 0 when nothing is relevant. */
  function OverallResult(total: nat, covered: nat): (r: QualityScan)
    ensures r.scanType == "test_coverage" && r.severity == Some("info") && r.filePath.None? && r.lineNumber.None?
    ensures total > 0 ==> r.metricValue == Some(Percent(CoverageHundredths(covered, total)))
    ensures total > 0 ==> r.message == Some("Overall test coverage: " + PercentText(CoverageHundredths(covered, total)) + "%")
    ensures total == 0 ==> r.metricValue == Some(0.0) && r.message == Some("Overall test coverage: 0%")
    ensures Valid(r)
  {
    if total > 0 then
      var h := CoverageHundredths(covered, total);
      QualityScan("test_coverage", Some("info"), Some("Overall test coverage: " + PercentText(h) + "%"), None, None,
                  Some(Percent(h)))
    else
      QualityScan("test_coverage", Some("info"), Some("Overall test coverage: 0%"), None, None, Some(0.0))
  }

  /** The files of the first suite, when there is one with a coverage entry. */
  function FirstCoverage(data: Resultset): (files: Option<seq<FileCoverage>>)
    ensures files.Some? <==> |data.suites| > 0 && data.suites[0].coverage.Some?
    ensures files.Some? ==> files.value == data.suites[0].coverage.value
  {
    if |data.suites| > 0 then data.suites[0].coverage else None
  }

  /**
   * What `parse_coverage_results` appends: nothing without a first suite or
   * its coverage; otherwise the flagged files, then one overall row unless
   * a file's coverage raised first.
   */
  function CoverageResults(data: Resultset): (r: seq<QualityScan>)
    ensures FirstCoverage(data).None? ==> r == []
    ensures FirstCoverage(data).Some? ==> var t := TallyFiles(FirstCoverage(data).value);
      r == t.findings + (if t.raised then [] else [OverallResult(t.total, t.covered)])
  {
    match FirstCoverage(data)
    case None => []
    case Some(files) =>
      var t := TallyFiles(files);
      if t.raised then t.findings else t.findings + [OverallResult(t.total, t.covered)]
  }

  /** When nothing raised, exactly one info row is produced, last, and its coverage is at most 100%. */
  lemma OneOverallRowLast(data: Resultset)
    requires FirstCoverage(data).Some? && !TallyFiles(FirstCoverage(data).value).raised
    ensures var r := CoverageResults(data);
      && |r| > 0 && r[|r| - 1].severity == Some("info")
      && (forall k :: 0 <= k < |r| - 1 ==> r[k].severity != Some("info"))
      && r[|r| - 1].metricValue.Some? && 0.0 <= r[|r| - 1].metricValue.value <= 100.0
  {
    var files := FirstCoverage(data).value;
    TallyFacts(files);
    var t := TallyFiles(files);
    if t.total > 0 {
      var h := CoverageHundredths(t.covered, t.total);
      assert h <= 10000;
    }
  }

  /** Every finding the resultset gives is a valid test-coverage finding, so `create!` accepts them all. */
  lemma CoverageResultsValid(data: Resultset)
    ensures forall k :: 0 <= k < |CoverageResults(data)| ==>
      CoverageResults(data)[k].scanType == "test_coverage" && Valid(CoverageResults(data)[k])
  {
    if FirstCoverage(data).Some? {
      TallyFacts(FirstCoverage(data).value);
    }
  }

  predicate NotInfo(s: QualityScan) {
    s.severity.Some? && s.severity.value != "info"
  }

  /** `find_by(severity: "info")`: the first info row in store order. */
  function FirstInfo(scans: seq<QualityScan>): (r: Option<QualityScan>)
    ensures r.Some? ==> r.value in scans && r.value.severity == Some("info")
    ensures r.None? ==> forall k :: 0 <= k < |scans| ==> scans[k].severity != Some("info")
  {
    if scans == [] then None
    else if scans[0].severity == Some("info") then Some(scans[0])
    else FirstInfo(scans[1..])
  }

  /**
   * The summary `create_summary` saves: the issues exclude info rows (and,
   * as SQL's `<>` does, rows without a severity); high counts only high;
   * the average and the metadata take the overall row's metric.
   */
  function CoverageSummary(prior: MetricSummaryModel.MetricSummary, scans: seq<QualityScan>, now: int)
    : (s: MetricSummaryModel.MetricSummary)
    ensures s.totalIssues == Sorting.Count(scans, NotInfo)
    ensures s.highSeverity == |BySeverity(scans, Some("high"))|
    ensures s.mediumSeverity == |BySeverity(scans, Some("medium"))| && s.lowSeverity == |BySeverity(scans, Some("low"))|
    ensures FirstInfo(scans).None? ==> s.averageScore == Some(0.0) && s.overallCoverage.None?
    ensures FirstInfo(scans).Some? ==> s.overallCoverage == FirstInfo(scans).value.metricValue
    ensures FirstInfo(scans).Some? ==> s.averageScore == Some(FirstInfo(scans).value.metricValue.GetOr(0.0))
    ensures s.scanType == prior.scanType && s.scannedAt == now
  {
    var overall := FirstInfo(scans);
    var metric := if overall.Some? then overall.value.metricValue else None;
    prior.(totalIssues := Sorting.Count(scans, NotInfo), highSeverity := |BySeverity(scans, Some("high"))|,
           mediumSeverity := |BySeverity(scans, Some("medium"))|, lowSeverity := |BySeverity(scans, Some("low"))|,
           averageScore := Some(metric.GetOr(0.0)), scannedAt := now, overallCoverage := metric)
  }

  /** Counting the findings of a tally: every one is an issue, none is an info row. */
  lemma {:induction false} FindingsAllIssues(findings: seq<QualityScan>)
    requires forall k :: 0 <= k < |findings| ==> findings[k].severity.Some? && findings[k].severity != Some("info")
    ensures Sorting.Count(findings, NotInfo) == |findings| && FirstInfo(findings).None?
    decreases |findings|
  {
    if findings != [] {
      FindingsAllIssues(findings[1..]);
    }
  }

  /**
   * Summarised right after a scan that did not raise, the issues are the
   * flagged files and the average is the overall coverage.
   */
  lemma SummaryOfScan(data: Resultset, prior: MetricSummaryModel.MetricSummary, now: int)
    requires FirstCoverage(data).Some? && !TallyFiles(FirstCoverage(data).value).raised
    ensures var t := TallyFiles(FirstCoverage(data).value);
      var s := CoverageSummary(prior, CoverageResults(data), now);
      && s.totalIssues == |t.findings|
      && s.averageScore == OverallResult(t.total, t.covered).metricValue
      && s.overallCoverage == OverallResult(t.total, t.covered).metricValue
  {
    var t := TallyFiles(FirstCoverage(data).value);
    TallyFacts(FirstCoverage(data).value);
    var overall := OverallResult(t.total, t.covered);
    FindingsAllIssues(t.findings);
    Sorting.CountAppend(t.findings, [overall], NotInfo);
    FirstInfoAfter(t.findings, overall);
  }

  lemma {:induction false} FirstInfoAfter(findings: seq<QualityScan>, overall: QualityScan)
    requires FirstInfo(findings).None? && overall.severity == Some("info")
    ensures FirstInfo(findings + [overall]) == Some(overall)
    decreases |findings|
  {
    if findings != [] {
      assert (findings + [overall])[1..] == findings[1..] + [overall];
      FirstInfoAfter(findings[1..], overall);
    }
  }

  class Scanner {
    var results: seq<QualityScan>

    constructor ()
      ensures results == []
    {
      results := [];
    }

    /**
     * `parse_coverage_results`: the loop over the first suite's files,
     * adding up the totals; a file whose coverage is not an array leaves
     * the loop, as the exception the rescue swallows does, without the
     * overall row.
     */
    method ParseCoverageResults(data: Resultset)
      modifies this
      ensures results == old(results) + CoverageResults(data)
    {
      if |data.suites| == 0 || data.suites[0].coverage.None? {
        return;
      }
      var files := data.suites[0].coverage.value;
      var totalLines, coveredLines := 0, 0;
      var i := 0;
      while i < |files|
        invariant 0 <= i <= |files|
        invariant !TallyFiles(files[..i]).raised
        invariant results == old(results) + TallyFiles(files[..i]).findings
        invariant totalLines == TallyFiles(files[..i]).total && coveredLines == TallyFiles(files[..i]).covered
      {
        var f := files[i];
        TallyPrefix(files, i);
        ghost var before := results;
        if !IsTestPath(f.path) {
          if f.lines.None? {
            RaisedStays(files, i + 1);
            return;
          }
          var lines := f.lines.value;
          var fileTotal := Sorting.Count(lines, Relevant);
          var fileCovered := Sorting.Count(lines, Hit);
          totalLines := totalLines + fileTotal;
          coveredLines := coveredLines + fileCovered;
          if fileTotal > 0 {
            var pct := CoverageHundredths(fileCovered, fileTotal);
            if pct < 8000 {
              results := results + [LowCoverageResult(f.path, pct)];
            }
          }
          assert results == before + FileFinding(f.path, lines);
          Sorting.AppendAssoc(old(results), TallyFiles(files[..i]).findings, FileFinding(f.path, lines));
        }
        i := i + 1;
      }
      assert files[..i] == files;
      results := results + [OverallResult(totalLines, coveredLines)];
    }

    /**
     * `scan`: nothing for an app whose directory is missing; otherwise the
     * resultset's findings (none when no readable resultset exists, even
     * after running the suite) replace the app's coverage findings, and the
     * summary is saved.
     */
    method Scan(app: AppModel.App, appExists: bool, resultset: Option<Resultset>, now: int)
      requires results == []
      modifies this, app
      ensures !appExists ==>
        results == [] && app.qualityScans == old(app.qualityScans) && app.metricSummaries == old(app.metricSummaries)
      ensures appExists ==> results == (if resultset.Some? then CoverageResults(resultset.value) else [])
      ensures appExists ==> app.qualityScans == AppModel.WithoutType(old(app.qualityScans), "test_coverage") + results
      ensures appExists ==> app.metricSummaries == AppModel.Upsert(old(app.metricSummaries),
        CoverageSummary(AppModel.FindOrInitialize(old(app.metricSummaries), "test_coverage"), results, now))
      ensures app.status == old(app.status) && app.lastScannedAt == old(app.lastScannedAt)
    {
      if !appExists {
        return;
      }
      if resultset.Some? {
        ParseCoverageResults(resultset.value);
        assert results == [] + CoverageResults(resultset.value);
      }
      CoverageResultsValid(if resultset.Some? then resultset.value else Resultset([]));
      app.ReplaceScans("test_coverage", results);
      AppModel.ReplacedScansOfType(old(app.qualityScans), "test_coverage", results);
      var stored := ByType(app.qualityScans, "test_coverage");
      assert stored == results;
      app.SaveSummary(CoverageSummary(app.SummaryFor("test_coverage"), stored, now));
    }
  }
}
