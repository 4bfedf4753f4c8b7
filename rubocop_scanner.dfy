/**
 * The RuboCop scanner: RuboCop runs with a fixed list of high-value cops,
 * and each offense in its JSON report becomes one finding whose severity
 * follows RuboCop's own; the findings replace the app's previous RuboCop
 * findings and are summarised.
 */
module RubocopScanner {
  import opened Wrappers
  import Text
  import Sorting
  import opened QualityScanModel
  import MetricSummaryModel
  import AppModel

  /** The only cops RuboCop is asked to run, in order. */
  const HighValueCops: seq<string> := [
    "Lint/Debugger", "Lint/UnusedMethodArgument", "Lint/UnusedBlockArgument", "Lint/UselessAssignment",
    "Lint/ShadowingOuterLocalVariable", "Lint/AmbiguousOperator", "Lint/Void", "Security/Eval", "Security/Open",
    "Security/MarshalLoad", "Performance/RegexpMatch", "Performance/StringReplacement", "Performance/RedundantMerge",
    "Rails/OutputSafety", "Rails/UniqBeforePluck", "Rails/FindEach", "Rails/HasManyOrHasOneDependent"]

  /** `"--only #{cop}"` for each cop. */
  function OnlyArgs(cops: seq<string>): (r: seq<string>)
    ensures |r| == |cops| && forall i :: 0 <= i < |cops| ==> r[i] == "--only " + cops[i]
  {
    seq(|cops|, i requires 0 <= i < |cops| => "--only " + cops[i])
  }

  /** The cop argument of the command line: the `--only` arguments joined by spaces. */
  function CopsArg(cops: seq<string>): string {
    Text.Join(OnlyArgs(cops), " ")
  }

  /** The command-line words `--only`, cop, `--only`, cop, ... */
  function OnlyWords(cops: seq<string>): (r: seq<string>)
    ensures |r| == 2 * |cops|
  {
    if cops == [] then [] else ["--only", cops[0]] + OnlyWords(cops[1..])
  }

  /** Every even word is `--only` and the word after it is the cop at that place. */
  lemma {:induction false} OnlyWordsAt(cops: seq<string>, i: int)
    requires 0 <= i < |cops|
    ensures OnlyWords(cops)[2 * i] == "--only" && OnlyWords(cops)[2 * i + 1] == cops[i]
    decreases i
  {
    if i > 0 {
      OnlyWordsAt(cops[1..], i - 1);
    }
  }

  /** No word holds a space when no cop does. */
  lemma {:induction false} OnlyWordsNoSpace(cops: seq<string>)
    requires forall i :: 0 <= i < |cops| ==> ' ' !in cops[i]
    ensures forall k :: 0 <= k < |OnlyWords(cops)| ==> ' ' !in OnlyWords(cops)[k]
    decreases |cops|
  {
    if cops != [] {
      OnlyWordsNoSpace(cops[1..]);
      var rest := OnlyWords(cops[1..]);
      assert OnlyWords(cops) == ["--only", cops[0]] + rest;
      assert ' ' !in "--only";
      forall k | 2 <= k < 2 + |rest|
        ensures ' ' !in OnlyWords(cops)[k]
      {
        assert OnlyWords(cops)[k] == rest[k - 2];
      }
    }
  }

  lemma {:induction false} CopsArgWords(cops: seq<string>)
    ensures CopsArg(cops) == Text.Join(OnlyWords(cops), " ")
    decreases |cops|
  {
    if |cops| == 1 {
      assert OnlyArgs(cops) == ["--only " + cops[0]];
      assert OnlyWords(cops) == ["--only", cops[0]];
      assert OnlyWords(cops)[1..] == [cops[0]];
    } else if |cops| > 1 {
      CopsArgWords(cops[1..]);
      assert OnlyArgs(cops)[1..] == OnlyArgs(cops[1..]);
      var w := OnlyWords(cops);
      assert w[1..][1..] == OnlyWords(cops[1..]);
      assert Text.Join(w[1..], " ") == cops[0] + " " + Text.Join(OnlyWords(cops[1..]), " ");
    }
  }

  /**
   * The shell splits the cop argument back into one `--only <cop>` pair per
   * cop, in list order, as long as no cop name holds a space.
   */
  lemma CopsArgSplits(cops: seq<string>)
    requires |cops| > 0 && forall i :: 0 <= i < |cops| ==> ' ' !in cops[i]
    ensures Text.Split(CopsArg(cops), ' ') == OnlyWords(cops)
  {
    CopsArgWords(cops);
    OnlyWordsNoSpace(cops);
    Text.SplitJoin(OnlyWords(cops), ' ');
  }

  /** The shipped list qualifies: 17 cops, none with a space, so 17 `--only` pairs. */
  lemma HighValueCopsSplit()
    ensures |HighValueCops| == 17
    ensures Text.Split(CopsArg(HighValueCops), ' ') == OnlyWords(HighValueCops)
  {
    forall i | 0 <= i < |HighValueCops|
      ensures ' ' !in HighValueCops[i]
    {
    }
    CopsArgSplits(HighValueCops);
  }

  /** `offense.dig("location", "start_line")` reads this. */
  datatype Location = Location(startLine: Option<int>)

  /** The fields of an offense the parser reads; any of them may be absent. */
  datatype Offense = Offense(severity: Option<string>, copName: Option<string>, message: Option<string>,
                             location: Option<Location>)

  /** A file entry; `offenses` is absent when the value is not an array. */
  datatype FileReport = FileReport(path: Option<string>, offenses: Option<seq<Offense>>)

  /** The decoded report; `files` is absent when the key is missing or null. */
  datatype RubocopReport = RubocopReport(files: Option<seq<FileReport>>)

  /**
   * `rubocop_severity`, ignoring case: error and fatal are high, warning is
   * medium, and anything else (convention, refactor, info, nil) is low.
   */
  function RubocopSeverity(severity: Option<string>): (r: string)
    ensures r == "high" <==> severity.Some? && Text.Lower(severity.value) in {"error", "fatal"}
    ensures r == "medium" <==> severity.Some? && Text.Lower(severity.value) == "warning"
    ensures r == "low" <==> severity.None? || Text.Lower(severity.value) !in {"error", "fatal", "warning"}
    ensures r in Severities
  {
    if severity.None? then "low"
    else
      match Text.Lower(severity.value)
      case "error" | "fatal" => "high"
      case "warning" => "medium"
      case _ => "low"
  }

  /** The start line of an offense, nil when the location or its line is missing. */
  function StartLine(o: Offense): (line: Option<int>)
    ensures o.location.None? ==> line.None?
    ensures o.location.Some? ==> line == o.location.value.startLine
  {
    match o.location
    case None => None
    case Some(loc) => loc.startLine
  }

  /** The finding for one offense: `"<cop_name>: <message>"`, with the file's path and the start line. */
  function OffenseResult(f: FileReport, o: Offense): (r: QualityScan)
    ensures r.scanType == "rubocop" && r.severity == Some(RubocopSeverity(o.severity))
    ensures r.message == Some(o.copName.GetOr("") + ": " + o.message.GetOr(""))
    ensures r.filePath == f.path && r.lineNumber == StartLine(o) && r.metricValue.None?
    ensures Valid(r)
  {
    QualityScan("rubocop", Some(RubocopSeverity(o.severity)), Some(o.copName.GetOr("") + ": " + o.message.GetOr("")),
                f.path, StartLine(o), None)
  }

  /** One file's findings: one per offense in order, none when its offenses are not an array. */
  function FileResults(f: FileReport): (r: seq<QualityScan>)
    ensures f.offenses.None? ==> r == []
    ensures f.offenses.Some? ==> |r| == |f.offenses.value|
    ensures f.offenses.Some? ==> forall j :: 0 <= j < |r| ==> r[j] == OffenseResult(f, f.offenses.value[j])
  {
    match f.offenses
    case None => []
    case Some(os) => seq(|os|, j requires 0 <= j < |os| => OffenseResult(f, os[j]))
  }

  /** The number of offenses in files whose offenses are an array. */
  function OffenseCount(files: seq<FileReport>): nat {
    if files == [] then 0
    else
      var last := files[|files| - 1];
      OffenseCount(files[..|files| - 1]) + (if last.offenses.Some? then |last.offenses.value| else 0)
  }

  /** The findings of the files in order. */
  function FilesResults(files: seq<FileReport>): (r: seq<QualityScan>)
    ensures |r| == OffenseCount(files)
  {
    if files == [] then []
    else FilesResults(files[..|files| - 1]) + FileResults(files[|files| - 1])
  }

  /** The findings of one more file follow those of the files before it. */
  lemma FilesResultsPrefix(files: seq<FileReport>, i: int)
    requires 0 <= i < |files|
    ensures FilesResults(files[..i + 1]) == FilesResults(files[..i]) + FileResults(files[i])
  {
    assert files[..i + 1][..i] == files[..i];
  }

  /** `data["files"] || []`. */
  function Files(data: RubocopReport): (fs: seq<FileReport>)
    ensures data.files.None? ==> fs == []
    ensures data.files.Some? ==> fs == data.files.value
  {
    data.files.GetOr([])
  }

  /**
   * What `parse_rubocop_results` appends: one finding per offense, file by
   * file; a missing files key gives none.
   */
  function RubocopResults(data: RubocopReport): (r: seq<QualityScan>)
    ensures data.files.None? ==> r == []
    ensures |r| == OffenseCount(Files(data))
  {
    FilesResults(Files(data))
  }

  /** Every finding the files give is a valid RuboCop finding, so `create!` accepts them all. */
  lemma {:induction false} FilesResultsValid(files: seq<FileReport>)
    ensures forall k :: 0 <= k < |FilesResults(files)| ==>
      FilesResults(files)[k].scanType == "rubocop" && Valid(FilesResults(files)[k])
    decreases |files|
  {
    if files != [] {
      var init := files[..|files| - 1];
      FilesResultsValid(init);
      var a: seq<QualityScan> := FilesResults(init);
      var b: seq<QualityScan> := FileResults(files[|files| - 1]);
      assert FilesResults(files) == a + b;
      forall k | 0 <= k < |a| + |b|
        ensures (a + b)[k].scanType == "rubocop" && Valid((a + b)[k])
      {
        if k >= |a| {
          assert (a + b)[k] == b[k - |a|];
        }
      }
    }
  }

  lemma RubocopResultsValid(data: RubocopReport)
    ensures forall k :: 0 <= k < |RubocopResults(data)| ==>
      RubocopResults(data)[k].scanType == "rubocop" && Valid(RubocopResults(data)[k])
  {
    FilesResultsValid(Files(data));
  }

  /** A file whose offenses are not an array adds nothing, wherever it stands. */
  lemma SkippedFile(files: seq<FileReport>, f: FileReport)
    requires f.offenses.None?
    ensures FilesResults(files + [f]) == FilesResults(files)
  {
    assert (files + [f])[..|files|] == files;
  }

  /** The summary `create_summary` saves for the RuboCop findings. */
  function RubocopSummary(prior: MetricSummaryModel.MetricSummary, scans: seq<QualityScan>, now: int)
    : (s: MetricSummaryModel.MetricSummary)
    ensures s == MetricSummaryModel.CountedSummary(prior, scans, now)
    ensures s.highSeverity == |BySeverity(scans, Some("critical"))| + |BySeverity(scans, Some("high"))|
  {
    CriticalIssuesSplit(scans);
    MetricSummaryModel.CountedSummary(prior, scans, now)
  }

  class Scanner {
    var results: seq<QualityScan>

    constructor ()
      ensures results == []
    {
      results := [];
    }

    /** The inner loop of `parse_rubocop_results`: one file's offenses. */
    method AppendFileResults(f: FileReport)
      modifies this
      ensures results == old(results) + FileResults(f)
    {
      if f.offenses.None? {
        return;
      }
      var offenses := f.offenses.value;
      var j := 0;
      while j < |offenses|
        invariant 0 <= j <= |offenses|
        invariant results == old(results) + FileResults(f)[..j]
      {
        results := results + [OffenseResult(f, offenses[j])];
        assert FileResults(f)[..j + 1] == FileResults(f)[..j] + [OffenseResult(f, offenses[j])];
        j := j + 1;
      }
      assert FileResults(f)[..j] == FileResults(f);
    }

    /** `parse_rubocop_results`: the loop over the report's files. */
    method ParseRubocopResults(data: RubocopReport)
      modifies this
      ensures results == old(results) + RubocopResults(data)
    {
      var files := Files(data);
      var i := 0;
      while i < |files|
        invariant 0 <= i <= |files|
        invariant results == old(results) + FilesResults(files[..i])
      {
        Sorting.AppendAssoc(old(results), FilesResults(files[..i]), FileResults(files[i]));
        AppendFileResults(files[i]);
        FilesResultsPrefix(files, i);
        i := i + 1;
      }
      assert files[..i] == files;
    }

    /**
     * `scan`: nothing for an app whose directory is missing; otherwise the
     * report's findings (none when RuboCop left no readable report) replace
     * the app's RuboCop findings, and the summary is saved.
     */
    method Scan(app: AppModel.App, appExists: bool, report: Option<RubocopReport>, now: int)
      requires results == []
      modifies this, app
      ensures !appExists ==>
        results == [] && app.qualityScans == old(app.qualityScans) && app.metricSummaries == old(app.metricSummaries)
      ensures appExists ==> results == (if report.Some? then RubocopResults(report.value) else [])
      ensures appExists ==> app.qualityScans == AppModel.WithoutType(old(app.qualityScans), "rubocop") + results
      ensures appExists ==> app.metricSummaries == AppModel.Upsert(old(app.metricSummaries),
        RubocopSummary(AppModel.FindOrInitialize(old(app.metricSummaries), "rubocop"), results, now))
      ensures app.status == old(app.status) && app.lastScannedAt == old(app.lastScannedAt)
    {
      if !appExists {
        return;
      }
      if report.Some? {
        ParseRubocopResults(report.value);
      }
      RubocopResultsValid(if report.Some? then report.value else RubocopReport(None));
      app.ReplaceScans("rubocop", results);
      AppModel.ReplacedScansOfType(old(app.qualityScans), "rubocop", results);
      var stored := ByType(app.qualityScans, "rubocop");
      app.SaveSummary(RubocopSummary(app.SummaryFor("rubocop"), stored, now));
    }
  }
}
