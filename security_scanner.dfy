/**
 * The Brakeman scanner: each warning of Brakeman's JSON report becomes one
 * security finding whose severity follows the warning's confidence; the
 * findings replace the app's previous security findings and are summarised.
 */
module SecurityScanner {
  import opened Wrappers
  import Text
  import opened QualityScanModel
  import MetricSummaryModel
  import AppModel

  /** The fields of a Brakeman warning the parser reads; any of them may be absent. */
  datatype BrakemanWarning = BrakemanWarning(confidence: Option<string>, warningType: Option<string>,
                                             message: Option<string>, file: Option<string>, line: Option<int>)

  /** The decoded report; `warnings` is absent when the key is missing or null. */
  datatype BrakemanReport = BrakemanReport(warnings: Option<seq<BrakemanWarning>>)

  /**
   * `severity_for_confidence`, ignoring case: high confidence is critical,
   * medium is high, weak is medium, and anything else, nil included, is low.
   */
  function SeverityForConfidence(confidence: Option<string>): (r: string)
    ensures r == "critical" <==> confidence.Some? && Text.Lower(confidence.value) == "high"
    ensures r == "high" <==> confidence.Some? && Text.Lower(confidence.value) == "medium"
    ensures r == "medium" <==> confidence.Some? && Text.Lower(confidence.value) == "weak"
    ensures r == "low" <==> confidence.None? || Text.Lower(confidence.value) !in {"high", "medium", "weak"}
    ensures r in Severities
  {
    if confidence.None? then "low"
    else
      match Text.Lower(confidence.value)
      case "high" => "critical"
      case "medium" => "high"
      case "weak" => "medium"
      case _ => "low"
  }

  /** Down-casing twice changes nothing more. */
  lemma LowerIdempotent(s: string)
    ensures Text.Lower(Text.Lower(s)) == Text.Lower(s)
  {
    var once := Text.Lower(s);
    forall i | 0 <= i < |s|
      ensures Text.Lower(once)[i] == once[i]
    {
    }
  }

  /** The mapping depends only on the down-cased confidence: "High" and "HIGH" read as "high". */
  lemma SeverityIgnoresCase(confidence: string)
    ensures SeverityForConfidence(Some(confidence)) == SeverityForConfidence(Some(Text.Lower(confidence)))
  {
    LowerIdempotent(confidence);
  }

  /** The finding for one warning: `"<warning_type>: <message>"`, nil parts interpolated as empty. */
  function WarningResult(w: BrakemanWarning): (r: QualityScan)
    ensures r.scanType == "security" && r.severity == Some(SeverityForConfidence(w.confidence))
    ensures r.message == Some(w.warningType.GetOr("") + ": " + w.message.GetOr(""))
    ensures r.filePath == w.file && r.lineNumber == w.line && r.metricValue.None?
    ensures Valid(r)
  {
    QualityScan("security", Some(SeverityForConfidence(w.confidence)),
                Some(w.warningType.GetOr("") + ": " + w.message.GetOr("")), w.file, w.line, None)
  }

  /** `data["warnings"] || []`. */
  function Warnings(data: BrakemanReport): (ws: seq<BrakemanWarning>)
    ensures data.warnings.None? ==> ws == []
    ensures data.warnings.Some? ==> ws == data.warnings.value
  {
    data.warnings.GetOr([])
  }

  /** What `parse_brakeman_results` appends: one finding per warning, in order. */
  function BrakemanResults(data: BrakemanReport): (r: seq<QualityScan>)
    ensures |r| == |Warnings(data)|
    ensures forall i :: 0 <= i < |r| ==> r[i] == WarningResult(Warnings(data)[i])
  {
    var ws := Warnings(data);
    seq(|ws|, i requires 0 <= i < |ws| => WarningResult(ws[i]))
  }

  /** Every finding is a security finding that passes validation, so `create!` accepts it. */
  lemma BrakemanResultsValid(data: BrakemanReport)
    ensures forall i :: 0 <= i < |BrakemanResults(data)| ==>
      BrakemanResults(data)[i].scanType == "security" && Valid(BrakemanResults(data)[i])
  {
  }

  /** The summary `create_summary` saves for the security findings. */
  function SecuritySummary(prior: MetricSummaryModel.MetricSummary, scans: seq<QualityScan>, now: int)
    : (s: MetricSummaryModel.MetricSummary)
    ensures s == MetricSummaryModel.CountedSummary(prior, scans, now)
    ensures s.highSeverity == |BySeverity(scans, Some("critical"))| + |BySeverity(scans, Some("high"))|
  {
    CriticalIssuesSplit(scans);
    MetricSummaryModel.CountedSummary(prior, scans, now)
  }

  class Scanner {
    var results: seq<QualityScan>

    constructor ()
      ensures results == []
    {
      results := [];
    }

    /** `parse_brakeman_results`: appends one finding per warning. */
    method ParseBrakemanResults(data: BrakemanReport)
      modifies this
      ensures results == old(results) + BrakemanResults(data)
    {
      var warnings := Warnings(data);
      var i := 0;
      while i < |warnings|
        invariant 0 <= i <= |warnings|
        invariant results == old(results) + BrakemanResults(data)[..i]
      {
        results := results + [WarningResult(warnings[i])];
        assert BrakemanResults(data)[..i + 1] == BrakemanResults(data)[..i] + [WarningResult(warnings[i])];
        i := i + 1;
      }
      assert BrakemanResults(data)[..i] == BrakemanResults(data);
    }

    /**
     * `scan`: nothing for an app whose directory is missing; otherwise the
     * report's findings (none when Brakeman left no readable report) replace
     * the app's security findings, and the summary is saved.
     */
    method Scan(app: AppModel.App, appExists: bool, report: Option<BrakemanReport>, now: int)
      requires results == []
      modifies this, app
      ensures !appExists ==>
        results == [] && app.qualityScans == old(app.qualityScans) && app.metricSummaries == old(app.metricSummaries)
      ensures appExists ==> results == (if report.Some? then BrakemanResults(report.value) else [])
      ensures appExists ==> app.qualityScans == AppModel.WithoutType(old(app.qualityScans), "security") + results
      ensures appExists ==> app.metricSummaries == AppModel.Upsert(old(app.metricSummaries),
        SecuritySummary(AppModel.FindOrInitialize(old(app.metricSummaries), "security"), results, now))
      ensures app.status == old(app.status) && app.lastScannedAt == old(app.lastScannedAt)
    {
      if !appExists {
        return;
      }
      if report.Some? {
        ParseBrakemanResults(report.value);
      }
      BrakemanResultsValid(if report.Some? then report.value else BrakemanReport(None));
      app.ReplaceScans("security", results);
      AppModel.ReplacedScansOfType(old(app.qualityScans), "security", results);
      var stored := ByType(app.qualityScans, "security");
      app.SaveSummary(SecuritySummary(app.SummaryFor("security"), stored, now));
    }
  }
}
