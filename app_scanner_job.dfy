/**
 * The status step of the scanning job: after the scanners have stored their
 * results, the app's status is set from its critical-or-high and medium
 * finding counts.
 */
module AppScannerJob {
  import opened Wrappers
  import QualityScanModel
  import MetricSummaryModel
  import AppModel

  /**
   * `determine_status`: any critical-or-high finding makes the app critical,
   * whatever the medium count; otherwise more than five medium findings make
   * it a warning, and five or fewer leave it healthy.
   */
  function DetermineStatus(criticalCount: int, mediumCount: int): (r: string)
    ensures r == "critical" <==> criticalCount > 0
    ensures r == "warning" <==> criticalCount <= 0 && mediumCount > 5
    ensures r == "healthy" <==> criticalCount <= 0 && mediumCount <= 5
  {
    if criticalCount > 0 then "critical"
    else if mediumCount > 5 then "warning"
    else "healthy"
  }

  /** The two counts `update_app_status` feeds to `determine_status`: critical plus high, and medium alone. */
  function StatusCounts(scans: seq<QualityScanModel.QualityScan>): (r: (nat, nat))
    ensures r.0 == |QualityScanModel.BySeverity(scans, Some("critical"))| + |QualityScanModel.BySeverity(scans, Some("high"))|
    ensures r.1 == |QualityScanModel.BySeverity(scans, Some("medium"))|
    ensures r.0 + r.1 <= |scans|
  {
    QualityScanModel.CriticalIssuesSplit(scans);
    var c := QualityScanModel.CountSeverities(scans);
    (c.high, c.medium)
  }

  /** `update_app_status`: stamps the scan time and sets the status from all of the app's stored findings. */
  method UpdateAppStatus(app: AppModel.App, now: int)
    modifies app
    ensures app.lastScannedAt == Some(now)
    ensures app.status == Some(DetermineStatus(StatusCounts(app.qualityScans).0, StatusCounts(app.qualityScans).1))
    ensures app.ScanStatusColor() != "gray"
    ensures app.qualityScans == old(app.qualityScans) && app.metricSummaries == old(app.metricSummaries)
    ensures app.name == old(app.name) && app.path == old(app.path)
  {
    var counts := StatusCounts(app.qualityScans);
    var criticalCount := counts.0;
    var mediumCount := counts.1;
    app.lastScannedAt := Some(now);
    app.status := Some(DetermineStatus(criticalCount, mediumCount));
  }

  /**
   * The job's rule and a summary's own `status` agree whenever the summary's
   * counts come from counting findings: a summary with no issues has no
   * high or medium ones either.
   */
  lemma SummaryStatusMatchesJob(scans: seq<QualityScanModel.QualityScan>, scanType: string, now: int)
    ensures var c := QualityScanModel.CountSeverities(scans);
      MetricSummaryModel.Status(MetricSummaryModel.MetricSummary(scanType, c.total, c.high, c.medium, c.low, None, now, None))
      == DetermineStatus(StatusCounts(scans).0, StatusCounts(scans).1)
  {
  }

  /** Counts can disagree with `total_issues`: a summary saying zero issues is healthy despite high counts, the job is not. */
  lemma StatusRulesDifferOnInconsistentCounts(scanType: string, now: int)
    ensures MetricSummaryModel.Status(MetricSummaryModel.MetricSummary(scanType, 0, 1, 0, 0, None, now, None)) == "healthy"
    ensures DetermineStatus(1, 0) == "critical"
  {
  }
}
