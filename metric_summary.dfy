/**
 * A scanner's stored summary and the health status and colour derived from
 * its counts; the colour table is the one the app's own status uses too.
 */
module MetricSummaryModel {
  import opened Wrappers
  import QualityScanModel

  /** A summary row; the metadata hash is reduced to the overall coverage it may carry. */
  datatype MetricSummary = MetricSummary(scanType: string, totalIssues: int, highSeverity: int,
                                         mediumSeverity: int, lowSeverity: int, averageScore: Option<real>,
                                         scannedAt: int, overallCoverage: Option<real>)

  /**
   * `status`: healthy when there are no issues at all, whatever the severity
   * counts say; otherwise critical on any high-severity issue, warning on
   * more than five medium ones, and healthy else.
   */
  function Status(s: MetricSummary): (r: string)
    ensures r == "critical" <==> s.totalIssues != 0 && s.highSeverity > 0
    ensures r == "warning" <==> s.totalIssues != 0 && s.highSeverity <= 0 && s.mediumSeverity > 5
    ensures r == "healthy" <==> s.totalIssues == 0 || (s.highSeverity <= 0 && s.mediumSeverity <= 5)
  {
    if s.totalIssues == 0 then "healthy"
    else if s.highSeverity > 0 then "critical"
    else if s.mediumSeverity > 5 then "warning"
    else "healthy"
  }

  /** The colour of a health status: healthy, warning and critical have their own, anything else is gray. */
  function ColorOf(status: Option<string>): (c: string)
    ensures c == "green" <==> status == Some("healthy")
    ensures c == "yellow" <==> status == Some("warning")
    ensures c == "red" <==> status == Some("critical")
    ensures c == "gray" <==> status !in {Some("healthy"), Some("warning"), Some("critical")}
  {
    match status
    case Some("healthy") => "green"
    case Some("warning") => "yellow"
    case Some("critical") => "red"
    case _ => "gray"
  }

  /** `status_color`: the status is always one of the three, so a summary is never gray. */
  function StatusColor(s: MetricSummary): (c: string)
    ensures c != "gray"
    ensures c == "red" <==> s.totalIssues != 0 && s.highSeverity > 0
    ensures c == "yellow" <==> s.totalIssues != 0 && s.highSeverity <= 0 && s.mediumSeverity > 5
    ensures c == "green" <==> s.totalIssues == 0 || (s.highSeverity <= 0 && s.mediumSeverity <= 5)
  {
    ColorOf(Some(Status(s)))
  }

  /** No issues is healthy whatever the counts; five medium issues stay healthy, six warn. */
  lemma StatusExamples(app: string, t: int)
    ensures Status(MetricSummary(app, 0, 3, 9, 0, None, t, None)) == "healthy"
    ensures Status(MetricSummary(app, 10, 1, 5, 0, None, t, None)) == "critical"
    ensures Status(MetricSummary(app, 10, 0, 6, 0, None, t, None)) == "warning"
    ensures Status(MetricSummary(app, 5, 0, 5, 0, None, t, None)) == "healthy"
    ensures Status(MetricSummary(app, 10, 0, 0, 10, None, t, None)) == "healthy"
  {
  }

  /**
   * The counts the security, RuboCop and drift scanners store in their
   * summary: all findings, critical and high together, medium, low, and the
   * scan time; whatever else the row held is kept.
   */
  function CountedSummary(prior: MetricSummary, scans: seq<QualityScanModel.QualityScan>, now: int): (s: MetricSummary)
    ensures var c := QualityScanModel.CountSeverities(scans);
      s.totalIssues == c.total && s.highSeverity == c.high && s.mediumSeverity == c.medium && s.lowSeverity == c.low
    ensures s.scanType == prior.scanType && s.scannedAt == now
    ensures s.averageScore == prior.averageScore && s.overallCoverage == prior.overallCoverage
    ensures Status(s) == "critical" <==> |QualityScanModel.CriticalIssues(scans)| > 0
    ensures Status(s) == "healthy" ==> |QualityScanModel.BySeverity(scans, Some("medium"))| <= 5
  {
    var c := QualityScanModel.CountSeverities(scans);
    prior.(totalIssues := c.total, highSeverity := c.high, mediumSeverity := c.medium, lowSeverity := c.low,
           scannedAt := now)
  }
}
