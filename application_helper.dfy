/** The badge classes the dashboard uses for app health and finding severity. */
module ApplicationHelper {
  import opened Wrappers
  import QualityScanModel
  import MetricSummaryModel

  const GreenBadge := "bg-green-100 text-green-800"
  const YellowBadge := "bg-yellow-100 text-yellow-800"
  const RedBadge := "bg-red-100 text-red-800"
  const BlueBadge := "bg-blue-100 text-blue-800"
  const GrayBadge := "bg-gray-100 text-gray-800"

  /** `status_badge_class`: one class per health status; anything else, nil and "pending" included, is gray. */
  function StatusBadgeClass(status: Option<string>): (c: string)
    ensures c == GreenBadge <==> status == Some("healthy")
    ensures c == YellowBadge <==> status == Some("warning")
    ensures c == RedBadge <==> status == Some("critical")
    ensures c == GrayBadge <==> status !in {Some("healthy"), Some("warning"), Some("critical")}
  {
    match status
    case Some("healthy") => GreenBadge
    case Some("warning") => YellowBadge
    case Some("critical") => RedBadge
    case _ => GrayBadge
  }

  /** The status badge follows the status colour of the models: gray badge exactly when the colour is gray, and so on. */
  lemma StatusBadgeFollowsColor(status: Option<string>)
    ensures StatusBadgeClass(status) == GreenBadge <==> MetricSummaryModel.ColorOf(status) == "green"
    ensures StatusBadgeClass(status) == YellowBadge <==> MetricSummaryModel.ColorOf(status) == "yellow"
    ensures StatusBadgeClass(status) == RedBadge <==> MetricSummaryModel.ColorOf(status) == "red"
    ensures StatusBadgeClass(status) == GrayBadge <==> MetricSummaryModel.ColorOf(status) == "gray"
  {
  }

  /** `severity_badge_class`: critical and high share red, medium is yellow, low blue, and the rest gray. */
  function SeverityBadgeClass(severity: Option<string>): (c: string)
    ensures c == RedBadge <==> severity == Some("critical") || severity == Some("high")
    ensures c == YellowBadge <==> severity == Some("medium")
    ensures c == BlueBadge <==> severity == Some("low")
    ensures c == GrayBadge <==> severity !in {Some("critical"), Some("high"), Some("medium"), Some("low")}
  {
    match severity
    case Some("critical") | Some("high") => RedBadge
    case Some("medium") => YellowBadge
    case Some("low") => BlueBadge
    case _ => GrayBadge
  }

  /** Exactly the findings the critical-issues filter keeps get the red badge. */
  lemma RedBadgesAreCriticalIssues(scans: seq<QualityScanModel.QualityScan>, x: QualityScanModel.QualityScan)
    requires x in scans
    ensures x in QualityScanModel.CriticalIssues(scans) <==> SeverityBadgeClass(x.severity) == RedBadge
  {
  }
}
