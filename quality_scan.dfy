/**
 * One finding of a quality scan, its validation, the filters the views and
 * jobs apply to an app's findings, and the per-severity counts every
 * scanner's summary stores.
 */
module QualityScanModel {
  import opened Wrappers
  import Sorting

  const ScanTypes: seq<string> := ["security", "static_analysis", "rubocop", "test_coverage", "js_complexity",
                                   "architecture", "drift"]
  const Severities: seq<string> := ["critical", "high", "medium", "low", "info"]

  /** A finding; the time it was recorded is not modelled. */
  datatype QualityScan = QualityScan(scanType: string, severity: Option<string>, message: Option<string>,
                                     filePath: Option<string>, lineNumber: Option<int>,
                                     metricValue: Option<real>)

  /** The validated attributes. */
  datatype ScanField = ScanTypeField | SeverityField

  /** The attributes that fail validation, in declaration order. */
  function ValidationErrors(s: QualityScan): (r: seq<ScanField>)
    ensures ScanTypeField in r <==> s.scanType !in ScanTypes
    ensures SeverityField in r <==> s.severity.Some? && s.severity.value !in Severities
    ensures |r| <= 2
  {
    (if s.scanType in ScanTypes then [] else [ScanTypeField])
    + (if s.severity.None? || s.severity.value in Severities then [] else [SeverityField])
  }

  predicate Valid(s: QualityScan) {
    ValidationErrors(s) == []
  }

  /** `by_type(type)`: exactly the findings of that scan type, in order. */
  function ByType(scans: seq<QualityScan>, scanType: string): (r: seq<QualityScan>)
    ensures forall x :: x in r <==> x in scans && x.scanType == scanType
  {
    Sorting.Keep(scans, (s: QualityScan) => s.scanType == scanType)
  }

  /** `by_severity(severity)`: exactly the findings with that severity (`nil` selects those without one). */
  function BySeverity(scans: seq<QualityScan>, severity: Option<string>): (r: seq<QualityScan>)
    ensures forall x :: x in r <==> x in scans && x.severity == severity
  {
    Sorting.Keep(scans, (s: QualityScan) => s.severity == severity)
  }

  predicate IsCriticalOrHigh(s: QualityScan) {
    s.severity == Some("critical") || s.severity == Some("high")
  }

  /** `critical_issues`: exactly the findings of severity critical or high. */
  function CriticalIssues(scans: seq<QualityScan>): (r: seq<QualityScan>)
    ensures forall x :: x in r <==> x in scans && (x.severity == Some("critical") || x.severity == Some("high"))
  {
    Sorting.Keep(scans, IsCriticalOrHigh)
  }

  /** The critical issues are the critical findings together with the high ones. */
  lemma {:induction false} CriticalIssuesSplit(scans: seq<QualityScan>)
    ensures |CriticalIssues(scans)| == |BySeverity(scans, Some("critical"))| + |BySeverity(scans, Some("high"))|
    decreases |scans|
  {
    if scans != [] {
      CriticalIssuesSplit(scans[1..]);
    }
  }

  /** The counts a scanner's summary stores. */
  datatype SeverityCounts = SeverityCounts(total: nat, high: nat, medium: nat, low: nat)

  /**
   * `create_summary`'s counts over a scanner's findings: all of them,
   * critical and high together, medium, and low.
   */
  function CountSeverities(scans: seq<QualityScan>): (c: SeverityCounts)
    ensures c.total == |scans|
    ensures c.high == |CriticalIssues(scans)|
    ensures c.medium == |BySeverity(scans, Some("medium"))| && c.low == |BySeverity(scans, Some("low"))|
    ensures c.high + c.medium + c.low <= c.total
  {
    SeverityCountsBounded(scans);
    SeverityCounts(|scans|, |CriticalIssues(scans)|, |BySeverity(scans, Some("medium"))|,
                   |BySeverity(scans, Some("low"))|)
  }

  /** A finding has one severity, so the three counts never exceed the total. */
  lemma {:induction false} SeverityCountsBounded(scans: seq<QualityScan>)
    ensures |CriticalIssues(scans)| + |BySeverity(scans, Some("medium"))| + |BySeverity(scans, Some("low"))| <= |scans|
    decreases |scans|
  {
    if scans != [] {
      SeverityCountsBounded(scans[1..]);
    }
  }

  /** Counting findings one batch after another adds up. */
  lemma CountSeveritiesAppend(a: seq<QualityScan>, b: seq<QualityScan>)
    ensures var ca, cb, c := CountSeverities(a), CountSeverities(b), CountSeverities(a + b);
      c == SeverityCounts(ca.total + cb.total, ca.high + cb.high, ca.medium + cb.medium, ca.low + cb.low)
  {
    Sorting.KeepAppend(a, b, IsCriticalOrHigh);
    Sorting.KeepAppend(a, b, (s: QualityScan) => s.severity == Some("medium"));
    Sorting.KeepAppend(a, b, (s: QualityScan) => s.severity == Some("low"));
  }
}
