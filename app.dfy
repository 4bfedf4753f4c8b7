/**
 * A scanned application: its health status and the scan results and
 * summaries stored against it, with the status colour and the latest
 * summary of each scan type.
 */
module AppModel {
  import opened Wrappers
  import Sorting
  import QualityScanModel
  import opened MetricSummaryModel

  /** Newest first, the order `order(scanned_at: :desc)` asks for. */
  predicate ScannedDesc(a: MetricSummary, b: MetricSummary) {
    a.scannedAt >= b.scannedAt
  }

  lemma ScannedDescPreorder()
    ensures Sorting.TotalPreorder(ScannedDesc)
  {
  }

  /**
   * `group_by(&:scan_type).transform_values(&:first)`: each scan type that
   * occurs, mapped to its first summary in sequence order.
   */
  function FirstByType(s: seq<MetricSummary>): (r: map<string, MetricSummary>)
    ensures forall i :: 0 <= i < |s| ==> s[i].scanType in r
  {
    if s == [] then map[] else FirstByType(s[1..])[s[0].scanType := s[0]]
  }

  /** Every entry is a summary of the sequence with that type. */
  lemma {:induction false} FirstByTypeFrom(s: seq<MetricSummary>, k: string)
    requires k in FirstByType(s)
    ensures exists i :: 0 <= i < |s| && s[i] == FirstByType(s)[k] && s[i].scanType == k
    decreases |s|
  {
    if k != s[0].scanType {
      FirstByTypeFrom(s[1..], k);
      var i :| 0 <= i < |s[1..]| && s[1..][i] == FirstByType(s[1..])[k] && s[1..][i].scanType == k;
      assert s[i + 1] == FirstByType(s)[k];
    }
  }

  /** The entry for the type of `s[i]` comes no later than `s[i]`. */
  lemma {:induction false} FirstByTypeFirst(s: seq<MetricSummary>, i: nat)
    requires i < |s|
    ensures exists j :: 0 <= j <= i && s[j] == FirstByType(s)[s[i].scanType]
    decreases |s|
  {
    if s[i].scanType != s[0].scanType {
      assert s[1..][i - 1] == s[i];
      FirstByTypeFirst(s[1..], i - 1);
      var j :| 0 <= j <= i - 1 && s[1..][j] == FirstByType(s[1..])[s[i].scanType];
      assert s[j + 1] == FirstByType(s)[s[i].scanType];
    }
  }

  /** `latest_summaries` over a sequence of summaries. */
  function LatestByType(summaries: seq<MetricSummary>): (r: map<string, MetricSummary>)
    ensures forall k :: k in r <==> exists i :: 0 <= i < |summaries| && summaries[i].scanType == k
    ensures forall k :: k in r ==> r[k] in summaries && r[k].scanType == k
  {
    LatestByTypeKeys(summaries);
    FirstByType(Sorting.SortBy(summaries, ScannedDesc))
  }

  lemma LatestByTypeKeys(summaries: seq<MetricSummary>)
    ensures forall k :: k in FirstByType(Sorting.SortBy(summaries, ScannedDesc)) <==>
      exists i :: 0 <= i < |summaries| && summaries[i].scanType == k
    ensures forall k :: k in FirstByType(Sorting.SortBy(summaries, ScannedDesc)) ==>
      FirstByType(Sorting.SortBy(summaries, ScannedDesc))[k] in summaries
      && FirstByType(Sorting.SortBy(summaries, ScannedDesc))[k].scanType == k
  {
    var ordered := Sorting.SortBy(summaries, ScannedDesc);
    var r := FirstByType(ordered);
    forall k | k in r
      ensures r[k] in summaries && r[k].scanType == k
      ensures exists i :: 0 <= i < |summaries| && summaries[i].scanType == k
    {
      FirstByTypeFrom(ordered, k);
      var i :| 0 <= i < |ordered| && ordered[i] == r[k] && ordered[i].scanType == k;
      assert ordered[i] in multiset(summaries);
      var j :| 0 <= j < |summaries| && summaries[j] == ordered[i];
    }
    forall i | 0 <= i < |summaries|
      ensures summaries[i].scanType in r
    {
      assert summaries[i] in multiset(ordered);
      var j :| 0 <= j < |ordered| && ordered[j] == summaries[i];
    }
  }

  /** Each type's entry is a summary of that type scanned no earlier than any other of the type. */
  lemma LatestByTypeIsLatest(summaries: seq<MetricSummary>, i: nat)
    requires i < |summaries|
    ensures summaries[i].scanType in LatestByType(summaries)
    ensures summaries[i].scannedAt <= LatestByType(summaries)[summaries[i].scanType].scannedAt
  {
    var ordered := Sorting.SortBy(summaries, ScannedDesc);
    var first := FirstByType(ordered);
    assert LatestByType(summaries) == first;
    ScannedDescPreorder();
    Sorting.SortBySorted(summaries, ScannedDesc);
    assert summaries[i] in multiset(ordered);
    var k :| 0 <= k < |ordered| && ordered[k] == summaries[i];
    FirstByTypeFirst(ordered, k);
    var j :| 0 <= j <= k && ordered[j] == first[summaries[i].scanType];
    NewestFirst(ordered, j, k);
  }

  /** In a newest-first sequence an earlier summary was scanned no earlier. */
  lemma NewestFirst(ordered: seq<MetricSummary>, j: nat, k: nat)
    requires Sorting.SortedBy(ordered, ScannedDesc) && j <= k < |ordered|
    ensures ordered[j].scannedAt >= ordered[k].scannedAt
  {
    if j < k {
      assert ScannedDesc(ordered[j], ordered[k]);
    }
  }

  /** The stored scans of every other type: what `where(scan_type: t).delete_all` leaves. */
  function WithoutType(scans: seq<QualityScanModel.QualityScan>, scanType: string): (r: seq<QualityScanModel.QualityScan>)
    ensures forall x :: x in r <==> x in scans && x.scanType != scanType
  {
    Sorting.Keep(scans, (x: QualityScanModel.QualityScan) => x.scanType != scanType)
  }

  /**
   * After a scanner replaces its type's scans with its new results, the
   * stored scans of that type are exactly those results, in order: the
   * summary counted from the store is the summary of the results.
   */
  lemma {:induction false} ReplacedScansOfType(scans: seq<QualityScanModel.QualityScan>, scanType: string,
                                               results: seq<QualityScanModel.QualityScan>)
    requires forall i :: 0 <= i < |results| ==> results[i].scanType == scanType
    ensures QualityScanModel.ByType(WithoutType(scans, scanType) + results, scanType) == results
  {
    var rest := WithoutType(scans, scanType);
    var p := (x: QualityScanModel.QualityScan) => x.scanType == scanType;
    Sorting.KeepAppend(rest, results, p);
    Sorting.KeepAll(results, p);
    Sorting.NoneKept(rest, p);
  }

  predicate HasType(summaries: seq<MetricSummary>, scanType: string) {
    exists i :: 0 <= i < |summaries| && summaries[i].scanType == scanType
  }

  /** A summary row `find_or_initialize_by` creates: zero counts, nothing else set. */
  function NewSummary(scanType: string): (s: MetricSummary)
    ensures s.scanType == scanType && s.totalIssues == 0 && s.highSeverity == 0
    ensures s.mediumSeverity == 0 && s.lowSeverity == 0 && s.averageScore.None? && s.overallCoverage.None?
  {
    MetricSummary(scanType, 0, 0, 0, 0, None, 0, None)
  }

  /** `find_or_initialize_by(scan_type: t)`: the first stored summary of type `t`, else a new one. */
  function FindOrInitialize(summaries: seq<MetricSummary>, scanType: string): (r: MetricSummary)
    ensures r.scanType == scanType
    ensures HasType(summaries, scanType) ==>
      exists i :: 0 <= i < |summaries| && summaries[i] == r && (forall j :: 0 <= j < i ==> summaries[j].scanType != scanType)
    ensures !HasType(summaries, scanType) ==> r == NewSummary(scanType)
  {
    if summaries == [] then NewSummary(scanType)
    else if summaries[0].scanType == scanType then summaries[0]
    else
      var r := FindOrInitialize(summaries[1..], scanType);
      assert HasType(summaries, scanType) ==> HasType(summaries[1..], scanType) by {
        if HasType(summaries, scanType) {
          var i :| 0 <= i < |summaries| && summaries[i].scanType == scanType;
          assert summaries[1..][i - 1] == summaries[i];
        }
      }
      assert HasType(summaries, scanType) ==>
        exists i :: 0 <= i < |summaries| && summaries[i] == r && (forall j :: 0 <= j < i ==> summaries[j].scanType != scanType) by {
        if HasType(summaries, scanType) {
          var i :| 0 <= i < |summaries[1..]| && summaries[1..][i] == r
            && (forall j :: 0 <= j < i ==> summaries[1..][j].scanType != scanType);
          assert summaries[i + 1] == r;
          forall j | 0 <= j < i + 1
            ensures summaries[j].scanType != scanType
          {
            if j > 0 {
              assert summaries[j] == summaries[1..][j - 1];
            }
          }
        }
      }
      assert !HasType(summaries, scanType) ==> !HasType(summaries[1..], scanType) by {
        if HasType(summaries[1..], scanType) {
          var i :| 0 <= i < |summaries[1..]| && summaries[1..][i].scanType == scanType;
          assert summaries[i + 1].scanType == scanType;
        }
      }
      r
  }

  /** `save!` of a summary: it replaces the first stored summary of its type, or is appended. */
  function Upsert(summaries: seq<MetricSummary>, s: MetricSummary): (r: seq<MetricSummary>)
    ensures s in r
    ensures forall x :: x in r ==> x == s || x in summaries
    ensures forall i :: 0 <= i < |summaries| && summaries[i].scanType != s.scanType ==> summaries[i] in r
    ensures |r| == |summaries| + (if HasType(summaries, s.scanType) then 0 else 1)
  {
    if summaries == [] then [s]
    else if summaries[0].scanType == s.scanType then [s] + summaries[1..]
    else
      assert HasType(summaries, s.scanType) <==> HasType(summaries[1..], s.scanType) by {
        if HasType(summaries, s.scanType) {
          var i :| 0 <= i < |summaries| && summaries[i].scanType == s.scanType;
          assert summaries[1..][i - 1] == summaries[i];
        }
        if HasType(summaries[1..], s.scanType) {
          var i :| 0 <= i < |summaries[1..]| && summaries[1..][i].scanType == s.scanType;
          assert summaries[i + 1].scanType == s.scanType;
        }
      }
      var r := [summaries[0]] + Upsert(summaries[1..], s);
      assert forall i :: 0 <= i < |summaries| && summaries[i].scanType != s.scanType ==> summaries[i] in r by {
        forall i | 0 <= i < |summaries| && summaries[i].scanType != s.scanType
          ensures summaries[i] in r
        {
          if i > 0 {
            assert summaries[1..][i - 1] == summaries[i];
          }
        }
      }
      r
  }

  /** At most one stored summary per scan type, the state `find_or_initialize_by` maintains. */
  predicate UniqueTypes(summaries: seq<MetricSummary>) {
    forall i, j :: 0 <= i < j < |summaries| ==> summaries[i].scanType != summaries[j].scanType
  }

  /** A summary whose type the rest lacks can go in front of it. */
  lemma ConsUnique(x: MetricSummary, tail: seq<MetricSummary>)
    requires UniqueTypes(tail)
    requires forall j :: 0 <= j < |tail| ==> x.scanType != tail[j].scanType
    ensures UniqueTypes([x] + tail)
  {
    var r := [x] + tail;
    forall i, j | 0 <= i < j < |r|
      ensures r[i].scanType != r[j].scanType
    {
      assert r[j] == tail[j - 1];
      if i > 0 {
        assert r[i] == tail[i - 1];
      }
    }
  }

  /** Saving keeps one summary per type. */
  lemma {:induction false} UpsertUnique(summaries: seq<MetricSummary>, s: MetricSummary)
    requires UniqueTypes(summaries)
    ensures UniqueTypes(Upsert(summaries, s))
    decreases |summaries|
  {
    if summaries != [] {
      var rest := summaries[1..];
      assert UniqueTypes(rest) by {
        forall i, j | 0 <= i < j < |rest|
          ensures rest[i].scanType != rest[j].scanType
        {
          assert rest[i] == summaries[i + 1] && rest[j] == summaries[j + 1];
        }
      }
      forall j | 0 <= j < |rest|
        ensures summaries[0].scanType != rest[j].scanType
      {
        assert rest[j] == summaries[j + 1];
      }
      if summaries[0].scanType != s.scanType {
        UpsertUnique(rest, s);
        var tail := Upsert(rest, s);
        forall j | 0 <= j < |tail|
          ensures summaries[0].scanType != tail[j].scanType
        {
          assert tail[j] == s || tail[j] in rest;
        }
        ConsUnique(summaries[0], tail);
      } else {
        ConsUnique(s, rest);
      }
    }
  }

  /** With one summary per type, the latest of a type is the one stored. */
  lemma UniqueLatest(summaries: seq<MetricSummary>, s: MetricSummary)
    requires UniqueTypes(summaries) && s in summaries
    ensures s.scanType in LatestByType(summaries)
    ensures LatestByType(summaries)[s.scanType] == s
  {
    var k :| 0 <= k < |summaries| && summaries[k] == s;
    var latest := LatestByType(summaries)[s.scanType];
    var m :| 0 <= m < |summaries| && summaries[m] == latest;
    assert m == k;
  }

  class App {
    var name: string
    var path: string
    var status: Option<string>
    var lastScannedAt: Option<int>
    var qualityScans: seq<QualityScanModel.QualityScan>
    var metricSummaries: seq<MetricSummary>

    /** A new app has no status, has never been scanned and has no results. */
    constructor (name: string, path: string)
      ensures this.name == name && this.path == path
      ensures status.None? && lastScannedAt.None?
      ensures qualityScans == [] && metricSummaries == []
    {
      this.name := name;
      this.path := path;
      status := None;
      lastScannedAt := None;
      qualityScans := [];
      metricSummaries := [];
    }

    /** `find_or_initialize_by(scan_type: t)` on the app's summaries. */
    function SummaryFor(scanType: string): (r: MetricSummary)
      reads this
      ensures r.scanType == scanType
      ensures r in metricSummaries <==> HasType(metricSummaries, scanType)
    {
      FindOrInitialize(metricSummaries, scanType)
    }

    /**
     * The first half of a scanner's `save_results`: delete the stored scans
     * of its type, then `create!` each result in order. `create!` raises on
     * an invalid record, so every result must pass validation.
     */
    method ReplaceScans(scanType: string, results: seq<QualityScanModel.QualityScan>)
      requires forall i :: 0 <= i < |results| ==> QualityScanModel.Valid(results[i])
      modifies this
      ensures qualityScans == WithoutType(old(qualityScans), scanType) + results
      ensures metricSummaries == old(metricSummaries)
      ensures name == old(name) && path == old(path) && status == old(status) && lastScannedAt == old(lastScannedAt)
    {
      qualityScans := WithoutType(qualityScans, scanType);
      ghost var kept := qualityScans;
      var i := 0;
      while i < |results|
        invariant 0 <= i <= |results|
        invariant qualityScans == kept + results[..i]
        invariant metricSummaries == old(metricSummaries)
        invariant name == old(name) && path == old(path) && status == old(status) && lastScannedAt == old(lastScannedAt)
      {
        qualityScans := qualityScans + [results[i]];
        assert results[..i + 1] == results[..i] + [results[i]];
        i := i + 1;
      }
      assert results[..i] == results;
    }

    /** The `save!` that ends `create_summary`. */
    method SaveSummary(summary: MetricSummary)
      modifies this
      ensures metricSummaries == Upsert(old(metricSummaries), summary)
      ensures qualityScans == old(qualityScans)
      ensures name == old(name) && path == old(path) && status == old(status) && lastScannedAt == old(lastScannedAt)
    {
      metricSummaries := Upsert(metricSummaries, summary);
    }

    /** `scan_status_color`: green, yellow and red for the three statuses; anything else, nil included, is gray. */
    function ScanStatusColor(): (c: string)
      reads this
      ensures c == "green" <==> status == Some("healthy")
      ensures c == "yellow" <==> status == Some("warning")
      ensures c == "red" <==> status == Some("critical")
      ensures c == "gray" <==> status !in {Some("healthy"), Some("warning"), Some("critical")}
    {
      ColorOf(status)
    }

    /**
     * `latest_summaries`: one entry per scan type among the app's summaries,
     * holding a summary of that type that no other summary of the type
     * postdates.
     */
    function LatestSummaries(): (r: map<string, MetricSummary>)
      reads this
      ensures forall k :: k in r <==> exists i :: 0 <= i < |metricSummaries| && metricSummaries[i].scanType == k
      ensures forall k :: k in r ==> r[k] in metricSummaries && r[k].scanType == k
      ensures forall i :: 0 <= i < |metricSummaries| ==>
        metricSummaries[i].scannedAt <= r[metricSummaries[i].scanType].scannedAt
    {
      var r := LatestByType(metricSummaries);
      assert forall i :: 0 <= i < |metricSummaries| ==>
        metricSummaries[i].scannedAt <= r[metricSummaries[i].scanType].scannedAt by {
        forall i | 0 <= i < |metricSummaries|
          ensures metricSummaries[i].scannedAt <= r[metricSummaries[i].scanType].scannedAt
        {
          LatestByTypeIsLatest(metricSummaries, i);
        }
      }
      r
    }
  }
}
