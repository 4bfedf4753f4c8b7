/**
 * The example service: statistics over all records, the two canned queries
 * (top performers and records that need attention), the percentile rank of a
 * value within a column, and the bulk status update that runs as one
 * transaction. The database is the sequence of records.
 */
module ExampleService {
  import opened Wrappers
  import opened ExampleModel
  import Numeric
  import Sorting
  import Ranking
  import Text

  // ---------------------------------------------------------------------
  // calculate_statistics
  // ---------------------------------------------------------------------

  /** SQL `AVG(column)` rounded to two places: nil when no record has a value. */
  function AverageOf(values: seq<real>): (r: Option<real>)
    ensures r.None? <==> values == []
    ensures r.Some? ==> r.value == Numeric.RoundHundredths(Numeric.Mean(values))
    ensures r.Some? ==> (r.value * 100.0).Floor as real == r.value * 100.0
    ensures r.Some? ==> Numeric.Mean(values) - 0.005 <= r.value <= Numeric.Mean(values) + 0.005
  {
    if values == [] then None else Some(Numeric.RoundHundredths(Numeric.Mean(values)))
  }

  datatype Statistics = Statistics(totalCount: nat, completedCount: nat, inProgressCount: nat, newCount: nat,
                                   completionRate: real, averageScore: Option<real>,
                                   averagePriority: Option<real>)

  /** `Example.where(status: s).count`. */
  function StatusCount(examples: seq<Example>, status: string): (n: nat)
    ensures n <= |examples|
  {
    Sorting.Count(examples, (e: Example) => e.status == Some(status))
  }

  /** A status count counts, record by record, those with exactly that status. */
  lemma StatusCountAppend(examples: seq<Example>, e: Example, status: string)
    ensures StatusCount([], status) == 0
    ensures StatusCount(examples + [e], status)
         == StatusCount(examples, status) + (if e.status == Some(status) then 1 else 0)
  {
    Sorting.CountAppend(examples, [e], (x: Example) => x.status == Some(status));
  }

  /**
   * `calculate_statistics`. Each status count is the count of records with
   * that status; the completion rate is completed over total, and 0 for an
   * empty table; each average is the column's rounded average, nil exactly
   * when no record has that field.
   */
  function CalculateStatistics(examples: seq<Example>): (r: Statistics)
    ensures r.totalCount == |examples|
    ensures |examples| == 0 ==> r.completionRate == 0.0
    ensures |examples| > 0 ==> r.completionRate == r.completedCount as real / |examples| as real
    ensures 0.0 <= r.completionRate <= 1.0
    ensures r.averageScore.None? <==> forall j :: 0 <= j < |examples| ==> examples[j].score.None?
    ensures r.averagePriority.None? <==> forall j :: 0 <= j < |examples| ==> examples[j].priority.None?
    ensures r.completedCount == StatusCount(examples, "completed")
    ensures r.inProgressCount == StatusCount(examples, "in_progress")
    ensures r.newCount == StatusCount(examples, "new")
    ensures r.averageScore == AverageOf(ColumnValues(examples, ScoreColumn))
    ensures r.averagePriority == AverageOf(ColumnValues(examples, PriorityColumn))
  {
    ColumnValuesEmpty(examples, ScoreColumn);
    ColumnValuesEmpty(examples, PriorityColumn);
    var total := |examples|;
    var completed := StatusCount(examples, "completed");
    assert total > 0 ==> 0.0 <= completed as real / total as real <= 1.0 by {
      if total > 0 {
        Numeric.FractionInUnit(completed, total);
      }
    }
    Statistics(total, completed, StatusCount(examples, "in_progress"), StatusCount(examples, "new"),
               if total > 0 then completed as real / total as real else 0.0,
               AverageOf(ColumnValues(examples, ScoreColumn)), AverageOf(ColumnValues(examples, PriorityColumn)))
  }

  /** A record has at most one status, so the three status counts never exceed the total. */
  lemma {:induction false} StatusCountsBounded(examples: seq<Example>)
    ensures StatusCount(examples, "completed") + StatusCount(examples, "in_progress")
            + StatusCount(examples, "new") <= |examples|
    decreases |examples|
  {
    if examples != [] {
      StatusCountsBounded(examples[1..]);
    }
  }

  /**
   * The statistics' new and completed counts are the numbers of records for
   * which `new?` and `completed?` hold; since no record is both, the two
   * together never exceed the total.
   */
  lemma StatusCountsMatchPredicates(examples: seq<Example>)
    ensures CalculateStatistics(examples).newCount == Sorting.Count(examples, IsNew)
    ensures CalculateStatistics(examples).completedCount == Sorting.Count(examples, IsCompleted)
    ensures Sorting.Count(examples, IsNew) + Sorting.Count(examples, IsCompleted) <= |examples|
  {
    var isNew := (e: Example) => e.status == Some("new");
    var isCompleted := (e: Example) => e.status == Some("completed");
    Sorting.CountMonotone(examples, isNew, IsNew);
    Sorting.CountMonotone(examples, IsNew, isNew);
    Sorting.CountMonotone(examples, isCompleted, IsCompleted);
    Sorting.CountMonotone(examples, IsCompleted, isCompleted);
    StatusCountsBounded(examples);
  }

  /** Over valid records the average score lies in 0..100 and the average priority in 1..5. */
  lemma StatisticsOfValid(examples: seq<Example>)
    requires forall j :: 0 <= j < |examples| ==> Valid(examples[j])
    ensures var r := CalculateStatistics(examples);
      && (r.averageScore.Some? ==> 0.0 <= r.averageScore.value <= 100.0)
      && (r.averagePriority.Some? ==> 1.0 <= r.averagePriority.value <= 5.0)
  {
    ValuesInRange(examples, ScoreColumn, 0.0, 100.0);
    ValuesInRange(examples, PriorityColumn, 1.0, 5.0);
    assert Numeric.RoundHundredths(0.0) == 0.0 && Numeric.RoundHundredths(100.0) == 100.0;
    assert Numeric.RoundHundredths(1.0) == 1.0 && Numeric.RoundHundredths(5.0) == 5.0;
    AverageInRange(ColumnValues(examples, ScoreColumn), 0.0, 100.0);
    AverageInRange(ColumnValues(examples, PriorityColumn), 1.0, 5.0);
  }

  /** The rounded average of values in a range whose ends are whole hundredths stays in the range. */
  lemma AverageInRange(values: seq<real>, lo: real, hi: real)
    requires forall i :: 0 <= i < |values| ==> lo <= values[i] <= hi
    requires Numeric.RoundHundredths(lo) == lo && Numeric.RoundHundredths(hi) == hi
    ensures AverageOf(values).Some? ==> lo <= AverageOf(values).value <= hi
  {
    if values != [] {
      Numeric.MeanBounds(values, lo, hi);
      Numeric.RoundHundredthsMonotone(lo, Numeric.Mean(values));
      Numeric.RoundHundredthsMonotone(Numeric.Mean(values), hi);
    }
  }

  /** Every value of a column lies in a range that every record's column value lies in. */
  lemma ValuesInRange(examples: seq<Example>, column: MetricColumn, lo: real, hi: real)
    requires column == ScoreColumn || column == PriorityColumn
    requires forall j :: 0 <= j < |examples| ==> Valid(examples[j])
    requires column == ScoreColumn ==> lo == 0.0 && hi == 100.0
    requires column == PriorityColumn ==> lo == 1.0 && hi == 5.0
    ensures forall i :: 0 <= i < |ColumnValues(examples, column)| ==> lo <= ColumnValues(examples, column)[i] <= hi
  {
    var vs := ColumnValues(examples, column);
    forall i | 0 <= i < |vs|
      ensures lo <= vs[i] <= hi
    {
      var j :| 0 <= j < |examples| && ColumnValue(examples[j], column) == Some(vs[i]);
      ValidIff(examples[j]);
    }
  }

  // ---------------------------------------------------------------------
  // top_performers and needs_attention
  // ---------------------------------------------------------------------

  /** `where('score >= ?', min_score).where(status: 'completed')`; a NULL score never qualifies. */
  predicate TopQualifies(e: Example, minScore: real) {
    e.score.Some? && e.score.value >= minScore && e.status == Some("completed")
  }

  /** `order(score: :desc)`. */
  predicate ScoreDesc(a: Example, b: Example) {
    a.score.GetOr(0.0) >= b.score.GetOr(0.0)
  }

  lemma ScoreDescPreorder()
    ensures Sorting.TotalPreorder(ScoreDesc)
  {
  }

  /** `limit(n)`: the first `n` elements, or all of them. */
  function Take<T>(s: seq<T>, n: nat): (r: seq<T>)
    ensures |r| == if |s| <= n then |s| else n
    ensures forall i :: 0 <= i < |r| ==> r[i] == s[i]
  {
    if |s| <= n then s else s[..n]
  }

  /**
   * `top_performers`: at most `limit` completed records scoring at least
   * `min_score`, best score first. Records with equal scores keep their
   * table order.
   */
  function TopPerformers(examples: seq<Example>, limit: nat, minScore: real): (r: seq<Example>)
    ensures |r| <= limit
    ensures |r| == if Sorting.Count(examples, (e: Example) => TopQualifies(e, minScore)) <= limit
                   then Sorting.Count(examples, (e: Example) => TopQualifies(e, minScore)) else limit
    ensures forall i :: 0 <= i < |r| ==> r[i] in examples && TopQualifies(r[i], minScore)
    ensures forall i, j :: 0 <= i < j < |r| ==> r[i].score.value >= r[j].score.value
  {
    var qualifies := (e: Example) => TopQualifies(e, minScore);
    var ordered := Sorting.SortBy(Sorting.Keep(examples, qualifies), ScoreDesc);
    ScoreDescPreorder();
    Sorting.SortedKept(examples, qualifies, ScoreDesc);
    Take(ordered, limit)
  }

  /**
   * The records left out are qualifying records scoring no higher than any
   * record returned; when no more than `limit` qualify, nothing is left out.
   */
  lemma TopPerformersAreTop(examples: seq<Example>, limit: nat, minScore: real)
    ensures var qualifying := Sorting.Keep(examples, (e: Example) => TopQualifies(e, minScore));
      var r := TopPerformers(examples, limit, minScore);
      exists rest: seq<Example> ::
        && multiset(r) + multiset(rest) == multiset(qualifying)
        && (|qualifying| <= limit ==> rest == [])
        && forall x, i :: x in rest && 0 <= i < |r| ==> x.score.GetOr(0.0) <= r[i].score.GetOr(0.0)
  {
    var qualifying := Sorting.Keep(examples, (e: Example) => TopQualifies(e, minScore));
    var ordered := Sorting.SortBy(qualifying, ScoreDesc);
    ScoreDescPreorder();
    Sorting.SortBySorted(qualifying, ScoreDesc);
    var r := TopPerformers(examples, limit, minScore);
    var n := |r|;
    assert r == ordered[..n];
    assert ordered == r + ordered[n..];
    SortedSplit(ordered, n);
  }

  /** In a list sorted best score first, nothing after position `n` beats anything before it. */
  lemma SortedSplit(ordered: seq<Example>, n: nat)
    requires n <= |ordered| && Sorting.SortedBy(ordered, ScoreDesc)
    ensures forall x, i :: x in ordered[n..] && 0 <= i < n ==> x.score.GetOr(0.0) <= ordered[i].score.GetOr(0.0)
  {
    forall x, i | x in ordered[n..] && 0 <= i < n
      ensures x.score.GetOr(0.0) <= ordered[i].score.GetOr(0.0)
    {
      var k :| 0 <= k < |ordered| - n && ordered[n..][k] == x;
      assert ordered[n + k] == x;
    }
  }

  /** `where(priority: [4, 5]).where.not(status: 'completed')`; SQL leaves out a NULL status too. */
  predicate AttentionQualifies(e: Example) {
    (e.priority == Some(4.0) || e.priority == Some(5.0)) && e.status.Some? && e.status.value != "completed"
  }

  /** `order(priority: :desc, created_at: :asc)`. */
  predicate PriorityDescCreatedAsc(a: Example, b: Example) {
    var pa, pb := a.priority.GetOr(0.0), b.priority.GetOr(0.0);
    pa > pb || (pa == pb && a.createdAt <= b.createdAt)
  }

  lemma PriorityDescCreatedAscPreorder()
    ensures Sorting.TotalPreorder(PriorityDescCreatedAsc)
  {
  }

  /**
   * `needs_attention`: exactly the records of priority 4 or 5 that are not
   * completed, highest priority first and, within a priority, oldest first.
   */
  function NeedsAttention(examples: seq<Example>): (r: seq<Example>)
    ensures multiset(r) == multiset(Sorting.Keep(examples, AttentionQualifies))
    ensures forall i :: 0 <= i < |r| ==> AttentionQualifies(r[i])
    ensures forall i, j :: 0 <= i < j < |r| ==>
      r[i].priority.GetOr(0.0) > r[j].priority.GetOr(0.0)
      || (r[i].priority == r[j].priority && r[i].createdAt <= r[j].createdAt)
  {
    var qualifying := Sorting.Keep(examples, AttentionQualifies);
    PriorityDescCreatedAscPreorder();
    Sorting.SortBySorted(qualifying, PriorityDescCreatedAsc);
    var r := Sorting.SortBy(qualifying, PriorityDescCreatedAsc);
    forall i | 0 <= i < |r|
      ensures AttentionQualifies(r[i])
    {
      assert r[i] in multiset(qualifying);
    }
    r
  }

  /** Every qualifying record is returned. */
  lemma NeedsAttentionComplete(examples: seq<Example>, e: Example)
    requires e in examples && AttentionQualifies(e)
    ensures e in NeedsAttention(examples)
  {
    var qualifying := Sorting.Keep(examples, AttentionQualifies);
    var k :| 0 <= k < |examples| && examples[k] == e;
    assert e in qualifying;
    assert e in multiset(NeedsAttention(examples));
  }

  // ---------------------------------------------------------------------
  // calculate_percentile_rank
  // ---------------------------------------------------------------------

  /**
   * `calculate_percentile_rank`: the rank of `score` among the column's
   * non-null values; sorting the sample does not change it.
   */
  function CalculatePercentileRank(examples: seq<Example>, score: real, column: MetricColumn): (r: nat)
    ensures r == Ranking.Rank(ColumnValues(examples, column), score)
    ensures r <= 100
    ensures (forall j :: 0 <= j < |examples| ==> ColumnValue(examples[j], column).None?) ==> r == 0
  {
    Ranking.RankOfSorted(ColumnValues(examples, column), score);
    ColumnValuesEmpty(examples, column);
    Ranking.Rank(Sorting.SortAsc(ColumnValues(examples, column)), score)
  }

  /** A record without a value in the column does not change any rank. */
  lemma PercentileRankIgnoresNull(examples: seq<Example>, e: Example, score: real, column: MetricColumn)
    requires ColumnValue(e, column).None?
    ensures CalculatePercentileRank(examples + [e], score, column) == CalculatePercentileRank(examples, score, column)
  {
    assert (examples + [e])[..|examples + [e]| - 1] == examples;
  }

  /** A score at or above every value of the column ranks 100. */
  lemma PercentileRankAtOrAboveMax(examples: seq<Example>, score: real, column: MetricColumn)
    requires |ColumnValues(examples, column)| > 0
    requires forall i :: 0 <= i < |ColumnValues(examples, column)| ==> ColumnValues(examples, column)[i] <= score
    ensures CalculatePercentileRank(examples, score, column) == 100
  {
    Ranking.RankAtOrAboveMax(ColumnValues(examples, column), score);
  }

  /** A score below every value of the column ranks 0. */
  lemma PercentileRankBelowMin(examples: seq<Example>, score: real, column: MetricColumn)
    requires forall i :: 0 <= i < |ColumnValues(examples, column)| ==> ColumnValues(examples, column)[i] > score
    ensures CalculatePercentileRank(examples, score, column) == 0
  {
    Ranking.RankBelowMin(ColumnValues(examples, column), score);
  }

  /** Scores 10, 25, 50, 75, 90: 50 ranks 60, 10 ranks 20, and 90 ranks 100. */
  lemma PercentileRankExample(examples: seq<Example>)
    requires ColumnValues(examples, ScoreColumn) == [10.0, 25.0, 50.0, 75.0, 90.0]
    ensures CalculatePercentileRank(examples, 50.0, ScoreColumn) == 60
    ensures CalculatePercentileRank(examples, 10.0, ScoreColumn) == 20
    ensures CalculatePercentileRank(examples, 90.0, ScoreColumn) == 100
  {
    Ranking.RankExamples();
  }

  // ---------------------------------------------------------------------
  // bulk_update_status
  // ---------------------------------------------------------------------

  /** `Example.find_by(id: id)`: the position of the first record with that id. */
  function Find(records: seq<Example>, id: int): (r: Option<nat>)
    ensures r.Some? ==> r.value < |records| && records[r.value].id == id
    ensures r.Some? ==> forall j :: 0 <= j < r.value ==> records[j].id != id
    ensures r.None? ==> forall j :: 0 <= j < |records| ==> records[j].id != id
  {
    if records == [] then None
    else if records[0].id == id then Some(0)
    else match Find(records[1..], id)
      case None => None
      case Some(k) => Some(k + 1)
  }

  /** Two tables that hold the same records up to their statuses. */
  predicate SameExceptStatus(a: seq<Example>, b: seq<Example>) {
    |a| == |b| && forall j :: 0 <= j < |a| ==> a[j].(status := b[j].status) == b[j]
  }

  /** `find_by` looks only at ids, so a status change does not move it. */
  lemma {:induction false} FindSameExceptStatus(a: seq<Example>, b: seq<Example>, id: int)
    requires SameExceptStatus(a, b)
    ensures Find(a, id) == Find(b, id)
    decreases |a|
  {
    if a != [] {
      assert a[0].id == b[0].id;
      assert SameExceptStatus(a[1..], b[1..]) by {
        forall j | 0 <= j < |a| - 1
          ensures a[1..][j].(status := b[1..][j].status) == b[1..][j]
        {
          assert a[1..][j] == a[j + 1] && b[1..][j] == b[j + 1];
        }
      }
      FindSameExceptStatus(a[1..], b[1..], id);
    }
  }

  /** The transaction either commits a new table and a count, or rolls back after `count` updates. */
  datatype BatchOutcome = Committed(records: seq<Example>, count: nat) | RolledBack(count: nat)

  /**
   * The transaction block, id by id: a missing id is skipped; a found
   * record is updated when the record with the new status is valid, and
   * otherwise the whole batch rolls back.
   */
  function Batch(records: seq<Example>, ids: seq<int>, newStatus: string, count: nat): BatchOutcome
    decreases |ids|
  {
    if ids == [] then Committed(records, count)
    else match Find(records, ids[0])
      case None => Batch(records, ids[1..], newStatus, count)
      case Some(i) =>
        var updated := records[i].(status := Some(newStatus));
        if Valid(updated) then Batch(records[i := updated], ids[1..], newStatus, count + 1)
        else RolledBack(count)
  }

  /** Every id that is found names a record that is valid with the new status. */
  predicate AllUpdatesValid(records: seq<Example>, ids: seq<int>, newStatus: string) {
    forall k :: 0 <= k < |ids| && Find(records, ids[k]).Some? ==>
      Valid(records[Find(records, ids[k]).value].(status := Some(newStatus)))
  }

  /** The number of ids that name a record. */
  function FoundCount(records: seq<Example>, ids: seq<int>): (n: nat)
    ensures n <= |ids|
  {
    if ids == [] then 0 else (if Find(records, ids[0]).Some? then 1 else 0) + FoundCount(records, ids[1..])
  }

  /** The positions of the records the ids name. */
  function Targets(records: seq<Example>, ids: seq<int>): (t: set<nat>)
    ensures forall j :: j in t ==> j < |records|
  {
    if ids == [] then {}
    else (if Find(records, ids[0]).Some? then {Find(records, ids[0]).value} else {}) + Targets(records, ids[1..])
  }

  lemma {:induction false} TargetsSameExceptStatus(a: seq<Example>, b: seq<Example>, ids: seq<int>)
    requires SameExceptStatus(a, b)
    ensures Targets(a, ids) == Targets(b, ids) && FoundCount(a, ids) == FoundCount(b, ids)
    decreases |ids|
  {
    if ids != [] {
      FindSameExceptStatus(a, b, ids[0]);
      TargetsSameExceptStatus(a, b, ids[1..]);
    }
  }

  /** A position is a target exactly when some id names it. */
  lemma {:induction false} TargetsIff(records: seq<Example>, ids: seq<int>, j: nat)
    ensures j in Targets(records, ids) <==> exists k :: 0 <= k < |ids| && Find(records, ids[k]) == Some(j)
    decreases |ids|
  {
    if ids != [] {
      TargetsIff(records, ids[1..], j);
      if j in Targets(records, ids[1..]) {
        var k :| 0 <= k < |ids[1..]| && Find(records, ids[1..][k]) == Some(j);
        assert ids[k + 1] == ids[1..][k];
      }
      if exists k :: 0 <= k < |ids| && Find(records, ids[k]) == Some(j) {
        var k :| 0 <= k < |ids| && Find(records, ids[k]) == Some(j);
        if k > 0 {
          assert ids[1..][k - 1] == ids[k];
        }
      }
    }
  }

  /** Updating one record's status keeps the rest of the table and its ids. */
  lemma SetStatusSameExceptStatus(cur: seq<Example>, orig: seq<Example>, i: nat, s: string)
    requires SameExceptStatus(cur, orig) && i < |cur|
    ensures SameExceptStatus(cur[i := cur[i].(status := Some(s))], orig)
  {
  }

  /** The batch commits exactly when every found record is valid with the new status. */
  lemma {:induction false} BatchCommitsIff(cur: seq<Example>, orig: seq<Example>, ids: seq<int>, newStatus: string,
                                          count: nat)
    requires SameExceptStatus(cur, orig)
    ensures Batch(cur, ids, newStatus, count).Committed? <==> AllUpdatesValid(orig, ids, newStatus)
    decreases |ids|
  {
    if ids != [] {
      FindSameExceptStatus(cur, orig, ids[0]);
      assert forall k :: 0 <= k < |ids| - 1 ==> ids[1..][k] == ids[k + 1];
      match Find(cur, ids[0])
      case None =>
        BatchCommitsIff(cur, orig, ids[1..], newStatus, count);
      case Some(i) =>
        var updated := cur[i].(status := Some(newStatus));
        assert updated == orig[i].(status := Some(newStatus));
        if Valid(updated) {
          SetStatusSameExceptStatus(cur, orig, i, newStatus);
          BatchCommitsIff(cur[i := updated], orig, ids[1..], newStatus, count + 1);
        }
    }
  }

  /**
   * A committed batch counts every id that names a record and sets the new
   * status on exactly the records the ids name, leaving everything else.
   */
  lemma {:induction false} BatchCommitted(cur: seq<Example>, orig: seq<Example>, ids: seq<int>, newStatus: string,
                                         count: nat)
    requires SameExceptStatus(cur, orig)
    requires Batch(cur, ids, newStatus, count).Committed?
    ensures var out := Batch(cur, ids, newStatus, count);
      && out.count == count + FoundCount(orig, ids)
      && |out.records| == |cur|
      && forall j :: 0 <= j < |cur| ==>
        out.records[j] == if j in Targets(orig, ids) then cur[j].(status := Some(newStatus)) else cur[j]
    decreases |ids|
  {
    if ids != [] {
      FindSameExceptStatus(cur, orig, ids[0]);
      match Find(cur, ids[0])
      case None =>
        BatchCommitted(cur, orig, ids[1..], newStatus, count);
      case Some(i) =>
        var updated := cur[i].(status := Some(newStatus));
        SetStatusSameExceptStatus(cur, orig, i, newStatus);
        BatchCommitted(cur[i := updated], orig, ids[1..], newStatus, count + 1);
    }
  }

  /** The result of `bulk_update_status`: `{success: true, updated_count:}` or `{success: false, error:}`. */
  datatype BulkResult = Success(updatedCount: nat) | Failure(error: string) | RolledBackFailure(updatedBeforeRollback: nat)

  /**
   * `bulk_update_status` as written: after a rollback it still reports
   * success, with the number of updates that were undone.
   */
  function BulkUpdateAsWritten(records: seq<Example>, ids: seq<int>, newStatus: string): (r: (BulkResult, seq<Example>))
    ensures newStatus !in Statuses ==> r == (Failure("Invalid status"), records)
    ensures r.0.Failure? || r.0.Success?
  {
    if newStatus !in Statuses then (Failure("Invalid status"), records)
    else match Batch(records, ids, newStatus, 0)
      case Committed(updated, count) => (Success(count), updated)
      case RolledBack(count) => (Success(count), records)
  }

  /**
   * `bulk_update_status` with the rollback reported as a failure: the
   * result and the table afterwards.
   */
  function BulkUpdate(records: seq<Example>, ids: seq<int>, newStatus: string): (r: (BulkResult, seq<Example>))
    ensures newStatus !in Statuses ==> r == (Failure("Invalid status"), records)
    ensures !r.0.Success? ==> r.1 == records
  {
    if newStatus !in Statuses then (Failure("Invalid status"), records)
    else match Batch(records, ids, newStatus, 0)
      case Committed(updated, count) => (Success(count), updated)
      case RolledBack(count) => (RolledBackFailure(count), records)
  }

  /**
   * With a known status, the update succeeds exactly when every record the
   * ids name is valid with it; it then reports how many ids named a record
   * and changes exactly those records' statuses. Otherwise nothing changes.
   */
  lemma BulkUpdateOutcome(records: seq<Example>, ids: seq<int>, newStatus: string)
    requires newStatus in Statuses
    ensures var (result, after) := BulkUpdate(records, ids, newStatus);
      && (result.Success? <==> AllUpdatesValid(records, ids, newStatus))
      && (result.Success? ==> result.updatedCount == FoundCount(records, ids))
      && |after| == |records|
      && forall j :: 0 <= j < |records| ==>
        after[j] == if result.Success? && j in Targets(records, ids)
                    then records[j].(status := Some(newStatus)) else records[j]
  {
    BatchCommitsIff(records, records, ids, newStatus, 0);
    if AllUpdatesValid(records, ids, newStatus) {
      BatchCommitted(records, records, ids, newStatus, 0);
    }
  }

  /**
   * The source's result after a rollback: two records, the second without a
   * name. Updating both reports one successful update although the table is
   * unchanged; the corrected result reports the failure.
   */
  lemma BulkUpdateRollbackReportsSuccess()
    ensures var good := Example(1, Some("a"), None, Some("new"), None, None, None, None, None, 0);
      var bad := Example(2, None, None, Some("new"), None, None, None, None, None, 0);
      && BulkUpdateAsWritten([good, bad], [1, 2], "completed") == (Success(1), [good, bad])
      && BulkUpdate([good, bad], [1, 2], "completed") == (RolledBackFailure(1), [good, bad])
  {
    var good := Example(1, Some("a"), None, Some("new"), None, None, None, None, None, 0);
    var bad := Example(2, None, None, Some("new"), None, None, None, None, None, 0);
    RollbackBatch(good, bad);
  }

  /** The batch behind `BulkUpdateRollbackReportsSuccess`: the first update is valid, the second is not. */
  lemma RollbackBatch(good: Example, bad: Example)
    requires good == Example(1, Some("a"), None, Some("new"), None, None, None, None, None, 0)
    requires bad == Example(2, None, None, Some("new"), None, None, None, None, None, 0)
    ensures Batch([good, bad], [1, 2], "completed", 0) == RolledBack(1)
  {
    var good2 := good.(status := Some("completed"));
    RollbackFirstStep(good, bad);
    CompletedNamelessInvalid(bad.(status := Some("completed")));
    assert Find([good2, bad], 2) == Some(1);
  }

  /** The first id of that batch names a record that stays valid, so the batch moves on to the second. */
  lemma RollbackFirstStep(good: Example, bad: Example)
    requires good == Example(1, Some("a"), None, Some("new"), None, None, None, None, None, 0)
    requires bad.id == 2
    ensures Batch([good, bad], [1, 2], "completed", 0)
         == Batch([good.(status := Some("completed")), bad], [2], "completed", 1)
  {
    var good2 := good.(status := Some("completed"));
    CompletedNamedValid(good2);
    assert Find([good, bad], 1) == Some(0);
    assert [good, bad][0 := good2] == [good2, bad];
  }

  /** A completed record named "a" with no other attributes is valid. */
  lemma CompletedNamedValid(e: Example)
    requires e == Example(1, Some("a"), None, Some("completed"), None, None, None, None, None, 0)
    ensures Valid(e)
  {
    ValidIff(e);
    assert !Blank(e.name) by {
      assert !Text.IsSpace(e.name.value[0]);
    }
  }

  /** A record without a name is invalid, whatever its status. */
  lemma CompletedNamelessInvalid(e: Example)
    requires e == Example(2, None, None, Some("completed"), None, None, None, None, None, 0)
    ensures !Valid(e)
  {
    ValidIff(e);
  }

  /** The examples table as the service sees it. */
  class ExampleStore {
    var records: seq<Example>

    constructor(records: seq<Example>)
      ensures this.records == records
    {
      this.records := records;
    }

    /**
     * `bulk_update_status`: a status outside `STATUSES` fails at once; the
     * ids are then updated one by one, and the first update that fails
     * validation restores the table as it was.
     */
    method BulkUpdateStatus(ids: seq<int>, newStatus: string) returns (result: BulkResult)
      modifies this
      ensures (result, records) == BulkUpdate(old(records), ids, newStatus)
    {
      if newStatus !in Statuses {
        return Failure("Invalid status");
      }
      var snapshot := records;
      var updatedCount := 0;
      var k := 0;
      while k < |ids|
        invariant 0 <= k <= |ids|
        invariant Batch(records, ids[k..], newStatus, updatedCount) == Batch(snapshot, ids, newStatus, 0)
      {
        assert ids[k..][1..] == ids[k + 1..];
        var found := Find(records, ids[k]);
        if found.Some? {
          var updated := records[found.value].(status := Some(newStatus));
          if Valid(updated) {
            records := records[found.value := updated];
            updatedCount := updatedCount + 1;
          } else {
            records := snapshot;
            return RolledBackFailure(updatedCount);
          }
        }
        k := k + 1;
      }
      result := Success(updatedCount);
    }
  }
}
