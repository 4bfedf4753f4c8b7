/**
 * The table the examples page sends to the browser: for each filterable
 * column that has values, the value at each of the 21 marks 0, 5, ..., 100,
 * read from the column's non-null values sorted ascending.
 */
module PercentileTable {
  import opened Wrappers
  import opened ExampleModel
  import Numeric
  import Sorting
  import SliderLabels
  import Ranking

  /** The columns the table is built for, in order (they match the browser's filterable columns). */
  const FilterableColumns: seq<MetricColumn> := [PriorityColumn, ScoreColumn, ComplexityColumn, SpeedColumn,
                                                 QualityColumn, AverageMetricsColumn]

  /**
   * `((n - 1) * p / 100.0).round`: the integer nearest to `(n - 1) * p / 100`,
   * halves up, which lies in `0..n-1`.
   */
  function MarkIndex(n: nat, p: nat): (i: nat)
    requires n > 0 && p <= 100
    ensures i < n
    ensures (2 * i - 1) * 100 <= 2 * (n - 1) * p < (2 * i + 1) * 100
  {
    var m := n - 1;
    assert m * p <= m * 100 by {
      if m > 0 {
        Numeric.MulLeMonotone(p, 100, m);
      }
    }
    (m * p + 50) / 100
  }

  lemma MarkIndexMonotone(n: nat, p1: nat, p2: nat)
    requires n > 0 && p1 <= p2 <= 100
    ensures MarkIndex(n, p1) <= MarkIndex(n, p2)
  {
    if n > 1 {
      Numeric.MulLeMonotone(p1, p2, n - 1);
    }
    assert (n - 1) * p1 <= (n - 1) * p2;
  }

  /** Mark 0 reads the first value and mark 100 the last. */
  lemma MarkIndexEnds(n: nat)
    requires n > 0
    ensures MarkIndex(n, 0) == 0 && MarkIndex(n, 100) == n - 1
  {
  }

  /** Ten values: mark 50 reads index `round(9 * 50 / 100) = 5`. */
  lemma MarkIndexOfTen()
    ensures MarkIndex(10, 50) == 5
  {
  }

  /**
   * One column's table in insertion order: the entry for mark `5 * k` is the
   * value at `MarkIndex` of the sorted values, rounded to two places.
   */
  function ColumnTable(values: seq<real>): (t: seq<(int, real)>)
    requires |values| > 0
  {
    seq(21, k requires 0 <= k < 21 => (5 * k, Numeric.RoundHundredths(values[MarkIndex(|values|, 5 * k)])))
  }

  /** The hash as the browser reads it: mark to value, a later entry for the same mark winning. */
  function AsMap(t: seq<(int, real)>): (r: map<int, real>)
    ensures forall k :: 0 <= k < |t| ==> t[k].0 in r
  {
    if t == [] then map[] else AsMap(t[..|t| - 1])[t[|t| - 1].0 := t[|t| - 1].1]
  }

  predicate DistinctMarks(t: seq<(int, real)>) {
    forall i, j :: 0 <= i < j < |t| ==> t[i].0 != t[j].0
  }

  lemma {:induction false} AsMapLookup(t: seq<(int, real)>, k: nat)
    requires DistinctMarks(t) && k < |t|
    ensures AsMap(t)[t[k].0] == t[k].1
  {
    if k < |t| - 1 {
      var u := t[..|t| - 1];
      assert u[k] == t[k];
      AsMapLookup(u, k);
    }
  }

  lemma {:induction false} AsMapKeys(t: seq<(int, real)>, m: int)
    requires m in AsMap(t)
    ensures exists k :: 0 <= k < |t| && t[k].0 == m
  {
    var u := t[..|t| - 1];
    if m != t[|t| - 1].0 {
      AsMapKeys(u, m);
      var k :| 0 <= k < |u| && u[k].0 == m;
      assert t[k].0 == m;
    }
  }

  /** The table has exactly the 21 marks 0, 5, ..., 100 as keys. */
  lemma TableMarks(values: seq<real>)
    requires |values| > 0
    ensures SliderLabels.FullTable(AsMap(ColumnTable(values)))
    ensures forall m :: m in AsMap(ColumnTable(values)) ==> 0 <= m <= 100 && m % 5 == 0
  {
    var t := ColumnTable(values);
    forall m | 0 <= m <= 100 && m % 5 == 0
      ensures m in AsMap(t)
    {
      assert t[m / 5].0 == m;
    }
    forall m | m in AsMap(t)
      ensures 0 <= m <= 100 && m % 5 == 0
    {
      AsMapKeys(t, m);
    }
  }

  /** The browser's entry at mark `5 * k` is the value at `MarkIndex`, rounded to two places. */
  lemma TableLookup(values: seq<real>, k: nat)
    requires |values| > 0 && k <= 20
    ensures 5 * k in AsMap(ColumnTable(values))
    ensures AsMap(ColumnTable(values))[5 * k] == Numeric.RoundHundredths(values[MarkIndex(|values|, 5 * k)])
  {
    var t := ColumnTable(values);
    assert DistinctMarks(t);
    AsMapLookup(t, k);
  }

  /** On sorted values, mark 0 reads the smallest value and mark 100 the largest (both rounded). */
  lemma TableEnds(values: seq<real>)
    requires |values| > 0 && Ranking.SortedAsc(values)
    ensures 0 in AsMap(ColumnTable(values)) && 100 in AsMap(ColumnTable(values))
    ensures AsMap(ColumnTable(values))[0] == Numeric.RoundHundredths(values[0])
    ensures AsMap(ColumnTable(values))[100] == Numeric.RoundHundredths(values[|values| - 1])
    ensures forall i :: 0 <= i < |values| ==>
      AsMap(ColumnTable(values))[0] <= Numeric.RoundHundredths(values[i]) <= AsMap(ColumnTable(values))[100]
  {
    TableLookup(values, 0);
    TableLookup(values, 20);
    MarkIndexEnds(|values|);
    forall i | 0 <= i < |values|
      ensures Numeric.RoundHundredths(values[0]) <= Numeric.RoundHundredths(values[i])
                <= Numeric.RoundHundredths(values[|values| - 1])
    {
      Numeric.RoundHundredthsMonotone(values[0], values[i]);
      Numeric.RoundHundredthsMonotone(values[i], values[|values| - 1]);
    }
  }

  /** On sorted values the table never decreases from one mark to a later one. */
  lemma TableMonotone(values: seq<real>)
    requires |values| > 0 && Ranking.SortedAsc(values)
    ensures SliderLabels.MonotoneTable(AsMap(ColumnTable(values)))
  {
    var data := AsMap(ColumnTable(values));
    TableMarks(values);
    forall m1, m2 | m1 in data && m2 in data && m1 <= m2
      ensures data[m1] <= data[m2]
    {
      TableLookup(values, m1 / 5);
      TableLookup(values, m2 / 5);
      MarkIndexMonotone(|values|, m1, m2);
      Numeric.RoundHundredthsMonotone(values[MarkIndex(|values|, m1)], values[MarkIndex(|values|, m2)]);
    }
  }

  /** The inner loop: the value at each mark `p` in 0, 5, ..., 100, appended in that order. */
  method ColumnPercentiles(values: seq<real>) returns (table: seq<(int, real)>)
    requires |values| > 0
    ensures table == ColumnTable(values)
  {
    table := [];
    var p := 0;
    while p <= 100
      invariant p % 5 == 0 && p <= 105
      invariant table == ColumnTable(values)[..p / 5]
    {
      var index := MarkIndex(|values|, p);
      table := table + [(p, Numeric.RoundHundredths(values[index]))];
      p := p + 5;
    }
  }

  /**
   * `calculate_percentile_values`: for every filterable column with at least
   * one non-null value, the 21-entry table of its sorted values; a column
   * without values gets no entry.
   */
  method CalculatePercentileValues(examples: seq<Example>) returns (percentiles: map<MetricColumn, seq<(int, real)>>)
    ensures forall c :: c in percentiles <==> c in FilterableColumns && ColumnValues(examples, c) != []
    ensures forall c :: c in percentiles ==>
      percentiles[c] == ColumnTable(Sorting.SortAsc(ColumnValues(examples, c)))
  {
    var columns := FilterableColumns;
    percentiles := map[];
    var i := 0;
    while i < |columns|
      invariant 0 <= i <= |columns|
      invariant forall c :: c in percentiles <==> c in columns[..i] && ColumnValues(examples, c) != []
      invariant forall c :: c in percentiles ==>
        percentiles[c] == ColumnTable(Sorting.SortAsc(ColumnValues(examples, c)))
    {
      var column := columns[i];
      var values := Sorting.SortAsc(ColumnValues(examples, column));
      if values != [] {
        var table := ColumnPercentiles(values);
        percentiles := percentiles[column := table];
      }
      assert columns[..i + 1] == columns[..i] + [column];
      i := i + 1;
    }
    assert columns[..i] == columns;
  }
}
