/**
 * The value range shown next to a featured column's slider. The server sends,
 * per column, a table from the marks 0, 5, ..., 100 to the column's value at
 * that percentile; a percentile between two marks is interpolated linearly.
 */
module SliderLabels {
  import opened Wrappers

  /** A column's percentile table: mark to value. */
  type Table = map<int, real>

  /** `Math.floor(p / 5) * 5`. */
  function LowerMark(p: int): (m: int)
    ensures m % 5 == 0 && m <= p < m + 5
  {
    (p / 5) * 5
  }

  /** `Math.ceil(p / 5) * 5`. */
  function UpperMark(p: int): (m: int)
    ensures m % 5 == 0 && m - 5 < p <= m
    ensures p % 5 == 0 <==> m == LowerMark(p)
  {
    if p % 5 == 0 then p else LowerMark(p) + 5
  }

  function Min(a: real, b: real): real { if a <= b then a else b }
  function Max(a: real, b: real): real { if a <= b then b else a }

  /**
   * `interpolateValue`. At a mark the table entry itself, except that a
   * missing entry and an entry equal to 0 both give null (`value || null`).
   * Between marks, the point on the line through the two neighbouring
   * entries, or null when either is missing.
   */
  function InterpolateValue(data: Table, p: int): (r: Option<real>)
    ensures p % 5 == 0 ==> r == (if p in data && data[p] != 0.0 then Some(data[p]) else None)
    ensures p % 5 != 0 ==> (r.Some? <==> LowerMark(p) in data && UpperMark(p) in data)
    ensures p % 5 != 0 && r.Some? ==>
      var lo, hi := data[LowerMark(p)], data[UpperMark(p)];
      && Min(lo, hi) <= r.value <= Max(lo, hi)
      && (r.value - lo) * 5.0 == (p - LowerMark(p)) as real * (hi - lo)
  {
    var lowerP, upperP := LowerMark(p), UpperMark(p);
    if lowerP == upperP then
      if lowerP in data && data[lowerP] != 0.0 then Some(data[lowerP]) else None
    else if lowerP !in data || upperP !in data then None
    else
      var lowerV, upperV := data[lowerP], data[upperP];
      var fraction := (p - lowerP) as real / (upperP - lowerP) as real;
      assert 0.0 < fraction < 1.0;
      InterpolationBetween(lowerV, upperV, fraction);
      Some(lowerV + fraction * (upperV - lowerV))
  }

  lemma InterpolationBetween(a: real, b: real, t: real)
    requires 0.0 <= t <= 1.0
    ensures Min(a, b) <= a + t * (b - a) <= Max(a, b)
  {
    if a <= b {
      ProductNonNegative(t, b - a);
      ProductNonNegative(1.0 - t, b - a);
      assert (1.0 - t) * (b - a) == (b - a) - t * (b - a);
    } else {
      ProductNonNegative(t, a - b);
      ProductNonNegative(1.0 - t, a - b);
      assert (1.0 - t) * (a - b) == (a - b) - t * (a - b);
      assert t * (b - a) == -(t * (a - b));
    }
  }

  lemma ProductNonNegative(a: real, b: real)
    requires a >= 0.0 && b >= 0.0
    ensures a * b >= 0.0
  {
  }

  /** All 21 marks 0, 5, ..., 100 have an entry. */
  predicate FullTable(data: Table) {
    forall m :: 0 <= m <= 100 && m % 5 == 0 ==> m in data
  }

  /** Entries never decrease from one mark to a later one. */
  predicate MonotoneTable(data: Table) {
    forall m1, m2 :: m1 in data && m2 in data && m1 <= m2 ==> data[m1] <= data[m2]
  }

  /** On a full table every slider position has a value, except a mark whose entry is 0. */
  lemma FullTableDefined(data: Table, p: int)
    requires FullTable(data) && 0 <= p <= 100
    ensures InterpolateValue(data, p).Some? || (p % 5 == 0 && data[p] == 0.0)
  {
    assert LowerMark(p) in data;
    if p % 5 != 0 {
      assert UpperMark(p) in data;
    }
  }

  /** On a non-decreasing table, a later slider position never shows a smaller value. */
  lemma InterpolateMonotone(data: Table, p1: int, p2: int)
    requires MonotoneTable(data) && p1 <= p2
    requires InterpolateValue(data, p1).Some? && InterpolateValue(data, p2).Some?
    ensures InterpolateValue(data, p1).value <= InterpolateValue(data, p2).value
  {
    var r1, r2 := InterpolateValue(data, p1).value, InterpolateValue(data, p2).value;
    var l1, u1, l2, u2 := LowerMark(p1), UpperMark(p1), LowerMark(p2), UpperMark(p2);
    if p1 % 5 == 0 {
      if p2 % 5 != 0 {
        assert p1 <= l2 && data[l2] <= data[u2];
      }
    } else if p2 % 5 == 0 {
      assert u1 <= p2 && data[l1] <= data[u1];
    } else if l1 == l2 {
      var lo, hi := data[l1], data[u1];
      assert lo <= hi;
      var t1 := (p1 - l1) as real / 5.0;
      var t2 := (p2 - l2) as real / 5.0;
      assert t1 <= t2;
      assert r1 == lo + t1 * (hi - lo);
      assert r2 == lo + t2 * (hi - lo);
      ProductNonNegative(t2 - t1, hi - lo);
      assert t2 * (hi - lo) - t1 * (hi - lo) == (t2 - t1) * (hi - lo);
    } else {
      assert u1 <= l2 && data[l1] <= data[u1] && data[l2] <= data[u2];
    }
  }

  /**
   * `getValueRangeForPercentile` without the text formatting: the values at
   * both ends of the selected range, or null when the column has no table or
   * either end has no value.
   */
  function GetValueRange(columnData: Option<Table>, minP: int, maxP: int): (r: Option<(real, real)>)
    ensures r.Some? <==> columnData.Some? && InterpolateValue(columnData.value, minP).Some?
                                           && InterpolateValue(columnData.value, maxP).Some?
    ensures r.Some? ==> r.value == (InterpolateValue(columnData.value, minP).value,
                                    InterpolateValue(columnData.value, maxP).value)
  {
    if columnData.None? then None
    else
      var lo, hi := InterpolateValue(columnData.value, minP), InterpolateValue(columnData.value, maxP);
      if lo.None? || hi.None? then None else Some((lo.value, hi.value))
  }

  /** The label's range is ordered whenever the slider's is and the table is non-decreasing. */
  lemma GetValueRangeOrdered(data: Table, minP: int, maxP: int)
    requires MonotoneTable(data) && minP <= maxP
    requires GetValueRange(Some(data), minP, maxP).Some?
    ensures GetValueRange(Some(data), minP, maxP).value.0 <= GetValueRange(Some(data), minP, maxP).value.1
  {
    InterpolateMonotone(data, minP, maxP);
  }
}
