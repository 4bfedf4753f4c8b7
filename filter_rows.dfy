/**
 * What the filter controller does to the rows of the example table, as a
 * specification: which columns are on screen and where, the rank sample of
 * a column, and for every row whether it is shown, whether it is marked as
 * eliminated and which of its cells are marked as failing.
 *
 * A row is abstracted to its search text (the lower-cased cell texts joined
 * with spaces) and, per cell, the number `parseFloat` reads from the trimmed
 * cell text (`None` where that is NaN).
 */
module RowFilter {
  import opened Wrappers
  import opened FilterState
  import Text
  import Ranking
  import Sorting

  datatype Row = Row(text: string, cells: seq<Option<real>>)

  /** The display and marking state a row is left in. */
  datatype RowOutcome = RowOutcome(visible: bool, eliminated: bool, failing: set<nat>)

  const HiddenRow := RowOutcome(false, false, {})

  function VisibleFrom(keys: seq<string>, st: ColumnState): (r: seq<string>)
    ensures forall k :: k in r <==> k in keys && (k in st.shown || k in Keys(st.featured))
  {
    if keys == [] then []
    else if keys[0] in st.shown || keys[0] in Keys(st.featured) then [keys[0]] + VisibleFrom(keys[1..], st)
    else VisibleFrom(keys[1..], st)
  }

  /** The keys of the columns on screen, in table order: those shown or featured. */
  function VisibleKeys(st: ColumnState): (r: seq<string>)
    ensures forall k :: k in r <==> k in ColumnKeys(st.columns) && (k in st.shown || k in Keys(st.featured))
  {
    VisibleFrom(ColumnKeys(st.columns), st)
  }

  /** The first index of `k` in `s`, or -1 (`findIndex`). */
  function IndexOf(s: seq<string>, k: string): (i: int)
    ensures -1 <= i < |s|
    ensures i >= 0 ==> s[i] == k && k !in s[..i]
    ensures i == -1 <==> k !in s
  {
    if s == [] then -1
    else if s[0] == k then 0
    else
      var j := IndexOf(s[1..], k);
      assert s == [s[0]] + s[1..];
      if j == -1 then -1 else
        assert s[..j + 1] == [s[0]] + s[1..][..j];
        j + 1
  }

  /** `getColumnIndex`: the cell position of a column, and 0 for a column not on screen. */
  function ColumnIndex(st: ColumnState, k: string): (i: nat)
    ensures k in VisibleKeys(st) ==> i < |VisibleKeys(st)| && VisibleKeys(st)[i] == k
                                     && k !in VisibleKeys(st)[..i]
    ensures k !in VisibleKeys(st) ==> i == 0
  {
    var j := IndexOf(VisibleKeys(st), k);
    if j >= 0 then j else 0
  }

  /** Every row has the cell every featured column is read from. */
  predicate Covers(st: ColumnState, rows: seq<Row>) {
    forall i, e :: 0 <= i < |rows| && e in st.featured ==> ColumnIndex(st, e.0) < |rows[i].cells|
  }

  predicate HasCell(rows: seq<Row>, idx: nat) {
    forall i :: 0 <= i < |rows| ==> idx < |rows[i].cells|
  }

  /** The numbers in one cell position over the rows, in row order. */
  function Present(rows: seq<Row>, idx: nat): (r: seq<real>)
    requires HasCell(rows, idx)
    ensures |r| <= |rows|
  {
    if rows == [] then []
    else
      var rest := Present(rows[..|rows| - 1], idx);
      match rows[|rows| - 1].cells[idx]
      case Some(v) => rest + [v]
      case None => rest
  }

  /** The rank sample of a cell position: its numbers over ALL rows, ascending. */
  function Sample(rows: seq<Row>, idx: nat): (r: seq<real>)
    requires HasCell(rows, idx)
    ensures multiset(r) == multiset(Present(rows, idx))
    ensures Ranking.SortedAsc(r)
  {
    Sorting.SortAsc(Present(rows, idx))
  }

  /** The featured entries whose effective mode is `mode`, in key order. */
  function ModeEntries(f: Featured, mode: string): (r: Featured)
    ensures forall i :: 0 <= i < |r| ==> r[i] in f && EffectiveMode(r[i].1.mode) == mode
    ensures forall i :: 0 <= i < |f| && EffectiveMode(f[i].1.mode) == mode ==> f[i] in r
  {
    if f == [] then []
    else if EffectiveMode(f[0].1.mode) == mode then [f[0]] + ModeEntries(f[1..], mode)
    else ModeEntries(f[1..], mode)
  }

  predicate OutOfRange(rank: int, f: RangeFilter) {
    rank < f.min || rank > f.max
  }

  /** The rank of the row's value for entry `e`; the row must have a number there. */
  function CellRank(st: ColumnState, rows: seq<Row>, row: Row, e: (string, RangeFilter)): (r: nat)
    requires Covers(st, rows) && row in rows && e in st.featured
    requires row.cells[ColumnIndex(st, e.0)].Some?
    ensures r <= 100
  {
    var idx := ColumnIndex(st, e.0);
    Ranking.Rank(Sample(rows, idx), row.cells[idx].value)
  }

  /** A filter-mode column rejects the row: no number, or a rank outside its range. */
  predicate FailsFilter(st: ColumnState, rows: seq<Row>, row: Row, e: (string, RangeFilter))
    requires Covers(st, rows) && row in rows && e in st.featured
  {
    var idx := ColumnIndex(st, e.0);
    row.cells[idx].None? || OutOfRange(CellRank(st, rows, row, e), e.1)
  }

  /** An elimination-mode column marks the cell: a number whose rank is outside its range. */
  predicate FailsElimination(st: ColumnState, rows: seq<Row>, row: Row, e: (string, RangeFilter))
    requires Covers(st, rows) && row in rows && e in st.featured
  {
    var idx := ColumnIndex(st, e.0);
    row.cells[idx].Some? && OutOfRange(CellRank(st, rows, row, e), e.1)
  }

  predicate PassesSearch(row: Row, term: string) {
    term == "" || Text.Contains(row.text, term)
  }

  predicate PassesFilters(st: ColumnState, rows: seq<Row>, row: Row)
    requires Covers(st, rows) && row in rows
  {
    var es := ModeEntries(st.featured, "filter");
    forall j :: 0 <= j < |es| ==> !FailsFilter(st, rows, row, es[j])
  }

  /** The cell positions the first `n` of the entries `es` mark in a row. */
  function MarkedBy(st: ColumnState, rows: seq<Row>, row: Row, es: Featured, n: nat): (r: set<nat>)
    requires Covers(st, rows) && row in rows && n <= |es|
    requires forall i :: 0 <= i < |es| ==> es[i] in st.featured
  {
    set j | 0 <= j < n && FailsElimination(st, rows, row, es[j]) :: ColumnIndex(st, es[j].0)
  }

  /** One more entry adds its cell exactly when it marks the row. */
  lemma MarkedByStep(st: ColumnState, rows: seq<Row>, row: Row, es: Featured, n: nat)
    requires Covers(st, rows) && row in rows && n < |es|
    requires forall i :: 0 <= i < |es| ==> es[i] in st.featured
    ensures MarkedBy(st, rows, row, es, n + 1) ==
      MarkedBy(st, rows, row, es, n)
        + (if FailsElimination(st, rows, row, es[n]) then {ColumnIndex(st, es[n].0)} else {})
  {
    var after := MarkedBy(st, rows, row, es, n + 1);
    var before := MarkedBy(st, rows, row, es, n);
    var extra := if FailsElimination(st, rows, row, es[n]) then {ColumnIndex(st, es[n].0)} else {};
    forall c | c in after ensures c in before + extra {
      var j :| 0 <= j < n + 1 && FailsElimination(st, rows, row, es[j]) && c == ColumnIndex(st, es[j].0);
      if j < n {
        assert c in before;
      }
    }
    forall c | c in before + extra ensures c in after {
      if c in before {
        var j :| 0 <= j < n && FailsElimination(st, rows, row, es[j]) && c == ColumnIndex(st, es[j].0);
        assert 0 <= j < n + 1;
      }
    }
  }

  /** The cell positions the elimination-mode columns mark in a row. */
  function FailingCells(st: ColumnState, rows: seq<Row>, row: Row): (r: set<nat>)
    requires Covers(st, rows) && row in rows
  {
    var es := ModeEntries(st.featured, "elimination");
    MarkedBy(st, rows, row, es, |es|)
  }

  /** The outcome of one row under the current configuration and search term. */
  function Outcome(st: ColumnState, term: string, rows: seq<Row>, row: Row): (o: RowOutcome)
    requires Covers(st, rows) && row in rows
  {
    if !PassesSearch(row, term) || !PassesFilters(st, rows, row) then HiddenRow
    else
      var failing := FailingCells(st, rows, row);
      RowOutcome(true, failing != {}, failing)
  }

  /** `applyFilters` on every row. */
  function Evaluate(st: ColumnState, term: string, rows: seq<Row>): (r: seq<RowOutcome>)
    requires Covers(st, rows)
    ensures |r| == |rows|
  {
    seq(|rows|, i requires 0 <= i < |rows| => Outcome(st, term, rows, rows[i]))
  }

  function VisibleCount(outs: seq<RowOutcome>): (n: nat)
    ensures n <= |outs|
  {
    if outs == [] then 0 else (if outs[0].visible then 1 else 0) + VisibleCount(outs[1..])
  }

  lemma {:induction false} VisibleCountAppend(a: seq<RowOutcome>, b: seq<RowOutcome>)
    ensures VisibleCount(a + b) == VisibleCount(a) + VisibleCount(b)
    decreases |a|
  {
    if a == [] {
      assert a + b == b;
    } else {
      assert (a + b)[1..] == a[1..] + b;
      VisibleCountAppend(a[1..], b);
    }
  }

  lemma {:induction false} VisibleCountAll(outs: seq<RowOutcome>)
    requires forall i :: 0 <= i < |outs| ==> outs[i].visible
    ensures VisibleCount(outs) == |outs|
    decreases |outs|
  {
    if outs != [] {
      VisibleCountAll(outs[1..]);
    }
  }

  /** With nothing featured and no search, every row is shown and nothing is marked. */
  lemma NoFiltersShowEverything(st: ColumnState, rows: seq<Row>)
    requires st.featured == []
    ensures Covers(st, rows)
    ensures forall i :: 0 <= i < |rows| ==> Evaluate(st, "", rows)[i] == RowOutcome(true, false, {})
    ensures VisibleCount(Evaluate(st, "", rows)) == |rows|
  {
    var outs := Evaluate(st, "", rows);
    forall i | 0 <= i < |rows| ensures outs[i] == RowOutcome(true, false, {}) {
      assert ModeEntries(st.featured, "elimination") == [];
    }
    VisibleCountAll(outs);
  }

  /**
   * A row is shown exactly when it contains the search term and no
   * filter-mode column rejects it; elimination-mode columns play no part.
   */
  lemma VisibleIff(st: ColumnState, term: string, rows: seq<Row>, i: nat)
    requires Covers(st, rows) && i < |rows|
    ensures Evaluate(st, term, rows)[i].visible <==>
      && (term == "" || Text.Contains(rows[i].text, term))
      && forall e :: e in st.featured && EffectiveMode(e.1.mode) == "filter" ==>
           !FailsFilter(st, rows, rows[i], e)
  {
    var es := ModeEntries(st.featured, "filter");
    if PassesFilters(st, rows, rows[i]) {
      forall e | e in st.featured && EffectiveMode(e.1.mode) == "filter"
        ensures !FailsFilter(st, rows, rows[i], e)
      {
        var k :| 0 <= k < |st.featured| && st.featured[k] == e;
        var j :| 0 <= j < |es| && es[j] == e;
      }
    }
  }

  /** A marked cell is the cell of an elimination-mode column whose number ranks outside its range. */
  lemma FailingIff(st: ColumnState, term: string, rows: seq<Row>, i: nat, c: nat)
    requires Covers(st, rows) && i < |rows| && Evaluate(st, term, rows)[i].visible
    ensures c in Evaluate(st, term, rows)[i].failing <==>
      exists e :: && e in st.featured && EffectiveMode(e.1.mode) == "elimination"
                  && ColumnIndex(st, e.0) == c && FailsElimination(st, rows, rows[i], e)
    ensures Evaluate(st, term, rows)[i].eliminated <==> Evaluate(st, term, rows)[i].failing != {}
  {
    var es := ModeEntries(st.featured, "elimination");
    if c !in Evaluate(st, term, rows)[i].failing {
      forall e | && e in st.featured && EffectiveMode(e.1.mode) == "elimination"
                 && ColumnIndex(st, e.0) == c
        ensures !FailsElimination(st, rows, rows[i], e)
      {
        var k :| 0 <= k < |st.featured| && st.featured[k] == e;
        var j :| 0 <= j < |es| && es[j] == e;
      }
    }
  }

  /** A hidden row carries no marks. */
  lemma HiddenRowsUnmarked(st: ColumnState, term: string, rows: seq<Row>, i: nat)
    requires Covers(st, rows) && i < |rows| && !Evaluate(st, term, rows)[i].visible
    ensures Evaluate(st, term, rows)[i] == HiddenRow
  {
  }

  /** A filter spanning 0..100 never hides a row that has a number in its column. */
  lemma FullRangeKeepsNumbers(st: ColumnState, rows: seq<Row>, row: Row, e: (string, RangeFilter))
    requires Covers(st, rows) && row in rows && e in st.featured
    requires e.1.min <= 0 && e.1.max >= 100
    requires row.cells[ColumnIndex(st, e.0)].Some?
    ensures !FailsFilter(st, rows, row, e) && !FailsElimination(st, rows, row, e)
  {
  }

  /** A featured key that is not a column of the table is read from the first cell. */
  lemma UnknownKeyReadsFirstCell(st: ColumnState, k: string)
    requires k !in ColumnKeys(st.columns)
    ensures ColumnIndex(st, k) == 0
  {
  }
}
