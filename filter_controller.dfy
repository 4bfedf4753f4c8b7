/**
 * The filter controller of the example table: its column configuration and
 * search term as fields updated in place, the value it keeps in local
 * storage, and the loops that rank cell values and decide, row by row, what
 * is shown and what is marked.
 */
module FilterController {
  import opened Wrappers
  import opened FilterState
  import opened RowFilter
  import Text
  import Numeric
  import Ranking
  import Sorting

  /**
   * `getPercentile`: counts values from the front while they are `<= value`
   * and stops at the first larger one, then rounds the share to a percent.
   * On the sorted samples it is given, that is the rank of `value`.
   */
  method GetPercentile(value: real, sortedValues: seq<real>) returns (r: nat)
    ensures |sortedValues| == 0 ==> r == 0
    ensures |sortedValues| > 0 ==>
      r == Numeric.RoundRatio(Ranking.PrefixLe(sortedValues, value), |sortedValues|, 100)
    ensures Ranking.SortedAsc(sortedValues) ==> r == Ranking.Rank(sortedValues, value)
  {
    if |sortedValues| == 0 {
      return 0;
    }
    var count := 0;
    while count < |sortedValues|
      invariant 0 <= count <= |sortedValues|
      invariant forall j :: 0 <= j < count ==> sortedValues[j] <= value
    {
      if sortedValues[count] <= value {
        count := count + 1;
      } else {
        break;
      }
    }
    assert count == Ranking.PrefixLe(sortedValues, value);
    r := Numeric.RoundRatio(count, |sortedValues|, 100);
    if Ranking.SortedAsc(sortedValues) {
      Ranking.PrefixLeSorted(sortedValues, value);
    }
  }

  /** The numbers in one cell position over all rows (the collecting loop of `calculatePercentiles`). */
  method CollectValues(rows: seq<Row>, cellIndex: nat) returns (values: seq<real>)
    requires HasCell(rows, cellIndex)
    ensures values == Present(rows, cellIndex)
  {
    values := [];
    var i := 0;
    while i < |rows|
      invariant 0 <= i <= |rows|
      invariant values == Present(rows[..i], cellIndex)
    {
      assert rows[..i + 1][..i] == rows[..i];
      var value := rows[i].cells[cellIndex];
      if value.Some? {
        values := values + [value.value];
      }
      i := i + 1;
    }
    assert rows[..|rows|] == rows;
  }

  /** The columns a range filter can be put on, in table order. */
  function FilterableColumns(cols: seq<Column>): (r: seq<Column>)
    ensures forall i :: 0 <= i < |r| ==> r[i] in cols && r[i].filterable
    ensures forall i :: 0 <= i < |cols| && cols[i].filterable ==> cols[i] in r
  {
    if cols == [] then []
    else if cols[0].filterable then [cols[0]] + FilterableColumns(cols[1..])
    else FilterableColumns(cols[1..])
  }

  /**
   * One embedded example as the controller reads it: a key with `Some(x)`
   * holds a value `parseFloat` reads as `x`; `None` is null, the empty
   * string or a value that does not parse; a missing key is undefined.
   */
  type Example = map<string, Option<real>>

  /** The numbers the examples hold under `key`, in example order. */
  function ExampleValues(examples: seq<Example>, key: string): (r: seq<real>)
    ensures |r| <= |examples|
  {
    if examples == [] then []
    else
      var rest := ExampleValues(examples[..|examples| - 1], key);
      var last := examples[|examples| - 1];
      if key in last && last[key].Some? then rest + [last[key].value] else rest
  }

  /** The numbers the examples hold under one key (the inner loop of `calculateAllPercentiles`). */
  method CollectExampleValues(examples: seq<Example>, key: string) returns (values: seq<real>)
    ensures values == ExampleValues(examples, key)
  {
    values := [];
    var i := 0;
    while i < |examples|
      invariant 0 <= i <= |examples|
      invariant values == ExampleValues(examples[..i], key)
    {
      assert examples[..i + 1][..i] == examples[..i];
      var example := examples[i];
      if key in example && example[key].Some? {
        values := values + [example[key].value];
      }
      i := i + 1;
    }
    assert examples[..|examples|] == examples;
  }

  /** The loop of `calculateAllPercentiles`: for each key, its numbers over all examples, ascending. */
  method SortedExampleValues(keys: seq<string>, examples: seq<Example>)
    returns (percentiles: map<string, seq<real>>)
    ensures forall k :: k in percentiles <==> k in keys
    ensures forall k :: k in percentiles ==> percentiles[k] == Sorting.SortAsc(ExampleValues(examples, k))
  {
    percentiles := map[];
    var c := 0;
    while c < |keys|
      invariant 0 <= c <= |keys|
      invariant forall k :: k in percentiles <==> k in keys[..c]
      invariant forall k :: k in percentiles ==> percentiles[k] == Sorting.SortAsc(ExampleValues(examples, k))
    {
      var key := keys[c];
      var values := CollectExampleValues(examples, key);
      percentiles := percentiles[key := Sorting.SortAsc(values)];
      assert keys[..c + 1] == keys[..c] + [key];
      c := c + 1;
    }
    assert keys[..|keys|] == keys;
  }

  /**
   * `calculateAllPercentiles` over the controller's columns (`allColumns`):
   * each filterable column's numbers over all examples, ascending.
   */
  method CalculateAllPercentiles(columns: seq<Column>, examples: seq<Example>)
    returns (percentiles: map<string, seq<real>>)
    ensures forall k :: k in percentiles <==>
      exists i :: 0 <= i < |columns| && columns[i].filterable && columns[i].key == k
    ensures forall k :: k in percentiles ==> percentiles[k] == Sorting.SortAsc(ExampleValues(examples, k))
  {
    var keys := ColumnKeys(FilterableColumns(columns));
    percentiles := SortedExampleValues(keys, examples);
    forall k | k in percentiles
      ensures exists i :: 0 <= i < |columns| && columns[i].filterable && columns[i].key == k
    {
      var j :| 0 <= j < |keys| && keys[j] == k;
      var col := FilterableColumns(columns)[j];
      var i :| 0 <= i < |columns| && columns[i] == col;
    }
    forall i | 0 <= i < |columns| && columns[i].filterable ensures columns[i].key in percentiles {
      var j :| 0 <= j < |FilterableColumns(columns)| && FilterableColumns(columns)[j] == columns[i];
      assert keys[j] == columns[i].key;
    }
  }

  /** `calculatePercentiles`: the rank sample of each given column, over all rows. */
  method CalculatePercentiles(st: ColumnState, columns: seq<string>, rows: seq<Row>)
    returns (percentiles: map<string, seq<real>>)
    requires forall k :: k in columns ==> HasCell(rows, ColumnIndex(st, k))
    ensures forall k :: k in percentiles <==> k in columns
    ensures forall k :: k in percentiles ==> percentiles[k] == Sample(rows, ColumnIndex(st, k))
  {
    percentiles := map[];
    var c := 0;
    while c < |columns|
      invariant 0 <= c <= |columns|
      invariant forall k :: k in percentiles <==> k in columns[..c]
      invariant forall k :: k in percentiles ==> percentiles[k] == Sample(rows, ColumnIndex(st, k))
    {
      var colKey := columns[c];
      var values := CollectValues(rows, ColumnIndex(st, colKey));
      percentiles := percentiles[colKey := Sorting.SortAsc(values)];
      assert columns[..c + 1] == columns[..c] + [colKey];
      c := c + 1;
    }
    assert columns[..|columns|] == columns;
  }

  /** The filter-mode loop of `applyFilters` for one row: stops at the first column that rejects it. */
  method CheckFilters(st: ColumnState, rows: seq<Row>, row: Row, percentiles: map<string, seq<real>>)
    returns (passesFilters: bool)
    requires Covers(st, rows) && row in rows
    requires forall e :: e in st.featured ==>
      e.0 in percentiles && percentiles[e.0] == Sample(rows, ColumnIndex(st, e.0))
    ensures passesFilters == PassesFilters(st, rows, row)
  {
    var filterCols := ModeEntries(st.featured, "filter");
    passesFilters := true;
    var k := 0;
    while k < |filterCols|
      invariant 0 <= k <= |filterCols|
      invariant forall j :: 0 <= j < k ==> !FailsFilter(st, rows, row, filterCols[j])
    {
      var filter := filterCols[k];
      assert filter in st.featured;
      var cellIndex := ColumnIndex(st, filter.0);
      var value := row.cells[cellIndex];
      if value.None? {
        assert FailsFilter(st, rows, row, filterCols[k]);
        return false;
      }
      var percentile := GetPercentile(value.value, percentiles[filter.0]);
      assert percentile == CellRank(st, rows, row, filter);
      if percentile < filter.1.min || percentile > filter.1.max {
        assert FailsFilter(st, rows, row, filterCols[k]);
        return false;
      }
      assert !FailsFilter(st, rows, row, filterCols[k]);
      forall j | 0 <= j < k + 1 ensures !FailsFilter(st, rows, row, filterCols[j]) {
        if j == k {
          assert !FailsFilter(st, rows, row, filter);
        }
      }
      k := k + 1;
    }
  }

  /** The elimination-mode loop of `applyFilters` for one shown row: the cells it marks. */
  method MarkEliminations(st: ColumnState, rows: seq<Row>, row: Row, percentiles: map<string, seq<real>>)
    returns (failing: set<nat>)
    requires Covers(st, rows) && row in rows
    requires forall e :: e in st.featured ==>
      e.0 in percentiles && percentiles[e.0] == Sample(rows, ColumnIndex(st, e.0))
    ensures failing == FailingCells(st, rows, row)
  {
    var eliminationCols := ModeEntries(st.featured, "elimination");
    failing := {};
    var k := 0;
    while k < |eliminationCols|
      invariant 0 <= k <= |eliminationCols|
      invariant failing == MarkedBy(st, rows, row, eliminationCols, k)
    {
      var filter := eliminationCols[k];
      assert filter in st.featured;
      var cellIndex := ColumnIndex(st, filter.0);
      var value := row.cells[cellIndex];
      MarkedByStep(st, rows, row, eliminationCols, k);
      if value.Some? {
        var percentile := GetPercentile(value.value, percentiles[filter.0]);
        assert percentile == CellRank(st, rows, row, filter);
        if percentile < filter.1.min || percentile > filter.1.max {
          failing := failing + {cellIndex};
        }
      }
      k := k + 1;
    }
  }

  /** The body of `applyFilters` for one row: search, then filter-mode, then elimination-mode columns. */
  method ApplyToRow(st: ColumnState, searchTerm: string, rows: seq<Row>, row: Row,
                    percentiles: map<string, seq<real>>) returns (o: RowOutcome)
    requires Covers(st, rows) && row in rows
    requires forall e :: e in st.featured ==>
      e.0 in percentiles && percentiles[e.0] == Sample(rows, ColumnIndex(st, e.0))
    ensures o == Outcome(st, searchTerm, rows, row)
  {
    if searchTerm != "" && !Text.Contains(row.text, searchTerm) {
      return HiddenRow;
    }
    var passesFilters := CheckFilters(st, rows, row, percentiles);
    if !passesFilters {
      return HiddenRow;
    }
    var failing := MarkEliminations(st, rows, row, percentiles);
    o := RowOutcome(true, failing != {}, failing);
  }

  /** The row loop of `applyFilters`: each row's outcome, and how many rows are shown. */
  method ApplyToRows(st: ColumnState, searchTerm: string, rows: seq<Row>, percentiles: map<string, seq<real>>)
    returns (outcomes: seq<RowOutcome>, count: nat)
    requires Covers(st, rows)
    requires forall e :: e in st.featured ==>
      e.0 in percentiles && percentiles[e.0] == Sample(rows, ColumnIndex(st, e.0))
    ensures outcomes == Evaluate(st, searchTerm, rows)
    ensures count == VisibleCount(outcomes)
  {
    outcomes := [];
    count := 0;
    var i := 0;
    while i < |rows|
      invariant 0 <= i <= |rows| && |outcomes| == i
      invariant forall j :: 0 <= j < i ==> outcomes[j] == Outcome(st, searchTerm, rows, rows[j])
      invariant count == VisibleCount(outcomes)
    {
      var o := ApplyToRow(st, searchTerm, rows, rows[i], percentiles);
      VisibleCountAppend(outcomes, [o]);
      outcomes := outcomes + [o];
      count := count + if o.visible then 1 else 0;
      i := i + 1;
    }
  }

  /** Every featured key names a cell every row has, and the featured entries are exactly those keys. */
  lemma FeaturedCellsPresent(st: ColumnState, rows: seq<Row>)
    requires Covers(st, rows)
    ensures forall k :: k in Keys(st.featured) ==> HasCell(rows, ColumnIndex(st, k))
    ensures forall e :: e in st.featured ==> e.0 in Keys(st.featured)
  {
    var featuredCols := Keys(st.featured);
    forall k | k in featuredCols ensures HasCell(rows, ColumnIndex(st, k)) {
      var j :| 0 <= j < |featuredCols| && featuredCols[j] == k;
      assert st.featured[j] in st.featured;
    }
    forall e | e in st.featured ensures e.0 in featuredCols {
      var j :| 0 <= j < |st.featured| && st.featured[j] == e;
      assert featuredCols[j] == e.0;
    }
  }

  class Controller {
    /** `allColumns`, set once by `initializeColumns`. */
    var allColumns: seq<Column>
    var hiddenColumns: seq<string>
    var shownColumns: seq<string>
    var featuredColumns: Featured
    var searchTerm: string
    /** What local storage holds under the controller's key (`None`: nothing). */
    var stored: Option<Persisted>

    function State(): ColumnState
      reads this
    {
      ColumnState(allColumns, hiddenColumns, shownColumns, featuredColumns)
    }

    /** `connect`, as far as the configuration goes: empty search, `initializeColumns`, then `loadState`. */
    constructor (saved: Option<Persisted>)
      ensures stored == saved && searchTerm == "" && allColumns == AllColumns
      ensures State() == FilterState.LoadState(AllColumns, saved)
    {
      allColumns := AllColumns;
      hiddenColumns, shownColumns, featuredColumns := [], [], [];
      searchTerm := "";
      stored := saved;
      new;
      LoadState();
    }

    /** `loadState`: restores the stored configuration, filling in missing modes. */
    method LoadState()
      modifies this
      ensures State() == FilterState.LoadState(old(allColumns), old(stored))
      ensures stored == old(stored) && searchTerm == old(searchTerm) && allColumns == old(allColumns)
    {
      match stored
      case None =>
        shownColumns := ColumnKeys(allColumns);
        hiddenColumns := [];
        featuredColumns := [];
      case Some(state) =>
        hiddenColumns := state.hidden.GetOr([]);
        shownColumns := state.shown.GetOr([]);
        featuredColumns := state.featured.GetOr([]);
        ghost var original := featuredColumns;
        var i := 0;
        while i < |featuredColumns|
          invariant 0 <= i <= |featuredColumns| == |original|
          invariant forall j :: 0 <= j < i ==> featuredColumns[j] == RepairEntry(original[j])
          invariant forall j :: i <= j < |original| ==> featuredColumns[j] == original[j]
          invariant stored == old(stored) && searchTerm == old(searchTerm) && allColumns == old(allColumns)
          invariant hiddenColumns == state.hidden.GetOr([]) && shownColumns == state.shown.GetOr([])
        {
          if featuredColumns[i].1.mode == "" {
            featuredColumns := featuredColumns[i := (featuredColumns[i].0, featuredColumns[i].1.(mode := "filter"))];
          }
          i := i + 1;
        }
        assert featuredColumns == RepairModes(original);
    }

    /** `saveState`: the three collections are written to local storage. */
    method SaveState()
      modifies this`stored
      ensures stored == Some(FilterState.SaveState(State()))
    {
      stored := Some(Persisted(Some(hiddenColumns), Some(shownColumns), Some(featuredColumns)));
    }

    /** `updateSlider` on a featured column, then `saveState`. */
    method UpdateSlider(column: string, handle: string, value: int)
      requires column in Keys(featuredColumns)
      modifies this`featuredColumns, this`stored
      ensures State() == FilterState.UpdateSlider(old(State()), column, handle, value)
      ensures stored == Some(FilterState.SaveState(State()))
    {
      var filter := Lookup(featuredColumns, column).value;
      if handle == "min" {
        filter := filter.(min := value);
        if value > filter.max {
          filter := filter.(max := value);
        }
      } else {
        filter := filter.(max := value);
        if value < filter.min {
          filter := filter.(min := value);
        }
      }
      featuredColumns := Put(featuredColumns, column, filter);
      SaveState();
    }

    /** `handleSearch`: the term is lower-cased and trimmed. */
    method HandleSearch(value: string)
      modifies this`searchTerm
      ensures searchTerm == Text.JsTrim(Text.Lower(value))
    {
      searchTerm := Text.JsTrim(Text.Lower(value));
    }

    method MoveToShown(column: string)
      modifies this`hiddenColumns, this`shownColumns, this`featuredColumns, this`stored
      ensures State() == FilterState.MoveToShown(old(State()), column)
      ensures stored == Some(FilterState.SaveState(State()))
    {
      hiddenColumns := Without(hiddenColumns, column);
      if column !in shownColumns {
        shownColumns := shownColumns + [column];
      }
      featuredColumns := Delete(featuredColumns, column);
      SaveState();
    }

    method MoveToFeatured(column: string)
      modifies this`shownColumns, this`featuredColumns, this`stored
      ensures State() == FilterState.MoveToFeatured(old(State()), column)
      ensures stored == Some(FilterState.SaveState(State()))
    {
      shownColumns := Without(shownColumns, column);
      featuredColumns := Put(featuredColumns, column, RangeFilter(0, 100, "filter"));
      SaveState();
    }

    /** `toggleMode` on a featured column, then `saveState`. */
    method ToggleMode(column: string)
      requires column in Keys(featuredColumns)
      modifies this`featuredColumns, this`stored
      ensures State() == FilterState.ToggleMode(old(State()), column)
      ensures stored == Some(FilterState.SaveState(State()))
    {
      var filter := Lookup(featuredColumns, column).value;
      var currentMode := if filter.mode == "" then "filter" else filter.mode;
      featuredColumns := Put(featuredColumns, column,
                             filter.(mode := if currentMode == "filter" then "elimination" else "filter"));
      SaveState();
    }

    method MoveToHidden(column: string)
      modifies this`hiddenColumns, this`shownColumns, this`featuredColumns, this`stored
      ensures State() == FilterState.MoveToHidden(old(State()), column)
      ensures stored == Some(FilterState.SaveState(State()))
    {
      shownColumns := Without(shownColumns, column);
      featuredColumns := Delete(featuredColumns, column);
      if column !in hiddenColumns {
        hiddenColumns := hiddenColumns + [column];
      }
      SaveState();
    }

    method RemoveFilter(column: string)
      modifies this`shownColumns, this`featuredColumns, this`stored
      ensures State() == FilterState.RemoveFilter(old(State()), column)
      ensures stored == Some(FilterState.SaveState(State()))
    {
      featuredColumns := Delete(featuredColumns, column);
      if column !in shownColumns {
        shownColumns := shownColumns + [column];
      }
      SaveState();
    }

    /** `clearAllFilters`: every featured key is appended to the shown list once, then no filter is left. */
    method ClearAllFilters()
      modifies this`shownColumns, this`featuredColumns, this`stored
      ensures State() == FilterState.ClearAllFilters(old(State()))
      ensures stored == Some(FilterState.SaveState(State()))
    {
      var keys := Keys(featuredColumns);
      var shown := shownColumns;
      var i := 0;
      while i < |keys|
        invariant 0 <= i <= |keys|
        invariant shown == AddAll(shownColumns, keys[..i])
      {
        assert keys[..i + 1][..i] == keys[..i];
        if keys[i] !in shown {
          shown := shown + [keys[i]];
        }
        i := i + 1;
      }
      assert keys[..|keys|] == keys;
      shownColumns := shown;
      featuredColumns := [];
      SaveState();
    }

    /** `resetConfiguration`: when confirmed, the stored state is removed and the page reloaded. */
    method ResetConfiguration(confirmed: bool)
      modifies this
      ensures !confirmed ==> State() == old(State()) && stored == old(stored) && searchTerm == old(searchTerm)
      ensures confirmed ==> stored == None && searchTerm == "" && State() == DefaultState(old(allColumns))
    {
      if confirmed {
        stored := None;
        searchTerm := "";
        LoadState();
      }
    }

    /**
     * `applyFilters`: the outcome of every row and the number of rows left
     * visible. It changes nothing but the rows' display and marks, which are
     * its result here.
     */
    method ApplyFilters(rows: seq<Row>) returns (outcomes: seq<RowOutcome>, count: nat)
      requires Covers(State(), rows)
      ensures outcomes == Evaluate(State(), searchTerm, rows)
      ensures count == VisibleCount(outcomes)
    {
      var st := State();
      var featuredCols := Keys(st.featured);
      if |featuredCols| == 0 && searchTerm == "" {
        outcomes := seq(|rows|, i => RowOutcome(true, false, {}));
        count := |rows|;
        NoFiltersShowEverything(st, rows);
        return;
      }
      FeaturedCellsPresent(st, rows);
      var percentiles := CalculatePercentiles(st, featuredCols, rows);
      outcomes, count := ApplyToRows(st, searchTerm, rows, percentiles);
    }
  }
}
