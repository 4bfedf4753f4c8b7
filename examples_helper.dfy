/**
 * The view helpers of the examples table: status and category badges, the
 * score and priority cells, and the percentile highlight of a cell read from
 * the server's 21-point table.
 */
module ExamplesHelper {
  import opened Wrappers
  import Text
  import Numeric
  import ExampleModel

  /** What a `<span>` shows. */
  datatype Content = Label(text: string) | Decimal(decimal: real) | Integer(integer: int)

  /** `content_tag(:span, content, class: cssClass)`. */
  datatype Span = Span(content: Content, cssClass: string)

  const BadgeBase := "px-2 py-1 text-xs rounded "
  const GrayBadge := "bg-gray-100 text-gray-700"

  /** `x.to_s`, which is empty for nil. */
  function ToS(s: Option<string>): (r: string)
    ensures s.Some? ==> r == s.value
    ensures s.None? ==> r == []
  {
    s.GetOr([])
  }

  function StatusColorClass(status: Option<string>): (c: string)
    ensures c == GrayBadge <==> status !in {Some("new"), Some("in_progress"), Some("completed")}
  {
    match status
    case Some("new") => "bg-blue-100 text-blue-700"
    case Some("in_progress") => "bg-yellow-100 text-yellow-700"
    case Some("completed") => "bg-green-100 text-green-700"
    case Some("archived") => GrayBadge
    case _ => GrayBadge
  }

  /** The labels of the four statuses, and the titleized key for anything else. */
  function StatusLabel(status: Option<string>): (l: string)
    ensures status == Some("new") ==> l == "New"
    ensures status == Some("in_progress") ==> l == "In Progress"
    ensures status == Some("completed") ==> l == "Completed"
    ensures status == Some("archived") ==> l == "Archived"
    ensures status.None? || status.value !in ExampleModel.Statuses ==> l == Text.Titleize(ToS(status))
  {
    match status
    case Some("new") => "New"
    case Some("in_progress") => "In Progress"
    case Some("completed") => "Completed"
    case Some("archived") => "Archived"
    case _ => Text.Titleize(ToS(status))
  }

  /**
   * `status_badge`: the status's label; a colour of its own for new, in
   * progress and completed, and the gray class for archived and for anything
   * unknown, nil included.
   */
  function StatusBadge(status: Option<string>): (r: Span)
    ensures r.content == Label(StatusLabel(status))
    ensures r.cssClass == BadgeBase + GrayBadge <==> status !in {Some("new"), Some("in_progress"), Some("completed")}
  {
    var c := StatusColorClass(status);
    assert (BadgeBase + c == BadgeBase + GrayBadge) == (c == GrayBadge) by {
      if BadgeBase + c == BadgeBase + GrayBadge {
        assert c == (BadgeBase + c)[|BadgeBase|..];
      }
    }
    Span(Label(StatusLabel(status)), BadgeBase + c)
  }

  function CategoryColorClass(category: Option<string>): (c: string)
    ensures c == GrayBadge <==> category.None? || category.value !in ExampleModel.Categories
  {
    match category
    case Some("ui_pattern") => "bg-purple-100 text-purple-700"
    case Some("backend_pattern") => "bg-green-100 text-green-700"
    case Some("data_pattern") => "bg-blue-100 text-blue-700"
    case Some("deployment_pattern") => "bg-orange-100 text-orange-700"
    case _ => GrayBadge
  }

  /** The short labels of the four categories, and the titleized key for anything else. */
  function CategoryLabel(category: Option<string>): (l: string)
    ensures category == Some("ui_pattern") ==> l == "UI"
    ensures category == Some("backend_pattern") ==> l == "Backend"
    ensures category == Some("data_pattern") ==> l == "Data"
    ensures category == Some("deployment_pattern") ==> l == "Deploy"
    ensures category.None? || category.value !in ExampleModel.Categories ==> l == Text.Titleize(ToS(category))
  {
    match category
    case Some("ui_pattern") => "UI"
    case Some("backend_pattern") => "Backend"
    case Some("data_pattern") => "Data"
    case Some("deployment_pattern") => "Deploy"
    case _ => Text.Titleize(ToS(category))
  }

  /**
   * `category_badge`: a category that passes validation gets a colour of its
   * own; a nil or unknown one gets the gray class and its titleized key.
   */
  function CategoryBadge(category: Option<string>): (r: Span)
    ensures r.content == Label(CategoryLabel(category))
    ensures r.cssClass == BadgeBase + GrayBadge <==> category.None? || category.value !in ExampleModel.Categories
  {
    var c := CategoryColorClass(category);
    assert (BadgeBase + c == BadgeBase + GrayBadge) == (c == GrayBadge) by {
      if BadgeBase + c == BadgeBase + GrayBadge {
        assert c == (BadgeBase + c)[|BadgeBase|..];
      }
    }
    Span(Label(CategoryLabel(category)), BadgeBase + c)
  }

  /**
   * The badges of a valid example never fall back to the titleized key: its
   * status has a label of its own, and a category it has is never gray.
   */
  lemma ValidExampleBadges(e: ExampleModel.Example)
    requires ExampleModel.Valid(e)
    ensures e.status.Some? && e.status.value in ExampleModel.Statuses
    ensures StatusBadge(e.status).content in {Label("New"), Label("In Progress"), Label("Completed"), Label("Archived")}
    ensures e.category.Some? ==> CategoryBadge(e.category).cssClass != BadgeBase + GrayBadge
  {
    ExampleModel.ValidIff(e);
  }

  const ScoreHigh := "text-green-700 font-bold"
  const ScoreMid := "text-yellow-700"
  const ScoreLow := "text-gray-600"
  const Missing := "text-gray-400"

  /**
   * `format_score`: a dash for nil; otherwise the score rounded to one place,
   * green and bold from 90, yellow from 75, gray below, both bounds
   * inclusive and judged on the unrounded score.
   */
  function FormatScore(score: Option<real>): (r: Span)
    ensures score.None? ==> r == Span(Label("-"), Missing)
    ensures score.Some? ==> r.content == Decimal(Numeric.RoundTenths(score.value))
    ensures score.Some? ==> (r.cssClass == ScoreHigh <==> score.value >= 90.0)
    ensures score.Some? ==> (r.cssClass == ScoreMid <==> 75.0 <= score.value < 90.0)
    ensures score.Some? ==> (r.cssClass == ScoreLow <==> score.value < 75.0)
  {
    match score
    case None => Span(Label("-"), Missing)
    case Some(s) =>
      var c := if s >= 90.0 then ScoreHigh else if s >= 75.0 then ScoreMid else ScoreLow;
      Span(Decimal(Numeric.RoundTenths(s)), c)
  }

  /** A higher score never gets a weaker highlight. */
  lemma FormatScoreMonotone(a: real, b: real)
    requires a <= b
    ensures FormatScore(Some(a)).cssClass == ScoreHigh ==> FormatScore(Some(b)).cssClass == ScoreHigh
    ensures FormatScore(Some(a)).cssClass == ScoreMid ==> FormatScore(Some(b)).cssClass != ScoreLow
  {
  }

  /** `format_priority`: a dash for nil; otherwise the priority with its class, gray for 1 and for anything outside 1..5. */
  function FormatPriority(priority: Option<int>): (r: Span)
    ensures priority.None? ==> r == Span(Label("-"), Missing)
    ensures priority.Some? ==> r.content == Integer(priority.value)
    ensures priority == Some(5) ==> r.cssClass == "text-red-700 font-bold"
    ensures priority == Some(4) ==> r.cssClass == "text-orange-700 font-semibold"
    ensures priority == Some(3) ==> r.cssClass == "text-yellow-700"
    ensures priority == Some(2) ==> r.cssClass == "text-blue-700"
    ensures priority.Some? && (priority.value <= 1 || priority.value > 5) ==> r.cssClass == ScoreLow
  {
    match priority
    case None => Span(Label("-"), Missing)
    case Some(p) =>
      var c := match p
        case 5 => "text-red-700 font-bold"
        case 4 => "text-orange-700 font-semibold"
        case 3 => "text-yellow-700"
        case 2 => "text-blue-700"
        case _ => ScoreLow;
      Span(Integer(p), c)
  }

  /** The five valid priorities get five different classes, none of them the nil class. */
  lemma FormatPriorityDistinct(p: int, q: int)
    requires 1 <= p <= 5 && 1 <= q <= 5 && p != q
    ensures FormatPriority(Some(p)).cssClass != FormatPriority(Some(q)).cssClass
    ensures FormatPriority(Some(p)).cssClass != Missing
  {
  }

  /**
   * `calculate_percentile` as written: the first mark, in table order, whose
   * value is at least `value`, and 100 when there is none.
   */
  function CalculatePercentile(value: real, table: seq<(int, real)>): (p: int)
    ensures (exists i :: 0 <= i < |table| && value <= table[i].1) ==>
      exists i :: 0 <= i < |table| && value <= table[i].1 && p == table[i].0
        && (forall j :: 0 <= j < i ==> table[j].1 < value)
    ensures (forall i :: 0 <= i < |table| ==> table[i].1 < value) ==> p == 100
  {
    if table == [] then 100
    else if value <= table[0].1 then table[0].0
    else
      var p := CalculatePercentile(value, table[1..]);
      assert (exists i :: 0 <= i < |table| && value <= table[i].1) ==>
        exists i :: 0 <= i < |table| && value <= table[i].1 && p == table[i].0
          && (forall j :: 0 <= j < i ==> table[j].1 < value) by {
        if exists i :: 0 <= i < |table| && value <= table[i].1 {
          var i0 :| 0 <= i0 < |table| && value <= table[i0].1;
          assert table[1..][i0 - 1] == table[i0];
          var i :| 0 <= i < |table[1..]| && value <= table[1..][i].1 && p == table[1..][i].0
            && (forall j :: 0 <= j < i ==> table[1..][j].1 < value);
          assert table[i + 1] == table[1..][i];
          forall j | 0 <= j < i + 1
            ensures table[j].1 < value
          {
            if j > 0 {
              assert table[j] == table[1..][j - 1];
            }
          }
        }
      }
      p
  }

  predicate MarksAscending(table: seq<(int, real)>) {
    forall i, j :: 0 <= i < j < |table| ==> table[i].0 <= table[j].0
  }

  /**
   * On a table whose marks ascend and stay at most 100, a larger value never
   * gets a smaller percentile, whatever the table's values.
   */
  lemma {:induction false} CalculatePercentileMonotone(a: real, b: real, table: seq<(int, real)>)
    requires a <= b && MarksAscending(table)
    requires forall i :: 0 <= i < |table| ==> table[i].0 <= 100
    ensures CalculatePercentile(a, table) <= CalculatePercentile(b, table)
    decreases |table|
  {
    if table != [] && !(a <= table[0].1) {
      assert MarksAscending(table[1..]) by {
        forall i, j | 0 <= i < j < |table[1..]|
          ensures table[1..][i].0 <= table[1..][j].0
        {
          assert table[1..][i] == table[i + 1] && table[1..][j] == table[j + 1];
        }
      }
      CalculatePercentileMonotone(a, b, table[1..]);
    } else if table != [] && !(b <= table[0].1) {
      var p := CalculatePercentile(b, table);
      if exists i :: 0 <= i < |table| && b <= table[i].1 {
        var i :| 0 <= i < |table| && b <= table[i].1 && p == table[i].0;
        assert table[0].0 <= table[i].0;
      }
    }
  }

  /** The helper's own examples of the lookup. */
  lemma CalculatePercentileExamples()
    ensures var t := [(0, 10.0), (25, 25.0), (50, 50.0), (75, 75.0), (100, 100.0)];
      && CalculatePercentile(30.0, t) == 50
      && CalculatePercentile(5.0, t) == 0
      && CalculatePercentile(150.0, t) == 100
      && CalculatePercentile(50.0, t) == 50
  {
  }

  /** The highlight for a percentile: bold green from 95, green from 90, yellow from 75, none below. */
  function Highlight(percentile: int): (c: string)
    ensures c == "bg-green-100 font-bold" <==> percentile >= 95
    ensures c == "bg-green-50" <==> 90 <= percentile < 95
    ensures c == "bg-yellow-50" <==> 75 <= percentile < 90
    ensures c == "" <==> percentile < 75
  {
    if percentile >= 95 then "bg-green-100 font-bold"
    else if percentile >= 90 then "bg-green-50"
    else if percentile >= 75 then "bg-yellow-50"
    else ""
  }

  /**
   * `percentile_class` as written: no class when the value, the table or the
   * column's entry is missing; otherwise the highlight of the as-written
   * percentile of the value.
   */
  function PercentileClass(value: Option<real>, column: string,
                           percentiles: Option<map<string, seq<(int, real)>>>): (c: string)
    ensures value.None? || percentiles.None? || column !in percentiles.value ==> c == ""
    ensures value.Some? && percentiles.Some? && column in percentiles.value ==>
      c == Highlight(CalculatePercentile(value.value, percentiles.value[column]))
  {
    if value.None? || percentiles.None? || column !in percentiles.value then ""
    else Highlight(CalculatePercentile(value.value, percentiles.value[column]))
  }

  /** The 21-point-style table the helper's highlight examples use. */
  function ScoreTable(): (t: seq<(int, real)>)
    ensures |t| == 7 && MarksAscending(t)
  {
    [(0, 10.0), (25, 25.0), (50, 50.0), (75, 75.0), (90, 90.0), (95, 95.0), (100, 100.0)]
  }

  /**
   * The as-written lookup rounds up to the next mark. With the score table
   * present, `percentile_class` is this highlight: 92 lies below the
   * 95th-percentile value yet gets the top highlight, and 80 lies below the
   * 90th-percentile value yet gets the green one.
   */
  lemma PercentileClassRoundsUp()
    ensures Highlight(CalculatePercentile(92.0, ScoreTable())) == "bg-green-100 font-bold"
    ensures Highlight(CalculatePercentile(80.0, ScoreTable())) == "bg-green-50"
    ensures Highlight(CalculatePercentile(96.0, ScoreTable())) == "bg-green-100 font-bold"
    ensures Highlight(CalculatePercentile(50.0, ScoreTable())) == ""
  {
    ScoreTableLookups();
  }

  lemma ScoreTableLookups()
    ensures CalculatePercentile(92.0, ScoreTable()) == 95
    ensures CalculatePercentile(80.0, ScoreTable()) == 90
    ensures CalculatePercentile(96.0, ScoreTable()) == 100
    ensures CalculatePercentile(50.0, ScoreTable()) == 50
  {
  }

  /**
   * The percentile a value has reached: the last mark, in table order, whose
   * value is at most `value`, and 0 when the value is below them all.
   */
  function ReachedPercentile(value: real, table: seq<(int, real)>): (p: int)
    ensures (exists i :: 0 <= i < |table| && table[i].1 <= value) ==>
      exists i :: 0 <= i < |table| && table[i].1 <= value && p == table[i].0
        && (forall j :: i < j < |table| ==> value < table[j].1)
    ensures (forall i :: 0 <= i < |table| ==> value < table[i].1) ==> p == 0
  {
    if table == [] then 0
    else if table[|table| - 1].1 <= value then table[|table| - 1].0
    else
      var front := table[..|table| - 1];
      var p := ReachedPercentile(value, front);
      assert (exists i :: 0 <= i < |table| && table[i].1 <= value) ==>
        exists i :: 0 <= i < |table| && table[i].1 <= value && p == table[i].0
          && (forall j :: i < j < |table| ==> value < table[j].1) by {
        if exists i :: 0 <= i < |table| && table[i].1 <= value {
          var i0 :| 0 <= i0 < |table| && table[i0].1 <= value;
          assert front[i0] == table[i0];
          var i :| 0 <= i < |front| && front[i].1 <= value && p == front[i].0
            && (forall j :: i < j < |front| ==> value < front[j].1);
          assert table[i] == front[i];
          forall j | i < j < |table|
            ensures value < table[j].1
          {
            if j < |front| {
              assert table[j] == front[j];
            }
          }
        }
      }
      p
  }

  /** The corrected `percentile_class`: the highlight of the percentile the value has reached. */
  function PercentileClassCorrected(value: Option<real>, column: string,
                                    percentiles: Option<map<string, seq<(int, real)>>>): (c: string)
    ensures value.None? || percentiles.None? || column !in percentiles.value ==> c == ""
    ensures value.Some? && percentiles.Some? && column in percentiles.value ==>
      c == Highlight(ReachedPercentile(value.value, percentiles.value[column]))
  {
    if value.None? || percentiles.None? || column !in percentiles.value then ""
    else Highlight(ReachedPercentile(value.value, percentiles.value[column]))
  }

  /**
   * A highlighted value has reached its tier: some mark of at least 95 (or
   * 90, or 75) has a value no greater than it.
   */
  lemma CorrectedHighlightIsReached(value: real, table: seq<(int, real)>)
    requires Highlight(ReachedPercentile(value, table)) != ""
    ensures exists i :: 0 <= i < |table| && table[i].1 <= value && table[i].0 >= 75 && table[i].0 == ReachedPercentile(value, table)
  {
  }

  /** The corrected lookup gives the helper's highlight examples: 96 top, 92 green, 80 yellow, 50 none. */
  lemma PercentileClassCorrectedExamples()
    ensures Highlight(ReachedPercentile(96.0, ScoreTable())) == "bg-green-100 font-bold"
    ensures Highlight(ReachedPercentile(92.0, ScoreTable())) == "bg-green-50"
    ensures Highlight(ReachedPercentile(80.0, ScoreTable())) == "bg-yellow-50"
    ensures Highlight(ReachedPercentile(50.0, ScoreTable())) == ""
  {
    ReachedScoreTable();
  }

  lemma ReachedScoreTable()
    ensures ReachedPercentile(96.0, ScoreTable()) == 95
    ensures ReachedPercentile(92.0, ScoreTable()) == 90
    ensures ReachedPercentile(80.0, ScoreTable()) == 75
    ensures ReachedPercentile(50.0, ScoreTable()) == 50
  {
    ReachedUpper();
    ReachedLower();
  }

  lemma ReachedUpper()
    ensures ReachedPercentile(96.0, ScoreTable()) == 95
    ensures ReachedPercentile(92.0, ScoreTable()) == 90
  {
    Reached(96.0, ScoreTable(), 5);
    Reached(92.0, ScoreTable(), 4);
  }

  lemma ReachedLower()
    ensures ReachedPercentile(80.0, ScoreTable()) == 75
    ensures ReachedPercentile(50.0, ScoreTable()) == 50
  {
    Reached(80.0, ScoreTable(), 3);
    Reached(50.0, ScoreTable(), 2);
  }

  /** When `value` reaches `table[k]` and no later mark, the reached percentile is `table[k]`'s mark. */
  lemma {:induction false} Reached(value: real, table: seq<(int, real)>, k: nat)
    requires k < |table| && table[k].1 <= value
    requires forall j :: k < j < |table| ==> value < table[j].1
    ensures ReachedPercentile(value, table) == table[k].0
    decreases |table|
  {
    if k < |table| - 1 {
      var front := table[..|table| - 1];
      assert front[k] == table[k];
      Reached(value, front, k);
    }
  }

  /** The five-mark table of the lookup's own examples. */
  function FiveMarkTable(): (t: seq<(int, real)>)
    ensures |t| == 5 && MarksAscending(t)
  {
    [(0, 10.0), (25, 25.0), (50, 50.0), (75, 75.0), (100, 100.0)]
  }

  /**
   * On that table the corrected rule gives 25 for 30, the mark 30 has
   * reached, where the as-written lookup gives 50.
   */
  lemma ReachedFiveMarkTableDiffers()
    ensures ReachedPercentile(30.0, FiveMarkTable()) == 25
    ensures CalculatePercentile(30.0, FiveMarkTable()) == 50
  {
    Reached(30.0, FiveMarkTable(), 1);
    CalculatePercentileExamples();
  }

  /** The other three lookups on that table agree with the as-written ones: 5 gives 0, 150 gives 100, 50 gives 50. */
  lemma ReachedFiveMarkTableAgrees()
    ensures ReachedPercentile(5.0, FiveMarkTable()) == 0
    ensures ReachedPercentile(150.0, FiveMarkTable()) == 100
    ensures ReachedPercentile(50.0, FiveMarkTable()) == 50
  {
    var t := FiveMarkTable();
    assert forall i :: 0 <= i < |t| ==> 5.0 < t[i].1;
    Reached(150.0, t, 4);
    Reached(50.0, t, 2);
  }
}
