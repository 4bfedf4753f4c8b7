/**
 * The Example record: its attributes, the validations Rails runs before a
 * save, the derived `average_metrics`, and the two status helpers.
 *
 * Numeric attributes hold the value as assigned (a decimal may be given for
 * an integer column; the `only_integer` check is what rejects it), so they
 * are modelled as optional reals. Once valid, priority and the three metrics
 * are whole numbers.
 */
module ExampleModel {
  import opened Wrappers
  import Text
  import Numeric

  datatype Example = Example(
    id: int,
    name: Option<string>,
    category: Option<string>,
    status: Option<string>,
    priority: Option<real>,
    score: Option<real>,
    complexity: Option<real>,
    speed: Option<real>,
    quality: Option<real>,
    createdAt: int)

  const Statuses: seq<string> := ["new", "in_progress", "completed", "archived"]
  const Categories: seq<string> := ["ui_pattern", "backend_pattern", "data_pattern", "deployment_pattern"]

  datatype Field = Name | Status | Category | Priority | Score | Complexity | Speed | Quality

  /** The kind of an error, as in `errors.details`, with the bound it names. */
  datatype Message = BlankError | Inclusion | NotAnInteger | GreaterThanOrEqualTo(count: int)
                   | LessThanOrEqualTo(count: int)

  /** One entry of `errors`: the attribute and the kind of error. */
  datatype ValidationError = ValidationError(field: Field, message: Message)

  /** Rails' English message for an error kind. */
  function MessageText(m: Message): (t: string)
    ensures m.GreaterThanOrEqualTo? && m.count >= 0 ==>
      t == "must be greater than or equal to " + Text.NatToString(m.count)
    ensures m.LessThanOrEqualTo? && m.count >= 0 ==>
      t == "must be less than or equal to " + Text.NatToString(m.count)
  {
    match m
    case BlankError => "can't be blank"
    case Inclusion => "is not included in the list"
    case NotAnInteger => "must be an integer"
    case GreaterThanOrEqualTo(n) =>
      "must be greater than or equal to " + (if n >= 0 then Text.NatToString(n) else "-" + Text.NatToString(-n))
    case LessThanOrEqualTo(n) =>
      "must be less than or equal to " + (if n >= 0 then Text.NatToString(n) else "-" + Text.NatToString(-n))
  }

  predicate IsWhole(x: real) {
    x.Floor as real == x
  }

  /** `blank?`: nil, or nothing but whitespace. */
  predicate Blank(s: Option<string>) {
    s.None? || forall i :: 0 <= i < |s.value| ==> Text.IsSpace(s.value[i])
  }

  function PresenceErrors(field: Field, v: Option<string>): (r: seq<ValidationError>)
    ensures r == [] <==> !Blank(v)
    ensures r != [] ==> r == [ValidationError(field, BlankError)]
  {
    if Blank(v) then [ValidationError(field, BlankError)] else []
  }

  /** The `inclusion: { in: list }` check, optionally allowing nil. */
  function InclusionErrors(field: Field, v: Option<string>, list: seq<string>, allowNil: bool)
    : (r: seq<ValidationError>)
    ensures r == [] <==> (v.None? && allowNil) || (v.Some? && v.value in list)
    ensures r != [] ==> r == [ValidationError(field, Inclusion)]
  {
    if v.None? then (if allowNil then [] else [ValidationError(field, Inclusion)])
    else if v.value in list then []
    else [ValidationError(field, Inclusion)]
  }

  /**
   * `numericality: { only_integer:, greater_than_or_equal_to: lo,
   * less_than_or_equal_to: hi }, allow_nil: true`. A value that is not an
   * integer when one is required gets only that error; otherwise each
   * violated bound adds its own.
   */
  function NumericalityErrors(field: Field, v: Option<real>, onlyInteger: bool, lo: int, hi: int)
    : (r: seq<ValidationError>)
    ensures r == [] <==>
      v.None? || ((!onlyInteger || IsWhole(v.value)) && lo as real <= v.value <= hi as real)
    ensures v.Some? && onlyInteger && !IsWhole(v.value) ==> r == [ValidationError(field, NotAnInteger)]
    ensures v.Some? && (!onlyInteger || IsWhole(v.value)) ==>
      && (ValidationError(field, GreaterThanOrEqualTo(lo)) in r <==> v.value < lo as real)
      && (ValidationError(field, LessThanOrEqualTo(hi)) in r <==> v.value > hi as real)
    ensures forall i :: 0 <= i < |r| ==> r[i].field == field
  {
    if v.None? then []
    else if onlyInteger && !IsWhole(v.value) then [ValidationError(field, NotAnInteger)]
    else
      (if v.value < lo as real then [ValidationError(field, GreaterThanOrEqualTo(lo))] else [])
      + (if v.value > hi as real then [ValidationError(field, LessThanOrEqualTo(hi))] else [])
  }

  /** The check shared by priority and the three metrics: nil, or an integer in 1..5. */
  function MetricErrors(field: Field, v: Option<real>): (r: seq<ValidationError>)
    ensures r == [] <==> v.None? || (IsWhole(v.value) && 1.0 <= v.value <= 5.0)
    ensures forall i :: 0 <= i < |r| ==> r[i].field == field
  {
    NumericalityErrors(field, v, true, 1, 5)
  }

  /** The errors on one attribute, from its own validation. */
  function FieldErrors(e: Example, f: Field): (r: seq<ValidationError>)
    ensures forall i :: 0 <= i < |r| ==> r[i].field == f
  {
    match f
    case Name => PresenceErrors(Name, e.name)
    case Status => InclusionErrors(Status, e.status, Statuses, false)
    case Category => InclusionErrors(Category, e.category, Categories, true)
    case Priority => MetricErrors(Priority, e.priority)
    case Score => NumericalityErrors(Score, e.score, false, 0, 100)
    case Complexity => MetricErrors(Complexity, e.complexity)
    case Speed => MetricErrors(Speed, e.speed)
    case Quality => MetricErrors(Quality, e.quality)
  }

  /** The condition each attribute's validation imposes. */
  predicate FieldOk(e: Example, f: Field) {
    match f
    case Name => !Blank(e.name)
    case Status => e.status.Some? && e.status.value in Statuses
    case Category => e.category.None? || e.category.value in Categories
    case Priority => e.priority.None? || (IsWhole(e.priority.value) && 1.0 <= e.priority.value <= 5.0)
    case Score => e.score.None? || 0.0 <= e.score.value <= 100.0
    case Complexity => e.complexity.None? || (IsWhole(e.complexity.value) && 1.0 <= e.complexity.value <= 5.0)
    case Speed => e.speed.None? || (IsWhole(e.speed.value) && 1.0 <= e.speed.value <= 5.0)
    case Quality => e.quality.None? || (IsWhole(e.quality.value) && 1.0 <= e.quality.value <= 5.0)
  }

  const ValidationOrder: seq<Field> := [Name, Status, Category, Priority, Score, Complexity, Speed, Quality]

  /** Where an attribute's validation comes in the declared order. */
  function FieldIndex(f: Field): (i: nat)
    ensures i < |ValidationOrder| && ValidationOrder[i] == f
  {
    match f
    case Name => 0
    case Status => 1
    case Category => 2
    case Priority => 3
    case Score => 4
    case Complexity => 5
    case Speed => 6
    case Quality => 7
  }

  function ErrorsFor(e: Example, fields: seq<Field>): (r: seq<ValidationError>)
    ensures forall err :: err in r <==> exists i :: 0 <= i < |fields| && err in FieldErrors(e, fields[i])
  {
    if fields == [] then []
    else
      var rest := ErrorsFor(e, fields[1..]);
      assert forall i :: 0 <= i < |fields| - 1 ==> fields[1..][i] == fields[i + 1];
      FieldErrors(e, fields[0]) + rest
  }

  /** The full `errors` collection after `valid?`, in the order the validations are declared. */
  function Errors(e: Example): (r: seq<ValidationError>)
    ensures forall f :: (exists err :: err in r && err.field == f) <==> !FieldOk(e, f)
  {
    var r := ErrorsFor(e, ValidationOrder);
    forall f ensures (exists err :: err in r && err.field == f) <==> !FieldOk(e, f) {
      assert ValidationOrder[FieldIndex(f)] == f;
      if !FieldOk(e, f) {
        FieldErrorsIff(e, f);
        var err := FieldErrors(e, f)[0];
        assert err in r;
      } else {
        forall err | err in r ensures err.field != f {
          var i :| 0 <= i < |ValidationOrder| && err in FieldErrors(e, ValidationOrder[i]);
          if ValidationOrder[i] == f {
            FieldErrorsIff(e, f);
          }
        }
      }
    }
    r
  }

  /** An attribute has errors exactly when its condition fails. */
  lemma FieldErrorsIff(e: Example, f: Field)
    ensures FieldErrors(e, f) == [] <==> FieldOk(e, f)
  {
  }

  /** `valid?`: no errors. */
  predicate Valid(e: Example) {
    Errors(e) == []
  }

  /** The validations, attribute by attribute: what makes a record valid. */
  lemma ValidIff(e: Example)
    ensures Valid(e) <==>
      && !Blank(e.name)
      && e.status.Some? && e.status.value in Statuses
      && (e.category.None? || e.category.value in Categories)
      && (e.priority.None? || (IsWhole(e.priority.value) && 1.0 <= e.priority.value <= 5.0))
      && (e.score.None? || 0.0 <= e.score.value <= 100.0)
      && (e.complexity.None? || (IsWhole(e.complexity.value) && 1.0 <= e.complexity.value <= 5.0))
      && (e.speed.None? || (IsWhole(e.speed.value) && 1.0 <= e.speed.value <= 5.0))
      && (e.quality.None? || (IsWhole(e.quality.value) && 1.0 <= e.quality.value <= 5.0))
  {
    var r := Errors(e);
    if r != [] {
      var err := r[0];
      assert !FieldOk(e, err.field);
    } else {
      forall f ensures FieldOk(e, f) {
        assert !(exists err :: err in r && err.field == f);
      }
      assert FieldOk(e, Name) && FieldOk(e, Status) && FieldOk(e, Category) && FieldOk(e, Priority);
      assert FieldOk(e, Score) && FieldOk(e, Complexity) && FieldOk(e, Speed) && FieldOk(e, Quality);
    }
  }

  /** Every error of an attribute's validation is among the record's errors. */
  lemma FieldErrorsInErrors(e: Example, f: Field, err: ValidationError)
    requires err in FieldErrors(e, f)
    ensures err in Errors(e)
  {
    assert ValidationOrder[FieldIndex(f)] == f;
  }

  /** The cases the model's tests describe: a decimal priority, out-of-range values, a decimal score. */
  lemma ValidationExamples(e: Example)
    ensures FieldErrors(e.(priority := Some(2.5)), Priority) == [ValidationError(Priority, NotAnInteger)]
    ensures FieldErrors(e.(priority := Some(0.0)), Priority) == [ValidationError(Priority, GreaterThanOrEqualTo(1))]
    ensures FieldErrors(e.(priority := Some(6.0)), Priority) == [ValidationError(Priority, LessThanOrEqualTo(5))]
    ensures FieldErrors(e.(score := Some(85.5)), Score) == []
    ensures FieldErrors(e.(score := Some(-1.0)), Score) == [ValidationError(Score, GreaterThanOrEqualTo(0))]
    ensures FieldErrors(e.(name := None), Name) == [ValidationError(Name, BlankError)]
    ensures FieldErrors(e.(category := None), Category) == []
  {
    assert !IsWhole(2.5) by {
      assert 2.5.Floor == 2;
    }
    assert IsWhole(0.0) && IsWhole(6.0) by {
      assert 0.0.Floor == 0 && 6.0.Floor == 6;
    }
  }

  /** The present values among complexity, speed and quality, in that order (`compact`). */
  function Metrics(e: Example): (r: seq<real>)
    ensures |r| <= 3
    ensures r == [] <==> e.complexity.None? && e.speed.None? && e.quality.None?
  {
    (if e.complexity.Some? then [e.complexity.value] else [])
    + (if e.speed.Some? then [e.speed.value] else [])
    + (if e.quality.Some? then [e.quality.value] else [])
  }

  /** `average_metrics`: the mean of the present metrics to one decimal, or nil when there are none. */
  function AverageMetrics(e: Example): (r: Option<real>)
    ensures r.None? <==> e.complexity.None? && e.speed.None? && e.quality.None?
    ensures r.Some? ==> Metrics(e) != [] && r.value == Numeric.RoundTenths(Numeric.Mean(Metrics(e)))
    ensures r.Some? ==> (r.value * 10.0).Floor as real == r.value * 10.0
    ensures r.Some? ==>
      var m := Metrics(e);
      Numeric.Sum(m) / |m| as real - 0.05 <= r.value <= Numeric.Sum(m) / |m| as real + 0.05
  {
    var m := Metrics(e);
    if m == [] then None else Some(Numeric.RoundTenths(Numeric.Mean(m)))
  }

  /** A valid record's average metric is between 1 and 5, the range of each metric. */
  lemma AverageOfValidInRange(e: Example)
    requires Valid(e) && AverageMetrics(e).Some?
    ensures 1.0 <= AverageMetrics(e).value <= 5.0
  {
    var m := Metrics(e);
    ValidMetricsInRange(e);
    Numeric.MeanBounds(m, 1.0, 5.0);
    Numeric.RoundTenthsMonotone(1.0, Numeric.Mean(m));
    Numeric.RoundTenthsMonotone(Numeric.Mean(m), 5.0);
    assert Numeric.RoundTenths(1.0) == 1.0 && Numeric.RoundTenths(5.0) == 5.0;
  }

  /** Every metric of a valid record lies in 1..5. */
  lemma ValidMetricsInRange(e: Example)
    requires Valid(e)
    ensures forall i :: 0 <= i < |Metrics(e)| ==> 1.0 <= Metrics(e)[i] <= 5.0
  {
    ValidIff(e);
  }

  /** The worked examples: (2, 3, 3) averages 2.7, (2, 4, nil) averages 3.0, no metrics give nil. */
  lemma AverageMetricsExamples(e: Example)
    ensures AverageMetrics(e.(complexity := Some(2.0), speed := Some(3.0), quality := Some(3.0)))
            == Some(2.7)
    ensures AverageMetrics(e.(complexity := Some(2.0), speed := Some(4.0), quality := None)) == Some(3.0)
    ensures AverageMetrics(e.(complexity := None, speed := None, quality := None)) == None
  {
    var a := e.(complexity := Some(2.0), speed := Some(3.0), quality := Some(3.0));
    assert Metrics(a) == [2.0, 3.0, 3.0];
    assert Numeric.Sum([2.0, 3.0, 3.0]) == 8.0 by {
      assert Numeric.Sum([3.0]) == 3.0;
      assert [3.0, 3.0][1..] == [3.0];
      assert [2.0, 3.0, 3.0][1..] == [3.0, 3.0];
    }
    assert Numeric.RoundHalfAway(8.0 / 3.0 * 10.0) == 27;
    var b := e.(complexity := Some(2.0), speed := Some(4.0), quality := None);
    assert Metrics(b) == [2.0, 4.0];
    assert Numeric.Sum([2.0, 4.0]) == 6.0 by {
      assert [2.0, 4.0][1..] == [4.0];
    }
    assert Numeric.RoundHalfAway(6.0 / 2.0 * 10.0) == 30;
  }

  /** `new?`. */
  predicate IsNew(e: Example) {
    e.status == Some("new")
  }

  /** `completed?`; no record is both new and completed. */
  predicate IsCompleted(e: Example)
    ensures IsCompleted(e) ==> e.status == Some("completed") && !IsNew(e)
  {
    e.status == Some("completed")
  }

  /** The numeric columns the server reads for percentiles and ranks. */
  datatype MetricColumn = PriorityColumn | ScoreColumn | ComplexityColumn | SpeedColumn | QualityColumn
                        | AverageMetricsColumn

  /** The column's name, the key the browser sees. */
  function ColumnName(c: MetricColumn): (n: string)
    ensures n != []
  {
    match c
    case PriorityColumn => "priority"
    case ScoreColumn => "score"
    case ComplexityColumn => "complexity"
    case SpeedColumn => "speed"
    case QualityColumn => "quality"
    case AverageMetricsColumn => "average_metrics"
  }

  /** The value of a numeric column as the server reads it (`pluck`), `None` for SQL NULL. */
  function ColumnValue(e: Example, column: MetricColumn): Option<real> {
    match column
    case PriorityColumn => e.priority
    case ScoreColumn => e.score
    case ComplexityColumn => e.complexity
    case SpeedColumn => e.speed
    case QualityColumn => e.quality
    case AverageMetricsColumn => AverageMetrics(e)
  }

  /** The non-null values of a column over the records, in record order (`where.not(column => nil).pluck(column)`). */
  function ColumnValues(examples: seq<Example>, column: MetricColumn): (r: seq<real>)
    ensures |r| <= |examples|
    ensures forall i :: 0 <= i < |r| ==> exists j :: 0 <= j < |examples| && ColumnValue(examples[j], column) == Some(r[i])
  {
    if examples == [] then []
    else
      var rest := ColumnValues(examples[..|examples| - 1], column);
      var v := ColumnValue(examples[|examples| - 1], column);
      assert forall i :: 0 <= i < |examples| - 1 ==> examples[..|examples| - 1][i] == examples[i];
      if v.Some? then rest + [v.value] else rest
  }

  lemma {:induction false} ColumnValuesEmpty(examples: seq<Example>, column: MetricColumn)
    ensures ColumnValues(examples, column) == [] <==> forall j :: 0 <= j < |examples| ==> ColumnValue(examples[j], column).None?
  {
    if examples != [] {
      var u := examples[..|examples| - 1];
      ColumnValuesEmpty(u, column);
      assert forall j :: 0 <= j < |u| ==> u[j] == examples[j];
    }
  }
}
