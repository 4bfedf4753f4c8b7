# Golden deployment: a verified model of the example table and the quality scanners

This project models the core of a Rails application in Dafny and proves properties of that model. The application has two parts:

- an "examples" table with a filter controller in the browser;
- a quality dashboard that scans other applications and compares them with a golden deployment.

The model covers these parts of that core:

- **The client filter engine** (`filter_controller.js`). It covers:
  - the three places a column can be (hidden, shown, featured);
  - the range filters on featured columns, and each filter's mode;
  - what is persisted to local storage and restored from it;
  - the percentile rank of a cell value;
  - the labels next to each slider;
  - the decision, row by row, of what is shown and what is marked as eliminated.

  The controller is a class. Its fields are updated in place, and its loops are methods proved against specification functions.
- **The server side of the examples page.** It covers:
  - the 21-point percentile table sent to the browser (`calculate_percentile_values`);
  - the validations of the `Example` record and its `average_metrics`;
  - `ExampleService`: statistics, top performers, records needing attention, percentile rank, and the transactional bulk status update;
  - the badge, score, priority and percentile-highlight view helpers.
- **The quality dashboard.** It covers:
  - `App`, `QualityScan` and `MetricSummary`, with their scopes, status rules, colours and the latest summary per scan type;
  - the badge helpers;
  - the status step of `AppScannerJob`;
  - five scanners that turn a tool's output into findings:
    - Brakeman security warnings;
    - RuboCop offenses;
    - reek, flog and flay static analysis;
    - SimpleCov coverage;
    - deployment drift against the golden Gemfile.lock and configuration files.

  Each scanner is a class whose `results` list its parsers append to. `scan` replaces the app's stored findings of that type and upserts the summary.

Module layout:

- One module per source file.
- The shared percentile rank is in `Ranking`.
- Small generic helpers are in `Wrappers`, `Numeric`, `Text` and `Sorting`. Examples of those helpers:
  - rounding half away from zero;
  - `strip`, `split` and `titleize`;
  - a stable insertion sort;
  - an order-preserving filter.

Modelling choices:

- **Integers and numbers.** Integers are unbounded. Rounding is stated exactly on rationals.
- **I/O, processes, clocks, storage.** Everything the source reads from a file, a process, the clock or local storage becomes a parameter. This includes:
  - a file that may be absent (`Option<string>`);
  - a decoded JSON document;
  - the time `now`;
  - whether the app directory exists;
  - whether the user confirmed.
- **Regular expressions.** Each regex becomes a deterministic predicate over characters. The greedy captures the source relies on, such as "the last `.rb:` before a digit", are stated explicitly.

## Model

| member | source | states |
|---|---|---|
| FilterState.ColumnKeys | app/javascript/controllers/filter_controller.js:121-136 | the keys of the defined columns, one per column, in display order |
| FilterState.EffectiveMode | app/javascript/controllers/filter_controller.js:595-602 | `mode \|\| 'filter'`: never empty, and a set mode is kept |
| FilterState.Lookup | app/javascript/controllers/filter_controller.js:771 | a featured key has an entry exactly when it is among the keys, and the entry found belongs to that key |
| FilterState.Replace | app/javascript/controllers/filter_controller.js:772 | assigning an existing key keeps every key in place |
| FilterState.Delete | app/javascript/controllers/filter_controller.js:755 | `delete featured[k]` never lengthens the object |
| FilterState.Without | app/javascript/controllers/filter_controller.js:751 | `filter(c => c !== x)` keeps exactly the other elements |
| FilterState.AddOnce | app/javascript/controllers/filter_controller.js:752-754 | `if (!includes) push`: the element is present afterwards and nothing else is added |
| FilterState.AddAll | app/javascript/controllers/filter_controller.js:802-806 | adding each key once gives exactly the old elements and the keys |
| FilterState.WithoutDistinct | app/javascript/controllers/filter_controller.js:751 | filtering out a key keeps a list free of duplicates |
| FilterState.AddOnceDistinct | app/javascript/controllers/filter_controller.js:752-754 | the guarded push never creates a duplicate |
| FilterState.AddAllDistinct | app/javascript/controllers/filter_controller.js:802-806 | appending the featured keys once each never creates a duplicate |
| FilterState.AddAllExtends | app/javascript/controllers/filter_controller.js:802-806 | the shown list keeps its old elements in place as a prefix |
| FilterState.KeysDelete | app/javascript/controllers/filter_controller.js:755 | the keys after `delete` are the old keys without that key, in order |
| FilterState.KeysPut | app/javascript/controllers/filter_controller.js:763 | assigning a key adds it to the key order once, at the end when it is new |
| FilterState.LookupDelete | app/javascript/controllers/filter_controller.js:755 | after `delete`, the key has no entry and every other key keeps its entry |
| FilterState.LookupPut | app/javascript/controllers/filter_controller.js:763 | after an assignment, the key reads the new value and every other key its old one |
| FilterState.LookupReplace | app/javascript/controllers/filter_controller.js:772 | replacing in place changes only the entry of that key |
| FilterState.LookupAppend | app/javascript/controllers/filter_controller.js:763 | appending a new key changes only that key's entry |
| FilterState.DefaultState | app/javascript/controllers/filter_controller.js:96-100 | with nothing saved, every column is shown and none is hidden or featured |
| FilterState.DefaultPartitioned | app/javascript/controllers/filter_controller.js:96-100 | the default configuration puts every column in exactly one place |
| FilterState.RepairModes | app/javascript/controllers/filter_controller.js:89-94 | every featured entry without a mode gets `'filter'`; keys, order and ranges are unchanged |
| FilterState.LoadState | app/javascript/controllers/filter_controller.js:80-103 | restores hidden and shown lists (`\|\| []`) and featured keys (`\|\| {}`) from the saved state, else the default; every mode is then set |
| FilterState.SaveState | app/javascript/controllers/filter_controller.js:108-115 | all three collections are written |
| FilterState.LoadSaveRoundTrip | app/javascript/controllers/filter_controller.js:80-115 | restoring what was saved gives back the configuration, once every mode is set |
| FilterState.LoadIdempotent | app/javascript/controllers/filter_controller.js:80-115 | saving a restored state and restoring again changes nothing |
| FilterState.SetHandle | app/javascript/controllers/filter_controller.js:477-492 | the moved handle takes the value, the other handle is dragged along when crossed, min <= max afterwards, and the mode is kept |
| FilterState.SetHandleKeepsOther | app/javascript/controllers/filter_controller.js:482-491 | a move that does not cross the other handle leaves it unchanged |
| FilterState.FlipMode | app/javascript/controllers/filter_controller.js:771-772 | an effective `'filter'` becomes `'elimination'`; anything else becomes `'filter'` |
| FilterState.FlipModeTwice | app/javascript/controllers/filter_controller.js:769-776 | toggling twice restores the effective mode |
| FilterState.MoveToShownEffect | app/javascript/controllers/filter_controller.js:749-758 | the key ends up shown and neither hidden nor featured; every other key keeps its place and filter; the shown list stays duplicate-free |
| FilterState.MoveToFeaturedEffect | app/javascript/controllers/filter_controller.js:760-767 | the key gets the full 0..100 filter in filter mode and is no longer shown; hidden is untouched and other keys keep their filters |
| FilterState.MoveToHiddenEffect | app/javascript/controllers/filter_controller.js:778-787 | the key ends up hidden and neither shown nor featured; every other key is unaffected |
| FilterState.RemoveFilterEffect | app/javascript/controllers/filter_controller.js:789-799 | the filter is dropped and the key is shown, appended once; hidden and other filters are unchanged |
| FilterState.ClearAllFiltersEffect | app/javascript/controllers/filter_controller.js:801-812 | no filter is left; every formerly featured key is shown, after the old shown keys, without duplicates; hidden is unchanged |
| FilterState.ToggleModeEffect | app/javascript/controllers/filter_controller.js:769-776 | only the mode of that one entry changes, keeping the key order |
| FilterState.ToggleModeTwice | app/javascript/controllers/filter_controller.js:769-776 | toggling one column twice restores its range and its effective mode |
| FilterState.UpdateSliderEffect | app/javascript/controllers/filter_controller.js:477-494 | only that entry's range changes, to `SetHandle` of it, and it keeps min <= max |
| FilterState.MoveToShownPartitioned | app/javascript/controllers/filter_controller.js:749-758 | every column stays in exactly one place |
| FilterState.MoveToHiddenPartitioned | app/javascript/controllers/filter_controller.js:778-787 | every column stays in exactly one place |
| FilterState.MoveToFeaturedPartitioned | app/javascript/controllers/filter_controller.js:760-767 | featuring a column that is not hidden keeps every column in exactly one place |
| FilterState.MoveToFeaturedFromHidden | app/javascript/controllers/filter_controller.js:760-767 | featuring a hidden column leaves it both hidden and featured, since the hidden list is not filtered |
| FilterState.RemoveFilterPartitioned | app/javascript/controllers/filter_controller.js:789-799 | dropping a featured column's filter keeps the partition |
| FilterState.ClearAllFiltersPartitioned | app/javascript/controllers/filter_controller.js:801-812 | clearing all filters keeps the partition |
| FilterState.ToggleModePartitioned | app/javascript/controllers/filter_controller.js:769-776 | toggling a mode keeps the partition |
| FilterState.UpdateSliderPartitioned | app/javascript/controllers/filter_controller.js:477-494 | moving a slider keeps the partition |
| FilterState.PutOrdered | app/javascript/controllers/filter_controller.js:763 | assigning an ordered range keeps every featured range ordered (min <= max) |
| FilterState.MoveToShownOrdered | app/javascript/controllers/filter_controller.js:749-758 | `moveToShown` keeps every featured range ordered |
| FilterState.MoveToFeaturedOrdered | app/javascript/controllers/filter_controller.js:760-767 | `moveToFeatured` keeps every featured range ordered; the new one is 0..100 |
| FilterState.MoveToHiddenOrdered | app/javascript/controllers/filter_controller.js:778-787 | `moveToHidden` keeps every featured range ordered |
| FilterState.RemoveFilterOrdered | app/javascript/controllers/filter_controller.js:789-799 | `removeFilter` keeps every featured range ordered |
| FilterState.ClearAllFiltersOrdered | app/javascript/controllers/filter_controller.js:801-812 | after `clearAllFilters` no range is left, so all are ordered |
| FilterState.ToggleModeOrdered | app/javascript/controllers/filter_controller.js:769-776 | `toggleMode` keeps the range of the entry, so every featured range stays ordered |
| FilterState.UpdateSliderOrdered | app/javascript/controllers/filter_controller.js:477-492 | `updateSlider` drags the other handle along, so every featured range stays ordered |
| FilterState.LoadStateOrdered | app/javascript/controllers/filter_controller.js:80-103 | `loadState` trusts the stored ranges: they come back ordered exactly when they were stored ordered, and the default has none |
| FilterState.MoveToShown | app/javascript/controllers/filter_controller.js:749-758 | `moveToShown` on the configuration; what it does is stated by `MoveToShownEffect`, `MoveToShownPartitioned` and `MoveToShownOrdered` |
| FilterState.MoveToFeatured | app/javascript/controllers/filter_controller.js:760-767 | `moveToFeatured`; stated by `MoveToFeaturedEffect`, `MoveToFeaturedPartitioned`, `MoveToFeaturedFromHidden` and `MoveToFeaturedOrdered` |
| FilterState.MoveToHidden | app/javascript/controllers/filter_controller.js:778-787 | `moveToHidden`; stated by `MoveToHiddenEffect`, `MoveToHiddenPartitioned` and `MoveToHiddenOrdered` |
| FilterState.RemoveFilter | app/javascript/controllers/filter_controller.js:789-799 | `removeFilter`; stated by `RemoveFilterEffect`, `RemoveFilterPartitioned` and `RemoveFilterOrdered` |
| FilterState.ClearAllFilters | app/javascript/controllers/filter_controller.js:801-812 | `clearAllFilters`; stated by `ClearAllFiltersEffect`, `ClearAllFiltersPartitioned` and `ClearAllFiltersOrdered` |
| FilterState.ToggleMode | app/javascript/controllers/filter_controller.js:769-776 | `toggleMode` on a featured column; stated by `ToggleModeEffect`, `ToggleModeTwice`, `ToggleModePartitioned` and `ToggleModeOrdered` |
| FilterState.UpdateSlider | app/javascript/controllers/filter_controller.js:477-492 | `updateSlider` on a featured column; stated by `UpdateSliderEffect`, `UpdateSliderPartitioned` and `UpdateSliderOrdered` |
| RowFilter.VisibleFrom | app/javascript/controllers/filter_controller.js:722-724 | a key is kept exactly when it is shown or featured |
| RowFilter.VisibleKeys | app/javascript/controllers/filter_controller.js:145-147 | the table's columns on screen are exactly the defined columns that are shown or featured |
| RowFilter.IndexOf | app/javascript/controllers/filter_controller.js:726 | `findIndex`: the first position holding the key, or -1 exactly when the key is absent |
| RowFilter.ColumnIndex | app/javascript/controllers/filter_controller.js:721-728 | a visible column's cell position holds its key; a column not on screen reads position 0 |
| RowFilter.Present | app/javascript/controllers/filter_controller.js:686-693 | the numbers in one cell position over the rows, at most one per row |
| RowFilter.Sample | app/javascript/controllers/filter_controller.js:681-701 | a permutation of a column's numbers over all rows, in ascending order |
| RowFilter.ModeEntries | app/javascript/controllers/filter_controller.js:595-603 | exactly the featured entries whose effective mode is the one asked for |
| RowFilter.CellRank | app/javascript/controllers/filter_controller.js:636-637 | the rank of a cell's number is a percent between 0 and 100 |
| RowFilter.MarkedByStep | app/javascript/controllers/filter_controller.js:654-667 | one more elimination column adds its cell exactly when that cell fails |
| RowFilter.Evaluate | app/javascript/controllers/filter_controller.js:608-673 | one outcome per row |
| RowFilter.VisibleCount | app/javascript/controllers/filter_controller.js:646-650 | the visible count never exceeds the number of rows |
| RowFilter.VisibleCountAppend | app/javascript/controllers/filter_controller.js:650 | counting visible rows adds up over consecutive batches |
| RowFilter.VisibleCountAll | app/javascript/controllers/filter_controller.js:583-591 | when every row is shown, the count is the number of rows |
| RowFilter.NoFiltersShowEverything | app/javascript/controllers/filter_controller.js:583-592 | with nothing featured and no search, every row is shown, nothing is marked, and the count is all rows |
| RowFilter.VisibleIff | app/javascript/controllers/filter_controller.js:615-650 | a row is shown exactly when its text contains the search term and no filter-mode column rejects it (no number, or a rank outside the range) |
| RowFilter.FailingIff | app/javascript/controllers/filter_controller.js:652-672 | a cell is marked exactly when the row is shown and an elimination-mode column there has a number ranked outside its range; the row is marked exactly when some cell is |
| RowFilter.HiddenRowsUnmarked | app/javascript/controllers/filter_controller.js:612-644 | a hidden row carries no marks |
| RowFilter.FullRangeKeepsNumbers | app/javascript/controllers/filter_controller.js:636-641 | a 0..100 range never rejects or marks a cell that holds a number |
| RowFilter.UnknownKeyReadsFirstCell | app/javascript/controllers/filter_controller.js:726-727 | a featured key that is not a table column reads the first cell |
| RowFilter.PassesSearch | app/javascript/controllers/filter_controller.js:615-622 | the row text contains the search term; part of `VisibleIff` |
| RowFilter.PassesFilters | app/javascript/controllers/filter_controller.js:624-647 | no filter-mode column rejects the row; its meaning is stated by `VisibleIff` and decided by `FilterController.CheckFilters` |
| RowFilter.FailingCells | app/javascript/controllers/filter_controller.js:653-668 | the failing elimination cells of a shown row; stated by `FailingIff` and computed by `FilterController.MarkEliminations` |
| RowFilter.Outcome | app/javascript/controllers/filter_controller.js:609-672 | one row's outcome; stated by `VisibleIff`, `FailingIff` and `HiddenRowsUnmarked` |
| SliderLabels.LowerMark | app/javascript/controllers/filter_controller.js:536 | `Math.floor(p/5)*5`: the mark at or just below p |
| SliderLabels.UpperMark | app/javascript/controllers/filter_controller.js:537 | `Math.ceil(p/5)*5`: the mark at or just above p, equal to the lower mark exactly on a mark |
| SliderLabels.InterpolateValue | app/javascript/controllers/filter_controller.js:535-550 | on a mark, the entry, with 0 and missing both giving null; between marks, the point on the line through the two neighbouring entries (`lowerV + fraction * (upperV - lowerV)`), which lies between them, or null when either is missing |
| SliderLabels.FullTableDefined | app/javascript/controllers/filter_controller.js:535-550 | on a full 21-mark table every position has a value, except a mark whose entry is 0 |
| SliderLabels.InterpolateMonotone | app/javascript/controllers/filter_controller.js:535-550 | on a non-decreasing table a later slider position never shows a smaller value |
| SliderLabels.GetValueRange | app/javascript/controllers/filter_controller.js:520-530 | both ends' values, or null when the column has no table or either end has no value |
| SliderLabels.GetValueRangeOrdered | app/javascript/controllers/filter_controller.js:520-530 | for an ordered slider on a non-decreasing table, the label's lower value is at most its upper value |
| FilterController.GetPercentile | app/javascript/controllers/filter_controller.js:706-716 | 0 for an empty sample; otherwise the count of leading values <= v, rounded as a percent; on a sorted sample that is the rank of v |
| FilterController.CollectValues | app/javascript/controllers/filter_controller.js:686-693 | the loop collects `Present` of the cell position |
| FilterController.FilterableColumns | app/javascript/controllers/filter_controller.js:174 | exactly the filterable columns |
| FilterController.ExampleValues | app/javascript/controllers/filter_controller.js:177-182 | at most one number per example |
| FilterController.CollectExampleValues | app/javascript/controllers/filter_controller.js:177-182 | the loop collects exactly `ExampleValues` |
| FilterController.SortedExampleValues | app/javascript/controllers/filter_controller.js:174-187 | one entry per key, holding that key's numbers over all examples sorted ascending |
| FilterController.CalculateAllPercentiles | app/javascript/controllers/filter_controller.js:171-189 | the keys are exactly the filterable columns, each with its numbers over the examples, ascending |
| FilterController.CalculatePercentiles | app/javascript/controllers/filter_controller.js:681-701 | the keys are exactly the given columns, each with the `Sample` of its cell position |
| FilterController.CheckFilters | app/javascript/controllers/filter_controller.js:624-642 | the early-exit loop decides exactly `PassesFilters` |
| FilterController.MarkEliminations | app/javascript/controllers/filter_controller.js:653-667 | the loop marks exactly `FailingCells` |
| FilterController.ApplyToRow | app/javascript/controllers/filter_controller.js:608-672 | one row's outcome is exactly `Outcome` |
| FilterController.ApplyToRows | app/javascript/controllers/filter_controller.js:608-675 | each row's outcome is exactly `Evaluate`, and the count is the visible rows |
| FilterController.FeaturedCellsPresent | app/javascript/controllers/filter_controller.js:626-628 | every featured key reads a cell that every covered row has |
| FilterController.Controller.constructor | app/javascript/controllers/filter_controller.js:23-34 | the columns are defined, the search is empty, and the configuration is `loadState` of what is stored |
| FilterController.Controller.LoadState | app/javascript/controllers/filter_controller.js:80-103 | the configuration becomes `FilterState.LoadState` of storage; nothing else changes |
| FilterController.Controller.SaveState | app/javascript/controllers/filter_controller.js:108-115 | storage holds the current configuration |
| FilterController.Controller.UpdateSlider | app/javascript/controllers/filter_controller.js:477-498 | the configuration becomes `FilterState.UpdateSlider` of the old one, and it is saved |
| FilterController.Controller.HandleSearch | app/javascript/controllers/filter_controller.js:567-570 | the search term is the value lower-cased and trimmed |
| FilterController.Controller.MoveToShown | app/javascript/controllers/filter_controller.js:749-758 | the configuration becomes `FilterState.MoveToShown` of the old one, and it is saved |
| FilterController.Controller.MoveToFeatured | app/javascript/controllers/filter_controller.js:760-767 | the configuration becomes `FilterState.MoveToFeatured` of the old one, and it is saved |
| FilterController.Controller.ToggleMode | app/javascript/controllers/filter_controller.js:769-776 | the configuration becomes `FilterState.ToggleMode` of the old one, and it is saved |
| FilterController.Controller.MoveToHidden | app/javascript/controllers/filter_controller.js:778-787 | the configuration becomes `FilterState.MoveToHidden` of the old one, and it is saved |
| FilterController.Controller.RemoveFilter | app/javascript/controllers/filter_controller.js:789-799 | the configuration becomes `FilterState.RemoveFilter` of the old one, and it is saved |
| FilterController.Controller.ClearAllFilters | app/javascript/controllers/filter_controller.js:801-812 | the configuration becomes `FilterState.ClearAllFilters` of the old one, and it is saved |
| FilterController.Controller.ResetConfiguration | app/javascript/controllers/filter_controller.js:822-827 | unconfirmed, nothing changes; confirmed, storage is cleared and the reloaded page has the default configuration and an empty search |
| FilterController.Controller.ApplyFilters | app/javascript/controllers/filter_controller.js:580-676 | with the ranks of all rows, every row's outcome is `Evaluate` and the count is its visible rows |
| Ranking.CountLe | app/services/example_service.rb:118 | the count of sample values <= v is at most the sample size |
| Ranking.Rank | app/services/example_service.rb:113-120 | 0 for an empty sample; otherwise the whole percent nearest 100·count/n, halves up |
| Ranking.CountLeAppend | app/services/example_service.rb:118 | counting adds up over concatenated samples |
| Ranking.CountLeMonotone | app/services/example_service.rb:118 | a larger value never counts fewer sample values |
| Ranking.RankMonotone | app/services/example_service.rb:113-120 | a larger value never has a smaller rank |
| Ranking.CountLeAll | app/services/example_service.rb:118 | a value at or above every sample value counts all of them |
| Ranking.CountLeNone | app/services/example_service.rb:118 | a value below every sample value counts none |
| Ranking.RankAtOrAboveMax | app/services/example_service.rb:113-120 | a value at or above every sample value ranks 100 |
| Ranking.RankBelowMin | app/services/example_service.rb:113-120 | a value below every sample value ranks 0 |
| Ranking.RemoveAt | app/services/example_service.rb:114 | removing one element shortens the sample by one |
| Ranking.CountLePermutation | app/services/example_service.rb:114-118 | the count depends only on the multiset of values, not on their order |
| Ranking.RankOfSorted | app/services/example_service.rb:114 | sorting the sample leaves every rank unchanged |
| Ranking.PrefixLe | app/javascript/controllers/filter_controller.js:710-713 | the length of the longest leading run of values <= v is at most the sample size |
| Ranking.PrefixLeSorted | app/javascript/controllers/filter_controller.js:706-716 | on a sorted sample the early-exit count equals the full count |
| Ranking.RankExamples | spec/services/example_service_spec.rb:205-239 | the sample 10, 25, 50, 75, 90: 50 ranks 60, 10 ranks 20, 90 ranks 100, 5 ranks 0 |
| Ranking.RankExampleAboveMax | spec/services/example_service_spec.rb:231-234 | on the same sample 100 ranks 100 |
| Ranking.RankAtMin | app/services/example_service.rb:113-120 | the smallest sample value ranks at least `round(100 / n)`, the share of one value |
| Numeric.RoundTenths | app/models/example.rb:19 | `round(1)`: a multiple of 0.1 in the window of width 0.1 around x, closed towards zero and open away from it, so halves round away from zero |
| Numeric.RoundTenthsUnique | app/models/example.rb:19 | the only multiple of 0.1 in that window is `round(1)` of x |
| Numeric.RoundHundredths | app/services/example_service.rb:38-39 | `round(2)`: a multiple of 0.01 in the window of width 0.01 around x, closed towards zero and open away from it |
| Numeric.RoundHundredthsUnique | app/services/example_service.rb:38-39 | the only multiple of 0.01 in that window is `round(2)` of x |
| ExampleModel.MessageText | app/models/example.rb:9-13 | the bound errors read "must be greater than or equal to n" and "must be less than or equal to n" |
| ExampleModel.PresenceErrors | app/models/example.rb:6 | a blank error exactly when the value is nil or whitespace |
| ExampleModel.InclusionErrors | app/models/example.rb:7-8 | an inclusion error exactly when the value is outside the list, nil allowed only where `allow_nil` |
| ExampleModel.NumericalityErrors | app/models/example.rb:9-13 | no error exactly for nil or an in-range value (integral where required); a non-integer gets only that error, otherwise each violated bound its own |
| ExampleModel.MetricErrors | app/models/example.rb:9 | priority and the metrics: no error exactly for nil or an integer in 1..5 |
| ExampleModel.FieldErrors | app/models/example.rb:6-13 | every error of an attribute's check names that attribute |
| ExampleModel.FieldIndex | app/models/example.rb:6-13 | each attribute's position in the declared validation order |
| ExampleModel.ErrorsFor | app/models/example.rb:6-13 | the errors of a list of attributes are exactly their own errors |
| ExampleModel.Errors | app/models/example.rb:6-13 | an attribute has an error exactly when its condition fails |
| ExampleModel.FieldErrorsIff | app/models/example.rb:6-13 | an attribute's own check is empty exactly when its condition holds |
| ExampleModel.ValidIff | app/models/example.rb:3-13 | valid exactly when: name not blank; status in the four statuses; category nil or one of four; priority, complexity, speed, quality nil or integers in 1..5; score nil or in 0..100 |
| ExampleModel.Valid | app/models/example.rb:6-13 | no validation error; what that means attribute by attribute is stated by `ValidIff` |
| ExampleModel.FieldErrorsInErrors | app/models/example.rb:6-13 | every error of an attribute's check is among the record's errors |
| ExampleModel.ValidationExamples | spec/models/example_spec.rb:5-93 | 2.5 priority is not an integer; 0 and 6 break the bounds; 85.5 score is fine, -1 is not; no name is blank; no category is fine |
| ExampleModel.Metrics | app/models/example.rb:17 | `compact` of the three metrics: empty exactly when all are nil |
| ExampleModel.AverageMetrics | app/models/example.rb:16-20 | nil exactly when no metric is present; otherwise `Numeric.RoundTenths` of the mean of the present metrics: a multiple of 0.1 whose rounding window holds the mean |
| ExampleModel.AverageOfValidInRange | app/models/example.rb:11-20 | a valid record's average metric lies in 1..5 |
| ExampleModel.AverageMetricsExamples | spec/models/example_spec.rb:144-169 | (2, 3, 3) averages 2.7, (2, 4, nil) gives 3.0, and no metrics give nil |
| ExampleModel.IsNew | app/models/example.rb:23-25 | `new?`, a plain definition; how it relates to the statistics is stated by `ExampleService.StatusCountsMatchPredicates` |
| ExampleModel.IsCompleted | app/models/example.rb:27-29 | `completed?` holds only for status "completed", and never together with `new?` |
| ExampleModel.ColumnName | app/controllers/examples_controller.rb:25-27 | every numeric column has a name |
| ExampleModel.ColumnValues | app/controllers/examples_controller.rb:33-36 | the column's non-null values, each from some record |
| ExampleModel.ColumnValuesEmpty | app/controllers/examples_controller.rb:38 | no values exactly when every record's column is NULL |
| PercentileTable.MarkIndex | app/controllers/examples_controller.rb:45 | `((n-1)·p/100.0).round`: the index nearest (n-1)·p/100, halves up, inside 0..n-1 |
| PercentileTable.MarkIndexMonotone | app/controllers/examples_controller.rb:45 | a later mark never reads an earlier index |
| PercentileTable.MarkIndexEnds | app/controllers/examples_controller.rb:45 | mark 0 reads the first value and mark 100 the last |
| PercentileTable.MarkIndexOfTen | app/controllers/examples_controller.rb:45 | with ten values, mark 50 reads index 5 |
| PercentileTable.AsMap | app/controllers/examples_controller.rb:42-47 | every mark written is a key of the hash |
| PercentileTable.AsMapLookup | app/controllers/examples_controller.rb:46 | with distinct marks, each mark reads the value written for it |
| PercentileTable.AsMapKeys | app/controllers/examples_controller.rb:42-47 | every key of the hash was written |
| PercentileTable.TableMarks | app/controllers/examples_controller.rb:43 | the table's keys are exactly the 21 marks 0, 5, ..., 100 |
| PercentileTable.TableLookup | app/controllers/examples_controller.rb:43-46 | mark 5k holds the value at `MarkIndex`, rounded to two places |
| PercentileTable.TableEnds | app/controllers/examples_controller.rb:33-46 | on sorted values, mark 0 holds the rounded minimum, mark 100 the rounded maximum, and every value lies between them |
| PercentileTable.TableMonotone | app/controllers/examples_controller.rb:33-46 | on sorted values the table never decreases, as the slider labels need |
| PercentileTable.ColumnTable | app/controllers/examples_controller.rb:42-47 | one column's table; stated by `TableMarks`, `TableLookup`, `TableEnds` and `TableMonotone` |
| PercentileTable.ColumnPercentiles | app/controllers/examples_controller.rb:42-47 | the loop over the marks builds exactly `ColumnTable` |
| PercentileTable.CalculatePercentileValues | app/controllers/examples_controller.rb:23-51 | exactly the filterable columns with a value get an entry, holding the table of their sorted values |
| ExampleService.AverageOf | app/services/example_service.rb:38-39 | nil exactly for no values; otherwise `Numeric.RoundHundredths` of the mean: a multiple of 0.01 whose rounding window holds the mean |
| ExampleService.StatusCount | app/services/example_service.rb:28-30 | a status count never exceeds the record count |
| ExampleService.StatusCountAppend | app/services/example_service.rb:28-30 | `where(status: s).count` counts record by record: none for no records, and one more record adds one exactly when it has status s |
| ExampleService.CalculateStatistics | app/services/example_service.rb:26-41 | total is the record count; completed, in progress and new are the `StatusCount`s of those statuses; the completion rate is completed/total, 0 for none, and in 0..1; each average is `AverageOf` the column's non-null values, nil exactly when no record has the field |
| ExampleService.StatusCountsBounded | app/services/example_service.rb:27-30 | completed, in progress and new together never exceed the total |
| ExampleService.StatusCountsMatchPredicates | app/services/example_service.rb:27-30 | the new and completed counts are the numbers of records for which `new?` and `completed?` hold, and together they never exceed the total |
| ExampleService.StatisticsOfValid | app/services/example_service.rb:38-39 | over valid records the average score lies in 0..100 and the average priority in 1..5 |
| ExampleService.ValuesInRange | app/services/example_service.rb:38-39 | a bound on every record's column bounds every averaged value |
| ExampleService.ScoreDescPreorder | app/services/example_service.rb:54 | `order(score: :desc)` is a total preorder |
| ExampleService.Take | app/services/example_service.rb:55 | `limit(n)`: the first n elements, or all of them |
| ExampleService.TopPerformers | app/services/example_service.rb:51-56 | at most `limit` records, all completed with a score >= min_score, best score first; fewer only when fewer qualify |
| ExampleService.TopPerformersAreTop | app/services/example_service.rb:51-56 | every qualifying record left out scores no higher than every record returned |
| ExampleService.SortedSplit | app/services/example_service.rb:54-55 | in a best-first list nothing after the cut beats anything before it |
| ExampleService.PriorityDescCreatedAscPreorder | app/services/example_service.rb:68 | `order(priority: :desc, created_at: :asc)` is a total preorder |
| ExampleService.NeedsAttention | app/services/example_service.rb:65-69 | a permutation of the records of priority 4 or 5 that are not completed (a NULL status is left out as SQL does), highest priority then oldest first |
| ExampleService.NeedsAttentionComplete | app/services/example_service.rb:65-69 | every qualifying record is returned |
| ExampleService.CalculatePercentileRank | app/services/example_service.rb:113-120 | the rank of the score among the column's non-null values, at most 100, and 0 when the column has none |
| ExampleService.PercentileRankIgnoresNull | app/services/example_service.rb:114 | a record with NULL in the column changes no rank |
| ExampleService.PercentileRankAtOrAboveMax | app/services/example_service.rb:113-120 | a score at or above every value ranks 100 |
| ExampleService.PercentileRankBelowMin | app/services/example_service.rb:113-120 | a score below every value ranks 0 |
| ExampleService.PercentileRankExample | spec/services/example_service_spec.rb:205-229 | scores 10, 25, 50, 75, 90: 50 ranks 60, 10 ranks 20, 90 ranks 100 |
| ExampleService.Find | app/services/example_service.rb:88-89 | `find_by(id:)`: the first record with that id, or none exactly when no record has it |
| ExampleService.FindSameExceptStatus | app/services/example_service.rb:88 | status updates never change which record an id finds |
| ExampleService.FoundCount | app/services/example_service.rb:87-92 | the ids that find a record are at most all ids |
| ExampleService.Targets | app/services/example_service.rb:87-92 | the targeted positions lie inside the table |
| ExampleService.TargetsSameExceptStatus | app/services/example_service.rb:87-92 | status updates change neither the targets nor their count |
| ExampleService.TargetsIff | app/services/example_service.rb:87-92 | a position is a target exactly when some id finds it |
| ExampleService.SetStatusSameExceptStatus | app/services/example_service.rb:91 | updating a status keeps every other attribute of every record |
| ExampleService.BatchCommitsIff | app/services/example_service.rb:86-97 | the transaction commits exactly when every found record is valid with the new status |
| ExampleService.BatchCommitted | app/services/example_service.rb:86-97 | a committed transaction counts every found id and sets the new status on exactly the targets |
| ExampleService.BulkUpdateAsWritten | app/services/example_service.rb:81-102 | as written: an unknown status fails at once with no change; otherwise success is reported, even after a rollback |
| ExampleService.BulkUpdate | app/services/example_service.rb:81-102 | corrected: an unknown status fails with no change, and any outcome other than success leaves the table unchanged |
| ExampleService.BulkUpdateOutcome | app/services/example_service.rb:81-102 | with a known status, success exactly when every found record is valid with it; then the count is the found ids and exactly those records change status; else nothing changes |
| ExampleService.BulkUpdateRollbackReportsSuccess | app/services/example_service.rb:86-99 | a batch whose second record has no name: as written it reports one update although the table is unchanged; the corrected update reports failure |
| ExampleService.ExampleStore.constructor | app/services/example_service.rb:81 | the store holds the given records |
| ExampleService.ExampleStore.BulkUpdateStatus | app/services/example_service.rb:81-102 | the result and the new table are those of the corrected `BulkUpdate` |
| ExamplesHelper.ToS | app/helpers/examples_helper.rb:23 | `to_s`: the string itself, empty for nil |
| ExamplesHelper.StatusColorClass | app/helpers/examples_helper.rb:8-13 | gray exactly when the status is not new, in progress or completed |
| ExamplesHelper.StatusLabel | app/helpers/examples_helper.rb:15-23 | the four known labels; any other status, nil included, the titleized `to_s` |
| ExamplesHelper.StatusBadge | app/helpers/examples_helper.rb:7-26 | the label is `StatusLabel`; the class is gray exactly for archived, unknown and nil |
| ExamplesHelper.CategoryColorClass | app/helpers/examples_helper.rb:34-48 | gray exactly for nil or an unknown category |
| ExamplesHelper.CategoryLabel | app/helpers/examples_helper.rb:41-49 | UI, Backend, Data, Deploy; anything else the titleized `to_s` |
| ExamplesHelper.CategoryBadge | app/helpers/examples_helper.rb:33-52 | the label is `CategoryLabel`; the class is gray exactly for nil or an unknown category |
| ExamplesHelper.ValidExampleBadges | app/helpers/examples_helper.rb:7-52 | a valid record's badges never fall back: its status has its own label, and a category it has is not gray |
| ExamplesHelper.FormatScore | app/helpers/examples_helper.rb:59-71 | a dash for nil; otherwise the score rounded to one place, green from 90, yellow from 75, gray below, judged on the unrounded score |
| ExamplesHelper.FormatScoreMonotone | app/helpers/examples_helper.rb:62-68 | a higher score never gets a weaker highlight |
| ExamplesHelper.FormatPriority | app/helpers/examples_helper.rb:78-91 | a dash for nil; classes for 5, 4, 3 and 2; gray for 1 and anything outside 1..5 |
| ExamplesHelper.FormatPriorityDistinct | app/helpers/examples_helper.rb:81-89 | the five valid priorities get five different classes, none the nil class |
| ExamplesHelper.CalculatePercentile | app/helpers/examples_helper.rb:119-126 | the first mark, in hash order, whose value is >= the value; 100 when there is none |
| ExamplesHelper.CalculatePercentileMonotone | app/helpers/examples_helper.rb:119-126 | on ascending marks up to 100, a larger value never gets a smaller percentile |
| ExamplesHelper.CalculatePercentileExamples | spec/helpers/examples_helper_spec.rb:206-238 | on the five-mark table: 30 gives 50, 5 gives 0, 150 gives 100, 50 gives 50 |
| ExamplesHelper.Highlight | app/helpers/examples_helper.rb:105-113 | bold green from 95, green from 90, yellow from 75, none below |
| ExamplesHelper.PercentileClass | app/helpers/examples_helper.rb:98-114 | as written: no class for a missing value, table or column; otherwise the highlight of `CalculatePercentile` |
| ExamplesHelper.ScoreTable | spec/helpers/examples_helper_spec.rb:159-171 | the seven-mark score table, marks ascending |
| ExamplesHelper.PercentileClassRoundsUp | app/helpers/examples_helper.rb:98-126 | as written, 92 gets the top highlight and 80 the green one, one tier above the percentile each has reached |
| ExamplesHelper.ScoreTableLookups | app/helpers/examples_helper.rb:119-126 | the as-written lookups of 92, 80, 96 and 50 are 95, 90, 100 and 50 |
| ExamplesHelper.ReachedPercentile | spec/helpers/examples_helper_spec.rb:185-203 | corrected: the last mark whose value is <= the value, 0 below them all |
| ExamplesHelper.PercentileClassCorrected | app/helpers/examples_helper.rb:98-114 | corrected: no class for a missing value, table or column; otherwise the highlight of the reached percentile |
| ExamplesHelper.CorrectedHighlightIsReached | app/helpers/examples_helper.rb:105-113 | a corrected highlight is earned: a mark of at least 75 has a value <= the value |
| ExamplesHelper.PercentileClassCorrectedExamples | spec/helpers/examples_helper_spec.rb:185-203 | corrected: 96 gets the top highlight, 92 green, 80 yellow, 50 none |
| ExamplesHelper.ReachedScoreTable | spec/helpers/examples_helper_spec.rb:185-203 | the corrected lookups of 96, 92, 80 and 50 are 95, 90, 75 and 50 |
| ExamplesHelper.ReachedUpper | spec/helpers/examples_helper_spec.rb:185-193 | the corrected lookups of 96 and 92 are 95 and 90 |
| ExamplesHelper.ReachedLower | spec/helpers/examples_helper_spec.rb:195-203 | the corrected lookups of 80 and 50 are 75 and 50 |
| ExamplesHelper.Reached | spec/helpers/examples_helper_spec.rb:185-203 | a value reaching a mark and no later one has that mark's percentile |
| ExamplesHelper.FiveMarkTable | spec/helpers/examples_helper_spec.rb:207-215 | the five-mark table of the lookup's examples, marks ascending |
| ExamplesHelper.ReachedFiveMarkTableDiffers | spec/helpers/examples_helper_spec.rb:217-221 | on that table the corrected rule gives 25 for 30 and the as-written lookup 50 |
| ExamplesHelper.ReachedFiveMarkTableAgrees | spec/helpers/examples_helper_spec.rb:223-236 | on that table the corrected rule agrees with the other three examples: 5 gives 0, 150 gives 100, 50 gives 50 |
| QualityScanModel.ValidationErrors | app/models/quality_scan.rb:4-8 | an error for a scan type outside the seven, and for a severity that is set and outside the five |
| QualityScanModel.Valid | app/models/quality_scan.rb:7-8 | no validation error; stated by `ValidationErrors` |
| QualityScanModel.ByType | app/models/quality_scan.rb:11 | exactly the findings of that scan type |
| QualityScanModel.BySeverity | app/models/quality_scan.rb:12 | exactly the findings with that severity |
| QualityScanModel.CriticalIssues | app/models/quality_scan.rb:13 | exactly the critical and high findings |
| QualityScanModel.CriticalIssuesSplit | app/models/quality_scan.rb:13 | the critical issues number the critical findings plus the high ones |
| QualityScanModel.CountSeverities | app/services/security_scanner.rb:80-83 | total, critical plus high, medium and low counts, which together never exceed the total |
| QualityScanModel.SeverityCountsBounded | app/services/security_scanner.rb:80-83 | a finding has one severity, so the three counts never exceed the total |
| QualityScanModel.CountSeveritiesAppend | app/services/security_scanner.rb:80-83 | counts add up over consecutive batches |
| MetricSummaryModel.Status | app/models/metric_summary.rb:11-16 | healthy whenever there are no issues; otherwise critical on any high, warning on more than five medium, else healthy |
| MetricSummaryModel.ColorOf | app/models/metric_summary.rb:18-25 | green, yellow and red for the three statuses, gray for anything else |
| MetricSummaryModel.StatusColor | app/models/metric_summary.rb:18-25 | never gray, since the status is always one of the three; each colour exactly when its status holds |
| MetricSummaryModel.StatusExamples | spec/models/metric_summary_spec.rb:34-59 | no issues is healthy despite high counts; one high is critical; six medium warn; five stay healthy; low only is healthy |
| MetricSummaryModel.CountedSummary | app/services/security_scanner.rb:76-87 | the four counts come from the findings, the time is now, the rest is kept; critical exactly when a critical-or-high finding exists |
| AppModel.ScannedDescPreorder | app/models/app.rb:21 | `order(scanned_at: :desc)` is a total preorder |
| AppModel.FirstByType | app/models/app.rb:21 | `group_by(...).transform_values(&:first)` has an entry for every type present |
| AppModel.FirstByTypeFrom | app/models/app.rb:21 | every entry is a summary of that type |
| AppModel.FirstByTypeFirst | app/models/app.rb:21 | a type's entry comes no later than any summary of the type |
| AppModel.LatestByType | app/models/app.rb:20-22 | exactly the types present, each mapped to one of its summaries |
| AppModel.LatestByTypeKeys | app/models/app.rb:20-22 | sorting first does not change which types are present or where their entries come from |
| AppModel.LatestByTypeIsLatest | app/models/app.rb:20-22 | no summary of a type postdates its entry |
| AppModel.WithoutType | app/services/security_scanner.rb:65 | `where(scan_type: t).delete_all` keeps exactly the findings of other types |
| AppModel.ReplacedScansOfType | app/services/security_scanner.rb:63-77 | after replacing, the stored findings of the type are exactly the new results, in order |
| AppModel.NewSummary | app/services/security_scanner.rb:79 | a new summary has the type, zero counts and nothing else set |
| AppModel.FindOrInitialize | app/services/security_scanner.rb:79 | the first stored summary of the type, else a new one |
| AppModel.Upsert | app/services/security_scanner.rb:85 | `save!` stores the summary, keeps the others of other types, and grows the list only for a new type |
| AppModel.UpsertUnique | app/services/security_scanner.rb:79-85 | saving keeps at most one summary per type |
| AppModel.UniqueLatest | app/models/app.rb:20-22 | with one summary per type, the latest of that type is the stored one |
| AppModel.App.constructor | app/models/app.rb:1-6 | a new app has its name and path, no status, no scan time and no stored findings or summaries |
| AppModel.App.SummaryFor | app/services/security_scanner.rb:79 | the summary of the type, taken from storage exactly when one is stored |
| AppModel.App.ReplaceScans | app/services/security_scanner.rb:63-71 | the findings become the other types' findings followed by the results; nothing else changes |
| AppModel.App.SaveSummary | app/services/security_scanner.rb:85 | the summaries become `Upsert` of the old ones; nothing else changes |
| AppModel.App.ScanStatusColor | app/models/app.rb:11-18 | green, yellow and red for the three statuses; anything else, nil included, is gray |
| AppModel.App.LatestSummaries | app/models/app.rb:20-22 | exactly the types present, each with one of its summaries that no other summary of the type postdates |
| ApplicationHelper.StatusBadgeClass | app/helpers/application_helper.rb:2-13 | one class per health status; anything else is gray |
| ApplicationHelper.StatusBadgeFollowsColor | app/helpers/application_helper.rb:2-13 | each badge class exactly when the model's status colour is the matching colour |
| ApplicationHelper.SeverityBadgeClass | app/helpers/application_helper.rb:15-26 | critical and high are red, medium yellow, low blue, anything else gray |
| ApplicationHelper.RedBadgesAreCriticalIssues | app/helpers/application_helper.rb:15-26 | a finding gets the red badge exactly when `critical_issues` keeps it |
| AppScannerJob.DetermineStatus | app/jobs/app_scanner_job.rb:34-38 | critical exactly when a critical-or-high finding exists; otherwise warning above five medium, else healthy |
| AppScannerJob.StatusCounts | app/jobs/app_scanner_job.rb:25-26 | the critical-plus-high count and the medium count, together at most all findings |
| AppScannerJob.UpdateAppStatus | app/jobs/app_scanner_job.rb:24-32 | the app is stamped and gets the status of its findings, never gray; findings and summaries are unchanged |
| AppScannerJob.SummaryStatusMatchesJob | app/jobs/app_scanner_job.rb:34-38 | a summary counted from findings has the status the job would give |
| AppScannerJob.StatusRulesDifferOnInconsistentCounts | app/models/metric_summary.rb:11-16 | a summary claiming no issues but one high is healthy, while the job calls one high critical |
| SecurityScanner.SeverityForConfidence | app/services/security_scanner.rb:54-61 | high confidence is critical, medium is high, weak is medium, anything else low, ignoring case |
| SecurityScanner.LowerIdempotent | app/services/security_scanner.rb:55 | down-casing twice is down-casing once |
| SecurityScanner.SeverityIgnoresCase | app/services/security_scanner.rb:55 | the severity depends only on the down-cased confidence |
| SecurityScanner.WarningResult | app/services/security_scanner.rb:43-50 | a valid security finding "type: message" with the warning's file and line |
| SecurityScanner.Warnings | app/services/security_scanner.rb:40 | `data["warnings"] \|\| []` |
| SecurityScanner.BrakemanResults | app/services/security_scanner.rb:39-52 | one finding per warning, in order |
| SecurityScanner.BrakemanResultsValid | app/services/security_scanner.rb:63-70 | every finding is a valid security finding, so `create!` accepts it |
| SecurityScanner.SecuritySummary | app/services/security_scanner.rb:76-87 | the counted summary, with high counting critical and high together |
| SecurityScanner.Scanner.constructor | app/services/security_scanner.rb:4-7 | no results yet |
| SecurityScanner.Scanner.ParseBrakemanResults | app/services/security_scanner.rb:39-52 | appends exactly `BrakemanResults` |
| SecurityScanner.Scanner.Scan | app/services/security_scanner.rb:9-14 | nothing for a missing directory; otherwise the report's findings replace the security findings and the summary is upserted |
| RubocopScanner.OnlyArgs | app/services/rubocop_scanner.rb:47 | `"--only #{cop}"` for each cop, in order |
| RubocopScanner.OnlyWords | app/services/rubocop_scanner.rb:47 | two words per cop |
| RubocopScanner.OnlyWordsAt | app/services/rubocop_scanner.rb:47 | every even word is `--only` and the next is that cop |
| RubocopScanner.OnlyWordsNoSpace | app/services/rubocop_scanner.rb:47 | no word holds a space when no cop does |
| RubocopScanner.CopsArgWords | app/services/rubocop_scanner.rb:47 | the argument is the words joined by spaces |
| RubocopScanner.CopsArgSplits | app/services/rubocop_scanner.rb:47-48 | splitting the argument on spaces gives back one `--only <cop>` pair per cop |
| RubocopScanner.CopsArg | app/services/rubocop_scanner.rb:47 | the `--only` argument; stated by `CopsArgWords` and `CopsArgSplits` |
| RubocopScanner.HighValueCopsSplit | app/services/rubocop_scanner.rb:5-23 | the shipped list has 17 cops and reaches RuboCop as 17 `--only` pairs |
| RubocopScanner.RubocopSeverity | app/services/rubocop_scanner.rb:80-86 | error and fatal are high, warning medium, anything else low, ignoring case |
| RubocopScanner.StartLine | app/services/rubocop_scanner.rb:73 | `dig("location", "start_line")`: nil without a location |
| RubocopScanner.OffenseResult | app/services/rubocop_scanner.rb:68-75 | a valid RuboCop finding "cop: message" with the file's path and the start line |
| RubocopScanner.FileResults | app/services/rubocop_scanner.rb:65-76 | one finding per offense; none when the offenses are not an array |
| RubocopScanner.FilesResults | app/services/rubocop_scanner.rb:64-77 | one finding per offense over the usable files |
| RubocopScanner.FilesResultsPrefix | app/services/rubocop_scanner.rb:64-77 | one more file appends its findings after the earlier files' |
| RubocopScanner.Files | app/services/rubocop_scanner.rb:62 | `data["files"] \|\| []` |
| RubocopScanner.RubocopResults | app/services/rubocop_scanner.rb:61-78 | none without a files key; otherwise one per offense |
| RubocopScanner.FilesResultsValid | app/services/rubocop_scanner.rb:88-95 | every finding is a valid RuboCop finding |
| RubocopScanner.RubocopResultsValid | app/services/rubocop_scanner.rb:88-95 | every finding of the report is valid, so `create!` accepts it |
| RubocopScanner.SkippedFile | app/services/rubocop_scanner.rb:65 | a file whose offenses are not an array adds nothing |
| RubocopScanner.RubocopSummary | app/services/rubocop_scanner.rb:101-112 | the counted summary, with high counting critical and high together |
| RubocopScanner.Scanner.constructor | app/services/rubocop_scanner.rb:25-28 | no results yet |
| RubocopScanner.Scanner.AppendFileResults | app/services/rubocop_scanner.rb:65-76 | the inner loop appends exactly `FileResults` |
| RubocopScanner.Scanner.ParseRubocopResults | app/services/rubocop_scanner.rb:61-78 | appends exactly `RubocopResults` |
| RubocopScanner.Scanner.Scan | app/services/rubocop_scanner.rb:30-35 | nothing for a missing directory; otherwise the findings replace the RuboCop findings and the summary is upserted |
| StaticAnalysisScanner.FirstLine | app/services/static_analysis_scanner.rb:52 | `lines&.first`: nil for missing or empty lines |
| StaticAnalysisScanner.SmellResult | app/services/static_analysis_scanner.rb:47-54 | a valid medium finding "type: message" at the smell's source and first line |
| StaticAnalysisScanner.SmellResults | app/services/static_analysis_scanner.rb:44-55 | one finding per smell; none when the smells are not an array |
| StaticAnalysisScanner.FilesSmellResults | app/services/static_analysis_scanner.rb:43-56 | one finding per smell over the usable files |
| StaticAnalysisScanner.FilesSmellResultsPrefix | app/services/static_analysis_scanner.rb:43-56 | one more file appends its findings after the earlier files' |
| StaticAnalysisScanner.ReekResults | app/services/static_analysis_scanner.rb:40-57 | nothing for a document that is not an array; otherwise one per smell |
| StaticAnalysisScanner.FilesSmellResultsMedium | app/services/static_analysis_scanner.rb:47-54 | every reek finding is a valid medium static-analysis finding without a metric |
| StaticAnalysisScanner.ScorePrefix | app/services/static_analysis_scanner.rb:73 | the capture of `^\s*(\d+\.\d+):`: two non-empty digit runs and the colon after them |
| StaticAnalysisScanner.ScorePrefixShape | app/services/static_analysis_scanner.rb:73 | the captures lie in order: white space, digits, a point, digits, the colon |
| StaticAnalysisScanner.ScorePrefixAt | app/services/static_analysis_scanner.rb:73 | a line of that shape at known places yields exactly those digit runs |
| StaticAnalysisScanner.ScorePrefixComplete | app/services/static_analysis_scanner.rb:73 | any white space, digits, point, digits and colon yield exactly those two runs |
| StaticAnalysisScanner.Complexity | app/services/static_analysis_scanner.rb:73 | `to_f`: the value lies between the whole part and the next integer |
| StaticAnalysisScanner.FractionBelowOne | app/services/static_analysis_scanner.rb:73 | n fraction digits denote less than 10^n |
| StaticAnalysisScanner.MethodLine | app/services/static_analysis_scanner.rb:72 | a method line exactly when the score prefix is followed by white space, text and a `#` |
| StaticAnalysisScanner.MethodInfo | app/services/static_analysis_scanner.rb:74 | the capture of `:\s+(.+)`: the tail of the line after the colon and its white space |
| StaticAnalysisScanner.MethodTail | app/services/static_analysis_scanner.rb:72 | the `\s+(.+)#` part after the score's colon, used by `MethodLine` |
| StaticAnalysisScanner.Tenths | app/services/static_analysis_scanner.rb:80 | `round(1)` as a whole part and one decimal digit |
| StaticAnalysisScanner.TenthsText | app/services/static_analysis_scanner.rb:80 | `complexity.round(1)` as printed: the whole part of `Tenths`, a point and its one digit |
| StaticAnalysisScanner.FlogResult | app/services/static_analysis_scanner.rb:77-84 | a valid finding with the complexity as metric, high exactly above 40, the rounded message and the current file |
| StaticAnalysisScanner.LastHeaderColon | app/services/static_analysis_scanner.rb:86-87 | the greedy `(.+)` ends at the last colon followed by white space and `(` |
| StaticAnalysisScanner.HeaderPathCaptures | app/services/static_analysis_scanner.rb:86-87 | a header path exactly when such a colon exists; the path stops at the last one |
| StaticAnalysisScanner.HeaderPath | app/services/static_analysis_scanner.rb:86-87 | the capture of `^(.+):\s+\(`; stated by `LastHeaderColon` and `HeaderPathCaptures` |
| StaticAnalysisScanner.FlogStep | app/services/static_analysis_scanner.rb:70-89 | a method line keeps the current file; a header line that is not a method line sets it; anything else changes nothing |
| StaticAnalysisScanner.FlogResultsAbove20 | app/services/static_analysis_scanner.rb:76-84 | every flog finding is valid with a metric above 20, high exactly above 40 |
| StaticAnalysisScanner.FlogStepFinding | app/services/static_analysis_scanner.rb:76-84 | one line's findings satisfy the same |
| StaticAnalysisScanner.FlogIgnoresLowComplexity | app/services/static_analysis_scanner.rb:76 | a method at or below 20 adds nothing and keeps the current file |
| StaticAnalysisScanner.FlogHeaderSetsFile | app/services/static_analysis_scanner.rb:72-88 | after a header line, a method line above 20 is reported in the header's file |
| StaticAnalysisScanner.FlogStepHeader | app/services/static_analysis_scanner.rb:86-87 | a header line adds nothing and sets the current file |
| StaticAnalysisScanner.FlogStepMethod | app/services/static_analysis_scanner.rb:72-85 | a method line above 20 adds its finding for the current file |
| StaticAnalysisScanner.FlogIgnoresEmptyLine | app/services/static_analysis_scanner.rb:67-70 | an empty line changes nothing |
| StaticAnalysisScanner.FlogResults | app/services/static_analysis_scanner.rb:66-90 | flog's findings of the output lines, starting with no current file; stated by `FlogResultsAbove20`, `FlogHeaderSetsFile`, `FlogStepMethod` and `FlogIgnoresLowComplexity` |
| StaticAnalysisScanner.LastLocationColon | app/services/static_analysis_scanner.rb:111 | the greedy `(.+\.rb)` ends at the last `.rb:` followed by a digit |
| StaticAnalysisScanner.LocationCaptures | app/services/static_analysis_scanner.rb:111 | a location exactly when such a colon exists; the path stops at the last one |
| StaticAnalysisScanner.Location | app/services/static_analysis_scanner.rb:111 | the captures of `(.+\.rb):(\d+)`; stated by `LastLocationColon` and `LocationCaptures` |
| StaticAnalysisScanner.FlayStep | app/services/static_analysis_scanner.rb:104-115 | one line of flay output; stated by `FlayStepLength` and `FlayStepFills` |
| StaticAnalysisScanner.FlayFold | app/services/static_analysis_scanner.rb:99-117 | flay over all lines; stated by `FlayCount` and `FlayOnlyFills` |
| StaticAnalysisScanner.FlayResult | app/services/static_analysis_scanner.rb:105-110 | a valid low finding with the stripped line as message and no location |
| StaticAnalysisScanner.Fill | app/services/static_analysis_scanner.rb:113-114 | `\|\|=`: file and line are filled only where unset; nothing else changes |
| StaticAnalysisScanner.FlayFoldPrefix | app/services/static_analysis_scanner.rb:102-116 | the lines are folded one step at a time |
| StaticAnalysisScanner.FlayStepLength | app/services/static_analysis_scanner.rb:104-115 | a step adds one finding exactly for a "Similar code found" line |
| StaticAnalysisScanner.FlayCount | app/services/static_analysis_scanner.rb:99-117 | flay adds exactly one finding per "Similar code found" line |
| StaticAnalysisScanner.FillsValid | app/services/static_analysis_scanner.rb:113-114 | filling a location keeps the type and the validity |
| StaticAnalysisScanner.FlayStepFills | app/services/static_analysis_scanner.rb:104-115 | one step only fills earlier findings and appends low findings |
| StaticAnalysisScanner.FlayOnlyFills | app/services/static_analysis_scanner.rb:99-117 | flay never changes what a finding is, never overwrites a set file or line, and adds only low findings |
| StaticAnalysisScanner.ReekValid | app/services/static_analysis_scanner.rb:119-126 | the reek findings are valid static-analysis findings |
| StaticAnalysisScanner.FlogValid | app/services/static_analysis_scanner.rb:119-126 | the flog findings are valid static-analysis findings |
| StaticAnalysisScanner.FlayKeepsValid | app/services/static_analysis_scanner.rb:119-126 | flay keeps every finding a valid static-analysis finding |
| StaticAnalysisScanner.MetricValues | app/services/static_analysis_scanner.rb:140 | the non-null metrics, none when no finding has one |
| StaticAnalysisScanner.MetricValuesAtLeast | app/services/static_analysis_scanner.rb:140 | a lower bound on every metric bounds every averaged value |
| StaticAnalysisScanner.AverageMetric | app/services/static_analysis_scanner.rb:140 | `average(...).to_f.round(2)`: 0.0 without metrics; otherwise `Numeric.RoundHundredths` of the mean; always a multiple of 0.01 |
| StaticAnalysisScanner.AverageOfFlogMetrics | app/services/static_analysis_scanner.rb:76-84 | with every metric above 20, the average is 0 or at least 20 |
| StaticAnalysisScanner.StaticSummary | app/services/static_analysis_scanner.rb:132-144 | the counted summary with the average metric; critical exactly when a critical-or-high finding exists |
| StaticAnalysisScanner.Scanner.constructor | app/services/static_analysis_scanner.rb:4-7 | no results yet |
| StaticAnalysisScanner.Scanner.AppendSmellResults | app/services/static_analysis_scanner.rb:44-55 | the inner loop appends exactly `SmellResults` |
| StaticAnalysisScanner.Scanner.ParseReekResults | app/services/static_analysis_scanner.rb:40-57 | appends exactly `ReekResults` |
| StaticAnalysisScanner.Scanner.ParseFlogResults | app/services/static_analysis_scanner.rb:66-90 | appends exactly the flog findings of the output's lines |
| StaticAnalysisScanner.Scanner.ParseFlayResults | app/services/static_analysis_scanner.rb:99-117 | the results become the flay fold of the old results over the lines |
| StaticAnalysisScanner.Scanner.CollectedValid | app/services/static_analysis_scanner.rb:119-126 | every collected finding is valid, so `create!` accepts them all |
| StaticAnalysisScanner.Scanner.Scan | app/services/static_analysis_scanner.rb:9-16 | nothing for a missing directory; otherwise reek, flog, flay in order, their findings replace the static-analysis findings, and the summary is upserted |
| TestCoverageScanner.HitsAtMostRelevant | app/services/test_coverage_scanner.rb:60-61 | covered lines never outnumber relevant lines |
| TestCoverageScanner.CoverageHundredths | app/services/test_coverage_scanner.rb:68 | `(c/t*100).round(2)` in hundredths, at most 100% when c <= t |
| TestCoverageScanner.Percent | app/services/test_coverage_scanner.rb:68 | a percentage kept as hundredths |
| TestCoverageScanner.PercentText | app/services/test_coverage_scanner.rb:74 | the percent of the message as Ruby prints a value rounded to two places: trailing zeros trimmed, one digit kept ("66.67", "66.7", "50.0") |
| TestCoverageScanner.PercentTextExamples | app/services/test_coverage_scanner.rb:74 | 66.67, 66.7 and 50.0 print as "66.67", "66.7" and "50.0" |
| TestCoverageScanner.FullCoverageBound | app/services/test_coverage_scanner.rb:68 | at most all lines covered gives at most 100% |
| TestCoverageScanner.LowCoverageResult | app/services/test_coverage_scanner.rb:70-79 | a valid finding below 80%, high exactly below 50%, with the rounded percent as message and metric |
| TestCoverageScanner.FileFinding | app/services/test_coverage_scanner.rb:60-80 | one finding exactly for a file with relevant lines below 80% |
| TestCoverageScanner.Step | app/services/test_coverage_scanner.rb:57-81 | a test file or a raised loop changes nothing; non-array coverage raises; otherwise the totals grow and the finding is appended |
| TestCoverageScanner.TallyPrefix | app/services/test_coverage_scanner.rb:57-81 | the files are tallied one at a time |
| TestCoverageScanner.RaisedStays | app/services/test_coverage_scanner.rb:57-81 | once the loop raises, later files change nothing |
| TestCoverageScanner.TallyFiles | app/services/test_coverage_scanner.rb:57-81 | the loop over the coverage files; stated by `TallyFacts`, `TallyPrefix`, `RaisedStays` and `TestFileIgnored` |
| TestCoverageScanner.TestFileIgnored | app/services/test_coverage_scanner.rb:58 | a test file adds neither to the totals nor to the findings |
| TestCoverageScanner.TallyFacts | app/services/test_coverage_scanner.rb:57-81 | covered never exceeds relevant, and every finding is valid, below 80%, high exactly below 50%, and not info |
| TestCoverageScanner.OverallResult | app/services/test_coverage_scanner.rb:84-92 | the info row with the overall percent, or the Integer 0 when nothing is relevant |
| TestCoverageScanner.FirstCoverage | app/services/test_coverage_scanner.rb:50-53 | the first suite's coverage, when there is one |
| TestCoverageScanner.CoverageResults | app/services/test_coverage_scanner.rb:46-93 | nothing without a first suite or coverage; else the flagged files and then the overall row, unless the loop raised |
| TestCoverageScanner.OneOverallRowLast | app/services/test_coverage_scanner.rb:83-92 | without a raise, exactly one info row, last, at most 100% |
| TestCoverageScanner.CoverageResultsValid | app/services/test_coverage_scanner.rb:95-101 | every finding is a valid test-coverage finding |
| TestCoverageScanner.FirstInfo | app/services/test_coverage_scanner.rb:110 | `find_by(severity: "info")`: the first info row, none exactly when none is stored |
| TestCoverageScanner.CoverageSummary | app/services/test_coverage_scanner.rb:108-122 | issues exclude info rows; high counts only high; average and metadata take the overall row's metric, 0.0 and nil without one |
| TestCoverageScanner.FindingsAllIssues | app/services/test_coverage_scanner.rb:113 | every flagged file counts as an issue, none is an info row |
| TestCoverageScanner.SummaryOfScan | app/services/test_coverage_scanner.rb:95-122 | after a clean scan the issues are the flagged files and the average is the overall coverage |
| TestCoverageScanner.FirstInfoAfter | app/services/test_coverage_scanner.rb:110 | after the flagged files, the overall row is the first info row |
| TestCoverageScanner.Scanner.constructor | app/services/test_coverage_scanner.rb:4-7 | no results yet |
| TestCoverageScanner.Scanner.ParseCoverageResults | app/services/test_coverage_scanner.rb:46-93 | appends exactly `CoverageResults`, the loop stopping at a raise |
| TestCoverageScanner.Scanner.Scan | app/services/test_coverage_scanner.rb:9-37 | nothing for a missing directory; otherwise the resultset's findings replace the coverage findings and the summary is upserted |
| DriftScanner.Finding | app/services/drift_scanner.rb:41-47 | a valid drift finding with severity, message and path, and no line or metric |
| DriftScanner.GemLineShape | app/services/drift_scanner.rb:97 | an entry line has four white-space characters, a word right after them, and a version without `)` |
| DriftScanner.GemLine | app/services/drift_scanner.rb:97 | one match of the entry pattern within a line; stated by `GemLineShape` |
| DriftScanner.GemVersionsPrefix | app/services/drift_scanner.rb:97-99 | the lines are read one at a time |
| DriftScanner.GemVersionsStep | app/services/drift_scanner.rb:97-99 | the last line adds its entry to the earlier lines' map |
| DriftScanner.GemVersionsKeys | app/services/drift_scanner.rb:93-102 | a name is in the map exactly when some line is an entry for it |
| DriftScanner.GemVersionsHasEntry | app/services/drift_scanner.rb:93-102 | every name in the map has an entry line |
| DriftScanner.GemVersionsEntryIn | app/services/drift_scanner.rb:93-102 | every entry line's name is in the map |
| DriftScanner.GemVersionsLast | app/services/drift_scanner.rb:97-99 | a name maps to the version on its last entry line |
| DriftScanner.GemVersions | app/services/drift_scanner.rb:93-102 | the name-to-version map, a later entry overwriting an earlier one; stated by `GemVersionsKeys` and `GemVersionsLast` |
| DriftScanner.DeployFindings | app/services/drift_scanner.rb:36-65 | a missing deploy.rb is one critical finding only; a present one gives one high finding exactly without `set :application` |
| DriftScanner.RailsVersions | app/services/drift_scanner.rb:72-78 | both Rails versions, exactly when both lock files exist and both name rails |
| DriftScanner.GemFindings | app/services/drift_scanner.rb:67-91 | one medium finding exactly when both versions exist and differ, naming both |
| DriftScanner.TailwindFindings | app/services/drift_scanner.rb:104-123 | one medium finding exactly when production.rb exists without `tailwindcss:build` |
| DriftScanner.RoutingFindings | app/services/drift_scanner.rb:125-144 | one high finding exactly when production.rb exists without `relative_url_root` |
| DriftScanner.DriftResults | app/services/drift_scanner.rb:23-26 | at most four findings, the first critical when deploy.rb is missing |
| DriftScanner.DriftResultsValid | app/services/drift_scanner.rb:146-153 | every drift finding is valid, so `create!` accepts them all |
| DriftScanner.DriftSummary | app/services/drift_scanner.rb:159-170 | the counted summary, with high counting critical and high together |
| DriftScanner.DriftCritical | app/services/drift_scanner.rb:36-170 | the summary is critical exactly when deploy.rb is missing or lacks its setting, or production.rb lacks path-based routing |
| DriftScanner.DriftHasCritical | app/services/drift_scanner.rb:36-144 | critical or high findings come exactly from the deployment and routing checks |
| DriftScanner.DeployKept | app/services/drift_scanner.rb:36-65 | every deployment finding is critical or high |
| DriftScanner.GemNoneKept | app/services/drift_scanner.rb:80-86 | the gem check never gives a critical or high finding |
| DriftScanner.TailwindNoneKept | app/services/drift_scanner.rb:112-120 | the Tailwind check never gives a critical or high finding |
| DriftScanner.RoutingKept | app/services/drift_scanner.rb:133-141 | every routing finding is high |
| DriftScanner.Scanner.constructor | app/services/drift_scanner.rb:14-17 | no results yet |
| DriftScanner.Scanner.ParseGemfileLock | app/services/drift_scanner.rb:93-102 | the loop over the lines returns exactly `GemVersions` |
| DriftScanner.Scanner.CheckDeploymentConfig | app/services/drift_scanner.rb:36-65 | appends exactly `DeployFindings` |
| DriftScanner.Scanner.CheckGemVersions | app/services/drift_scanner.rb:67-91 | appends exactly `GemFindings` |
| DriftScanner.Scanner.CheckTailwindSetup | app/services/drift_scanner.rb:104-123 | appends exactly `TailwindFindings` |
| DriftScanner.Scanner.CheckPathBasedRouting | app/services/drift_scanner.rb:125-144 | appends exactly `RoutingFindings` |
| DriftScanner.Scanner.Scan | app/services/drift_scanner.rb:19-28 | nothing for a missing directory or the golden deployment itself; otherwise the four checks' findings replace the drift findings and the summary is upserted |
| Text.Lower | app/javascript/controllers/filter_controller.js:568 | lower-casing, character by character (`toLowerCase`, and `downcase` in the scanners) |
| Text.JsTrim | app/javascript/controllers/filter_controller.js:568 | `trim()`: the result has no white space at either end |
| Text.Strip | app/services/static_analysis_scanner.rb:108 | the result starts and ends with a kept character and is no longer than the input |
| Text.StripRemovesEnds | app/services/static_analysis_scanner.rb:108 | what `strip` removes is a run at each end and nothing in between |
| Text.RubyStrip | app/services/static_analysis_scanner.rb:108 | `strip`: the result has no white space or NUL at either end |
| Text.Split | app/services/static_analysis_scanner.rb:67 | `split("\n")`: at least one part |
| Text.SplitJoin | app/services/static_analysis_scanner.rb:67 | splitting a join at a separator absent from the parts gives the parts back |
| Text.Titleize | app/helpers/examples_helper.rb:23 | same length; underscores become spaces and every other character keeps its letter up to case |

## Left out

- DOM rendering is not modelled: building the table, headers, cells, modal and filter bar, and the slider markup. The table rows are abstracted to their search text and the number `parseFloat` reads from each cell.
- Browser-only actions are not modelled: `sortTable`, `toggleFilters`, `openModal`, `closeModal`, `updateRangeFill`, `updatePercentileLabel` and `updateResultCount`. They change only the page, not the model's state.
- `saveConfiguration` only chains `saveState`, `buildTable`, `renderFilterBar`, `applyFilters` and `closeModal`. The model has the state steps among them.
- Corrupt JSON in local storage is not modelled: `JSON.parse` would throw. Storage is given as already decoded, possibly absent.
- Floating point is replaced by exact rationals: JavaScript numbers, Ruby Floats, and `toFixed(1)` in the slider label. `Math.round` and Ruby `round` are stated exactly. NaN is a missing cell number.
- FilterController.Controller.ApplyFilters: requires every row to have the cell each featured column is read from. The source would throw on a missing cell.
- FilterController.Controller.UpdateSlider and FilterController.Controller.ToggleMode: require the column to be featured. The source would throw on an undefined entry.
- FilterState.LoadState: like `loadState`, it trusts the stored ranges. A stored range with min above max comes back as it is (`LoadStateOrdered`); every later operation keeps ordered ranges ordered.
- Text.Lower: changes ASCII letters only. Unicode case mapping, `titleize`'s inflections, and Unicode white space are not modelled. The status and category labels are modelled by their tables, and the titleize fallback by a simple word-capitalising function.
- ExampleModel.Example: an integer column such as priority keeps the value assigned, so `average_metrics` of an invalid record with complexity 2.5 uses 2.5, where Active Record would read back 2. Validation sees the raw value in both.
- The `average_metrics` filter column has no database column. The schema has none, so `where.not(average_metrics: nil)` would fail on the server. The model computes the attribute per record instead.
- Process and file I/O are parameters: `system`, backticks, `File.exist?`, `File.read`, `File.delete` and the temporary output files. `run_test_suite` and its timeout are not modelled.
- A raise in the middle of a parse is modelled only for the coverage loop, with its `raised` flag. The Brakeman, RuboCop and reek parsers take an already decoded document, so they cannot raise part way. In the source, findings appended before such a raise stay in `@results`, and `scan` still saves them. A failing tool run shows up in the model only as "no report".
- SQL order among ties, and NULL sorting, are not modelled. Sorting is stable insertion order. `created_at` is an integer.
- Times are modelled as integers: `scanned_at`, `last_scanned_at` and `Time.current` become the parameter `now`. Each finding's `scanned_at` is left out.
- AppScannerJob `perform` is not modelled: the app lookup, the logging, and the order of the scanner calls. Each scanner's `scan` and `update_app_status` are modelled separately.
- Scopes that read the clock are left out: `recent`, `recently_scanned` and `needs_scan`. So are the `App` uniqueness and presence validations, and the `MetricSummary` presence validation. The model's `create!` and `save!` paths never see those failing.
- `cached_leaderboard` and `clear_cache` are not modelled: Rails.cache is outside the model.
- The flog test expects "high" for complexity 25.5, but the code says medium until 40. The model follows the code.
- StaticAnalysisScanner.FlayStep: a location line may fill the last result of an earlier parser, such as reek or flog, as the code does, since all three parsers share `@results`.
- DriftScanner.GemLine: the model reads the lock file split into lines and matches the pattern within one line. In Ruby, `\s` and `[^)]+` also match a newline, so a match can run across lines. Two inputs where the model and Ruby differ: `"\n   rails (7.0.4)"`, where `\s{4}` takes the newline and three spaces, and `"    rails (7.0\n.4)"`, where the version holds a newline. The model finds no entry in either. Bundler's lock layout produces neither.
- Text.Split: models Ruby's `split("\n")`, but keeps trailing empty strings, which Ruby drops. An empty line changes nothing for flog (`FlogIgnoresEmptyLine`) and nothing for flay.
- TestCoverageScanner: only the legacy SimpleCov format, an array of counts per file, is modelled. `data.values.first` is the first suite in order. Duplicate JSON keys are not modelled.
- TestCoverageScanner.PercentText: prints a percent as Ruby's `to_s` does for a value rounded to two places ("66.7", "50.0"). Only exponent notation, which Ruby uses for very large or very small Floats, is not modelled; a percent never needs it.

## Findings

| source | as written | input that shows it | evidently intended | confidence | as-written member | corrected member |
|---|---|---|---|---|---|---|
| app/services/example_service.rb:86-99 | `raise ActiveRecord::Rollback` is swallowed by `transaction`, and the method then returns `success: true` with the count of updates that were undone | ids [1, 2], where record 2 has no name: one update is counted, then rolled back, and the result is success with `updated_count: 1` on an unchanged table | a rollback reports failure | not executed | ExampleService.BulkUpdateAsWritten, ExampleService.BulkUpdateRollbackReportsSuccess | ExampleService.BulkUpdate, ExampleService.BulkUpdateOutcome |
| app/helpers/examples_helper.rb:119-126 | `calculate_percentile` returns the first mark whose value is at least the value, so a value gets the next mark up | value 92 on the seven-mark table {..., 90 => 90, 95 => 95, 100 => 100} gives 95 and the top highlight, where the `percentile_class` tests (spec/helpers/examples_helper_spec.rb:190-198) expect the 90 tier; the `calculate_percentile` test at :217-221 instead expects the as-written 50 for 30 on the five-mark table, while its comment at :218 says 25, so the tests conflict | the last mark the value has reached (90 for 92, 75 for 80, and 25 for 30 as the comment says), which the highlight tests and the comment agree on and the lookup test at :220 does not | not executed | ExamplesHelper.PercentileClass, ExamplesHelper.PercentileClassRoundsUp, ExamplesHelper.CalculatePercentileExamples | ExamplesHelper.PercentileClassCorrected, ExamplesHelper.ReachedPercentile, ExamplesHelper.CorrectedHighlightIsReached, ExamplesHelper.PercentileClassCorrectedExamples, ExamplesHelper.ReachedFiveMarkTableDiffers |
