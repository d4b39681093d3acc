# Tabular analytics and forecasting engine, in Dafny

This project models the analytic core of a browser tool. The tool lets a user
load a table, inspect it, clean it, correlate its numeric columns and forecast
one column over time. All of that logic lives in the component
`src/pages/Index.tsx`. The model covers these handlers:

- `calculateDataStats`: per-column statistics. These are the type (numeric or
  categorical), the present and missing counts and the number of distinct
  values. Numeric columns also get min, max, mean, median, spread, quartiles
  and the outlier count under Tukey's 1.5·IQR fences. Categorical columns get
  their five most frequent values.
- `calculateCorrelations`: the Pearson matrix over the numeric columns.
- `cleanData`: fill or remove missing values and outliers in one column.
- `runTimeSeries`: a linear regression or moving-average forecast, with its
  test metrics and chart data.
- `runAutoML`: four candidate models ranked by test error. The best one
  forecasts.
- `requestSort`, `getSortedAndFilteredData` and `updateCell`: the editable
  data table, with its search, its column filter and its header sort.

Cells are JavaScript values: `null`, `undefined`, a number, a string or a
boolean. A row maps column names to cells. Numbers are exact reals.

The modules follow the program's structure:

- `Filters`: `filter` and `map` over sequences, with what a filter keeps.
- `Cells`: cells and rows.
- `Sums`: sums and means.
- `Sorting`: a stable sort, standing in for `Array.prototype.sort`.
- `Quantiles`: mathjs quantiles by linear interpolation.
- `Stats`: `calculateDataStats`.
- `Moments`: the sums behind Pearson's r and the least-squares line.
- `Correlation`: `calculateCorrelations`.
- `Cleaning`: `cleanData`.
- `Series`: the pieces both forecasting handlers share.
- `TimeSeries`: `runTimeSeries`.
- `AutoML`: `runAutoML`.
- `Table`: `requestSort`, `getSortedAndFilteredData` and `updateCell`.

Some handlers update state step by step. These are modelled as methods with
loops, proved against the functions that specify them:

- the column loop of `calculateDataStats`;
- the nested loops of `calculateCorrelations`;
- the in-place `forEach` of `cleanData`, on an array;
- the exponential-smoothing loop and the forecast loops;
- the candidate loop of `runAutoML`;
- the `updateCell` state update, as a class.

## Model

| member | source | states |
|---|---|---|
| Cells.Column | src/pages/Index.tsx:279 | `data.map(row => row[col])`: one cell per row, the row's cell in that column, undefined when absent |
| Sorting.SortBySorted | src/pages/Index.tsx:499 | the comparator sort by a numeric key yields a sequence ordered by that key (with `SortBy`'s contract: a permutation of the input) |
| Sorting.SortByStable | src/pages/Index.tsx:759-760 | the sort is stable: elements with equal keys keep their input order |
| Sorting.SortByFirstIsLeast | src/pages/Index.tsx:760-761 | the first element after sorting has a key no greater than any input element's |
| Sorting.LeastFirstStaysFirst | src/pages/Index.tsx:760-761 | an input whose first element has the least key keeps that element first |
| Quantiles.Min | src/pages/Index.tsx:290 | `math.min`: an element of the values, no greater than any of them |
| Quantiles.Max | src/pages/Index.tsx:291 | `math.max`: an element of the values, no smaller than any of them |
| Quantiles.MedianIsMiddleQuantile | src/pages/Index.tsx:293 | the median equals the 0.5 quantile of the interpolating quantile function |
| Quantiles.QuantileMonotone | src/pages/Index.tsx:297-298 | a larger probability never gives a smaller quantile |
| Quantiles.QuantileWithinRange | src/pages/Index.tsx:290-298 | every quantile lies between the minimum and the maximum |
| Quantiles.FiveNumberOrder | src/pages/Index.tsx:290-298 | min ≤ q1 ≤ median ≤ q3 ≤ max |
| Stats.PresentValues | src/pages/Index.tsx:279 | the kept values are exactly the cells that are neither null nor undefined |
| Stats.Numbers | src/pages/Index.tsx:280 | the numeric values are exactly the numbers among the present values |
| Stats.PresentValuesKept | src/pages/Index.tsx:279 | the present values are the column read at increasing positions, every present position among them, each value as often as it occurs |
| Stats.NumbersAreFilteredNumbers | src/pages/Index.tsx:280 | the numeric values are the number cells, filtered and then read as numbers |
| Stats.NumbersMultiset | src/pages/Index.tsx:280 | each number occurs among the numeric values as often as its cell occurs among the values |
| Stats.NumbersKept | src/pages/Index.tsx:280 | the numeric values are the number cells in order, each position of a number cell used once |
| Stats.SummaryInputs | src/pages/Index.tsx:279-305 | the summary's values are the column's number cells, one per row holding a number, in row order |
| Stats.CalculateDataStats | src/pages/Index.tsx:275-316 | the loop builds one entry per column, each equal to that column's statistics |
| Stats.CountsPartitionRows | src/pages/Index.tsx:284-285 | count + missing equals the row count, and missing counts the null or undefined cells |
| Stats.NumericIffAllPresentNumbers | src/pages/Index.tsx:280-283 | a column is numeric exactly when every present cell is a number |
| Stats.UniqueCountsDistinctPresentValues | src/pages/Index.tsx:286 | unique is the number of distinct present cells, at most count |
| Stats.SummaryOrdered | src/pages/Index.tsx:289-305 | min ≤ q1 ≤ median ≤ q3 ≤ max, min ≤ mean ≤ max, a non-negative spread, outliers ≤ the number of values |
| Stats.VarianceNonNegative | src/pages/Index.tsx:294 | the sample variance behind `math.std` is never negative |
| Stats.FencesEncloseQuartiles | src/pages/Index.tsx:297-302 | lower fence ≤ q1 ≤ median ≤ q3 ≤ upper fence |
| Stats.MedianWithinFences | src/pages/Index.tsx:293-302 | a numeric column's median lies inside its own outlier fences |
| Stats.OutlierCountAntitoneInMultiplier | src/pages/Index.tsx:299-303 | widening the 1.5 multiplier never increases the outlier count |
| Stats.FencesWiden | src/pages/Index.tsx:299-301 | a larger multiplier moves the lower fence down and the upper fence up |
| Stats.OutsideInsidePartition | src/pages/Index.tsx:303 | the outliers and the values within the fences split the values as a multiset, so their counts add up to the number of values |
| Stats.OutlierCount | src/pages/Index.tsx:303 | the outlier count is the number of positions whose value is below the lower or above the upper fence, each outlier kept as often as it occurs |
| Stats.TopValuesCounts | src/pages/Index.tsx:307-311 | each top value occurs among the values, and its count is its number of occurrences |
| Stats.TopValuesOrdered | src/pages/Index.tsx:308-310 | top values by decreasing count, ties in order of first occurrence |
| Stats.TopValuesAreMostFrequent | src/pages/Index.tsx:307-311 | the first top value is at least as frequent as any value, and a value left out is no more frequent than the last one kept |
| Stats.DistinctFirstOccurrenceOrder | src/pages/Index.tsx:307 | the distinct values come in order of first occurrence |
| Moments.CauchySchwarz | src/pages/Index.tsx:359-361 | (Σxy)² ≤ Σx²·Σy² |
| Moments.CrossDeviationBound | src/pages/Index.tsx:363-364 | (n·Σxy − Σx·Σy)² ≤ (n·Σx² − (Σx)²)·(n·Σy² − (Σy)²), so the coefficient's magnitude is at most 1 |
| Moments.SpreadsNonNegative | src/pages/Index.tsx:364 | both factors under the square root are non-negative |
| Moments.SpreadXPositive | src/pages/Index.tsx:364 | two different x values make n·Σx² − (Σx)² positive |
| Moments.SwapMoments | src/pages/Index.tsx:357-364 | exchanging x and y keeps the numerator and swaps the two spreads |
| Correlation.CellPairs | src/pages/Index.tsx:345-348 | the pairs come only from rows where both cells are present and not the empty string |
| Correlation.CellPairsAreCompleteRows | src/pages/Index.tsx:345-348 | the pairs are the complete rows, filtered and then read at the two columns |
| Correlation.CellPairsExactly | src/pages/Index.tsx:345-348 | one pair per complete row, in row order, every complete row giving one; their number is the number of complete rows |
| Correlation.NumericColumns | src/pages/Index.tsx:323-325 | the chosen columns are exactly the columns whose statistics say numeric, in column order |
| Correlation.NumericColumnsNoDuplicates | src/pages/Index.tsx:323-325 | distinct columns give distinct numeric columns |
| Correlation.CalculateCorrelations | src/pages/Index.tsx:319-371 | empty data, no columns or fewer than two numeric columns give the empty map; otherwise there is one row per numeric column and one entry per pair, as `Entry` gives it |
| Correlation.CorrelationRow | src/pages/Index.tsx:336-367 | the inner loop fills exactly the numeric columns, each with the pair's entry |
| Correlation.EntrySymmetric | src/pages/Index.tsx:332-367 | the matrix is symmetric |
| Correlation.CoefficientBounded | src/pages/Index.tsx:355-366 | every computed coefficient lies in [−1, 1] |
| Correlation.NoValueIffFewRows | src/pages/Index.tsx:345-353 | the entry is null exactly when fewer than two row positions hold both cells present and non-empty |
| Correlation.PerfectLine | src/pages/Index.tsx:355-366 | points on a line with non-zero slope give exactly ±1, with the sign of the slope |
| Cleaning.CleanData | src/pages/Index.tsx:374-481 | no column: the error, and nothing changes; no statistics: nothing changes; otherwise the cleaned rows |
| Cleaning.ReplaceCells | src/pages/Index.tsx:444-454 | the in-place loop leaves the array equal to `Filled` of its old contents |
| Cleaning.FilledWritesOnlyColumn | src/pages/Index.tsx:444-468 | filling changes no other column, and each cleaned cell is the replacement or what it was |
| Cleaning.FillLeavesNoMissing | src/pages/Index.tsx:446-452 | a fill targeting missing values with a non-blank replacement leaves no missing cell in the column |
| Cleaning.CategoricalFillsOnlyMissing | src/pages/Index.tsx:455-468 | in a categorical column only blank cells change, to the most common value, and only when missing values are targeted |
| Cleaning.FillIdempotent | src/pages/Index.tsx:444-454 | when the replacement itself is not targeted, filling twice equals filling once |
| Cleaning.MedianFillClearsOutliers | src/pages/Index.tsx:390-391 | filling outliers with the median leaves no outlier under the same fences |
| Cleaning.InlierFillClearsOutliers | src/pages/Index.tsx:447-452 | filling outliers with a value inside the fences leaves no outlier |
| Cleaning.MedianInsideBounds | src/pages/Index.tsx:437-442 | the median is a number inside the column's outlier fences |
| Cleaning.KeepCount | src/pages/Index.tsx:401-405 | each row is either kept or dropped by a filter, never both |
| Cleaning.KeepSubsequence | src/pages/Index.tsx:401-405 | `filter` keeps an order-preserving subsequence that contains every passing row |
| Cleaning.RemovedIsSubsequence | src/pages/Index.tsx:396-421 | removal keeps an order-preserving subsequence of the rows, and every row passing the filters the target applies is kept |
| Cleaning.RemovedHasNoBlank | src/pages/Index.tsx:400-405 | removal targeting missing values leaves no null, undefined or empty cell in the column |
| Cleaning.RemovedHasNoOutlier | src/pages/Index.tsx:410-421 | removal targeting outliers in a numeric column leaves no number outside the prior fences |
| Cleaning.RemovedKeepsComplete | src/pages/Index.tsx:400-405 | removing missing values keeps every row whose cell is present |
| Series.UsableRowsExactly | src/pages/Index.tsx:493-494 | a row is used exactly when both its time and target cells are truthy |
| Series.UsableRowsInOrder | src/pages/Index.tsx:493-494 | the used rows are the data read at increasing positions, every usable position once, duplicates included; their number is the number of usable positions |
| Series.ObservationsOrdered | src/pages/Index.tsx:493-499 | the series exists exactly when every used target is numeric; it is then a time-ordered permutation of the used rows' points |
| Series.SplitSizes | src/pages/Index.tsx:501-510 | with at least ten points, the training part has at least eight and the test part at least two |
| Series.IndexSpreadPositive | src/pages/Index.tsx:545 | the slope's denominator over the index 0…n−1 is positive for n ≥ 2 |
| Series.ExactLineFit | src/pages/Index.tsx:535-546 | the closed-form fit of points on a line returns that line's slope and intercept |
| Series.LinearPredictions | src/pages/Index.tsx:548-556 | one prediction per test point, with that point's time and actual value |
| Series.LinearPredictionsExact | src/pages/Index.tsx:548-556 | on a series lying on a line, every linear prediction equals the actual value |
| Series.MovingAveragePredictions | src/pages/Index.tsx:519-529 | one prediction per test point, with that point's time and actual value |
| Series.WindowFull | src/pages/Index.tsx:520-522 | a window ending at or after its length holds exactly the preceding w values |
| Series.MovingAverageBounds | src/pages/Index.tsx:519-529 | a moving-average prediction lies within the bounds of its window |
| Series.MovingAverageNoLookahead | src/pages/Index.tsx:667-671 | a moving-average prediction depends only on the values before its test point |
| Series.ExponentialPredictions | src/pages/Index.tsx:698-708 | one prediction per test point, with that point's time and actual value |
| Series.SmoothTestPoints | src/pages/Index.tsx:698-708 | the smoothing loop produces exactly the exponential predictions |
| Series.LevelBounds | src/pages/Index.tsx:699-702 | a smoothed level stays within bounds that hold its start and every value |
| Series.ExponentialLooksAhead | src/pages/Index.tsx:701-702 | each exponential prediction changes with its own test point's actual value |
| Series.ErrorSums | src/pages/Index.tsx:561-563 | the absolute and squared error sums are non-negative, and zero exactly when every prediction is exact |
| Series.ZeroErrorIffExact | src/pages/Index.tsx:561-563 | MAE and MSE are non-negative, and zero exactly when every prediction is exact |
| Series.RSquaredAtMostOne | src/pages/Index.tsx:565-569 | R², when defined, is at most 1, and equals 1 exactly when every prediction is exact |
| Series.RSquaredUndefinedIffConstant | src/pages/Index.tsx:566-569 | R² is undefined (a zero total sum of squares) exactly when all actual values are equal |
| Series.Horizon | src/pages/Index.tsx:581-598 | one forecast point for each period 1…forecastPeriods, none when it is below 1 |
| Series.ForecastAt | src/pages/Index.tsx:584-592 | the loop body's value for one period is the chosen model's forecast value: the fitted line, the last window's mean or the held level |
| Series.Forecast | src/pages/Index.tsx:581-598 | the forecast loop produces exactly the horizon |
| Series.HoldLevel | src/pages/Index.tsx:795-799 | the smoothing loop of the exponential forecast produces `Held` |
| Series.HeldIsLevel | src/pages/Index.tsx:796-799 | `α·s + (1 − α)·s` repeated leaves the level unchanged |
| Series.HorizonTimes | src/pages/Index.tsx:578-583 | forecast times start one step after the last time and advance by the last step |
| Series.ExponentialForecastIsLast | src/pages/Index.tsx:792-799 | the exponential forecast repeats the last observed value |
| Series.MovingAverageForecastFlat | src/pages/Index.tsx:586-588 | the moving-average forecast repeats the mean of the last w values |
| Series.LinearForecastContinues | src/pages/Index.tsx:589-592 | the linear forecast continues the fitted line: period i (from 1) is the line at index n + i − 1, so each period adds one slope |
| Series.ChartOrdered | src/pages/Index.tsx:600-615 | the chart data is a time-ordered permutation of history, predictions and forecast |
| TimeSeries.TestPredictions | src/pages/Index.tsx:507-558 | the chosen model predicts each of the (at least two) test points, keeping each point's time and actual value |
| TimeSeries.ForecastModel | src/pages/Index.tsx:586-592 | the forecasting model is well formed |
| TimeSeries.MovingAverageForecastFollows | src/pages/Index.tsx:516-592 | each moving-average test prediction is the mean of the w values before it, and every forecast value is the mean of the last w values |
| TimeSeries.LinearForecastFollows | src/pages/Index.tsx:532-592 | test predictions and forecast values lie on one line fitted to the training part: test point k at index train + k, forecast period i (from 1) at index n + i − 1 |
| TimeSeries.TooFewPointsIffFewUsable | src/pages/Index.tsx:493-505 | the handler reports too few points exactly when fewer than ten row positions have truthy time and target cells |
| TimeSeries.RunTimeSeries | src/pages/Index.tsx:484-621 | the handler's steps, with its forecast loop, produce `Result` |
| TimeSeries.SeriesSize | src/pages/Index.tsx:493-499 | the series has one point per used row |
| TimeSeries.ResultShape | src/pages/Index.tsx:484-615 | too few points exactly when fewer than ten rows are used; otherwise a time-ordered chart of n + test + forecast points |
| TimeSeries.LinearExactSeries | src/pages/Index.tsx:532-575 | a series on a line gives zero MAE and zero error under the linear model |
| TimeSeries.ForecastOutOfScope | src/pages/Index.tsx:582-592 | as written, any run that reaches the forecast with at least one period throws on `windowSize` or `slope` |
| TimeSeries.NoPeriodsAgree | src/pages/Index.tsx:581-598 | with no forecast periods, the code as written and the intended result agree |
| AutoML.CandidatePredictions | src/pages/Index.tsx:661-736 | every candidate predicts each test point, keeping its time and actual value |
| AutoML.Evaluations | src/pages/Index.tsx:653-757 | one evaluation per candidate, in list order |
| AutoML.PredictCandidate | src/pages/Index.tsx:664-736 | the per-candidate step, with the smoothing loop, produces the candidate's predictions |
| AutoML.EvaluateCandidates | src/pages/Index.tsx:661-757 | the loop over the models produces exactly the evaluations |
| AutoML.RunAutoML | src/pages/Index.tsx:624-837 | the handler's steps produce `Result`: all results, the first-ranked model and its chart |
| AutoML.TooFewPointsIffFewUsable | src/pages/Index.tsx:635-646 | the handler reports too few points exactly when fewer than ten row positions have truthy time and target cells |
| AutoML.SameSplit | src/pages/Index.tsx:649-651 | all candidates predict the same test points |
| AutoML.RankingIsPermutation | src/pages/Index.tsx:760 | the ranking reorders the results and loses none |
| AutoML.PositionsIncrease | src/pages/Index.tsx:653-661 | the results come in the order of the models list |
| AutoML.BestIsMinimal | src/pages/Index.tsx:759-761 | the ranking is by error with ties in list order, and the best model's error is minimal |
| AutoML.ErrorsNonNegative | src/pages/Index.tsx:739-741 | every candidate's error is non-negative |
| AutoML.ExactLineBestIsLinear | src/pages/Index.tsx:711-761 | on a series lying on a line, linear regression ranks first with zero error |
| AutoML.BestForecastFlat | src/pages/Index.tsx:787-799 | a moving-average or exponential best model forecasts a constant; the exponential one forecasts the last value |
| Table.RequestSort | src/pages/Index.tsx:208-214 | a click sorts by that column, descending exactly when it was already sorted ascending by it |
| Table.RequestSortToggles | src/pages/Index.tsx:208-214 | repeated clicks on one column alternate the direction with period two |
| Table.NewKeyAscends | src/pages/Index.tsx:209-213 | a click on another column sorts it ascending |
| Table.Lower | src/pages/Index.tsx:222 | lower-casing keeps the length and every character but the capitals, each of which becomes its small letter |
| Table.LowerNormalises | src/pages/Index.tsx:222 | a lower-cased string has no upper-case letter, and lower-casing twice changes nothing |
| Table.ContainsIff | src/pages/Index.tsx:227 | `includes` holds exactly when the query occurs at some position |
| Table.LowerIgnoresCase | src/pages/Index.tsx:222 | strings that differ only in ASCII case lower-case to the same string |
| Table.MatchIgnoresCase | src/pages/Index.tsx:220-240 | the search and the column filter match a row exactly when the query with other capitals does |
| Table.TextMatchIgnoresCase | src/pages/Index.tsx:222-238 | a text cell matches a query exactly when the same text with other capitals does |
| Filters.Where | src/pages/Index.tsx:223-229 | `filter` keeps only passing elements of the input, and every passing element |
| Filters.WherePicks | src/pages/Index.tsx:223-229 | `filter` keeps the input read at increasing positions, and every passing position is one of them |
| Filters.WhereMultiset | src/pages/Index.tsx:223-229 | `filter` keeps each passing element exactly as often as it occurs, and no other |
| Filters.WhereCount | src/pages/Index.tsx:223-229 | `filter` keeps as many elements as there are passing positions |
| Table.SortedAndFiltered | src/pages/Index.tsx:217-272 | the view never has more rows than the data |
| Table.ViewRows | src/pages/Index.tsx:217-272 | the view holds exactly the data rows that pass the set filters; with a sort key, rows with a null or undefined key come last |
| Table.ViewMultiset | src/pages/Index.tsx:217-272 | the view holds each shown data row exactly as often as the data does, and no other row |
| Table.ViewKeepsDataOrder | src/pages/Index.tsx:217-243 | with no sort key the view is the data read at increasing positions, every shown position among them |
| Table.ViewUnfiltered | src/pages/Index.tsx:218-243 | with no query, no column filter and no sort key the view is the data |
| Table.SortMissingLast | src/pages/Index.tsx:245-246 | the comparator puts rows with a missing key after every other row |
| Table.NumericColumnSort | src/pages/Index.tsx:252-266 | on a numeric column the view is the stable sort by value, ascending or descending |
| Table.SortWithByKey | src/pages/Index.tsx:244-268 | a comparator that orders as a numeric key sorts as the sort by that key |
| Table.Editor.UpdateCell | src/pages/Index.tsx:193-198 | the data becomes the old data with that one cell set to the text, and changes are marked unsaved |
| Table.EditedChangesOneCell | src/pages/Index.tsx:193-198 | the written cell reads back the value; every other cell and row is unchanged |
| Table.TaggedViewProjects | src/pages/Index.tsx:217-272 | carrying each row's data index through the view changes nothing that is shown |
| Table.TaggedViewFaithful | src/pages/Index.tsx:976-990 | every index carried by the view points at the data row it came from |
| Table.EditFromViewAsWritten | src/pages/Index.tsx:976-990 | the edit from the view as written: the view position indexes the data |
| Table.EditFromView | src/pages/Index.tsx:976-990 | the edit of the row shown at a view position |
| Table.EditFromViewWritesShownRow | src/pages/Index.tsx:976-990 | the corrected edit writes the cell of the data row that is shown at that position, and nothing else |
| Table.ExampleShown | src/pages/Index.tsx:243-268 | rows with 2 and 1, sorted ascending, are shown as 1 then 2 |
| Table.EditFromViewAsWrittenMisses | src/pages/Index.tsx:990 | editing the first shown row (the 1) as written overwrites the other row and leaves the shown one unchanged |
| Table.EditFromViewHitsExample | src/pages/Index.tsx:990 | the corrected edit of the same cell writes the shown row and leaves the other unchanged |

## Left out

- User interface, messages, loading flags, `localStorage`, file import and CSV export: these are I/O around the core.
- The `useEffect` re-run of statistics and correlations (src/pages/Index.tsx:73-78) is not modelled. `calculateCorrelations` reads the statistics of the previous render, so they can be stale. The model passes the statistics in as a parameter.
- Stats.StatsOf: `std` is kept as its square (the sample variance), because the model has no square roots. Mean, min, max, median and quartiles are exact.
- Correlation.CalculateCorrelations: each coefficient is kept as its numerator and the radicand under the square root. The reported coefficient is their quotient after a square root. Bounds and the sign of ±1 are proved on this form.
- Correlation.Coefficient: if stale statistics let a text cell into a numeric column, JavaScript would concatenate strings. The model instead returns `NotNumeric`.
- AutoML.RunAutoML: ranks by mean squared error instead of RMSE. The order is the same, because the square root is increasing. The displayed metrics and their `toFixed(4)` formatting are not modelled.
- TimeSeries.RunTimeSeries: when a used target cell is not a number, the source computes with strings. The model returns `NonNumericTarget` instead.
- AutoML.RunAutoML: when a used target cell is not a number, the source computes with strings. The model returns `NonNumericTarget` instead.
- TimeSeries.RunTimeSeries: when all test actuals are equal, R² is `NaN` or `-Infinity` in the source. The model returns `None`.
- AutoML.RunAutoML: when all test actuals are equal, R² is `NaN` or `-Infinity` in the source. The model returns `None`.
- `new Date(...).getTime()` is the parameter `instant`. Invalid dates, which give `NaN`, are not modelled.
- Series.TrainSize: `Math.floor(n * 0.8)` is modelled as `(4n) / 5`. Floating-point rounding of `0.8` is not modelled.
- Series.Window: clamps its start at 0, as `runAutoML` does. `runTimeSeries` slices without the clamp (src/pages/Index.tsx:522). Its start is never negative, because the training part has at least eight points.
- Stats.TopValues: `_.countBy` turns values into string keys, so `1` and `"1"` merge. `Object.entries` also lists integer-like keys first. The model counts cells as they are and breaks ties by first occurrence.
- Table.Lower: `toLowerCase` is modelled on ASCII letters only.
- Table.LexLess: compares Unicode code points, where JavaScript compares UTF-16 code units. The two orders differ only for characters above U+FFFF.
- Table.Show: `toString` of a number and `Number` of a string are the parameters `numeral` and `parse` (`Coercions`). Numbers are not printed or parsed.
- Table.Compare: the source comparator is not consistent when both keys are missing, or when numbers and text mix. The model fixes one outcome, the stable insertion result.
- Table.EditFromView: the table renders only the first 100 view rows (src/pages/Index.tsx:976). The model accepts any view position.
- Table.Editor.UpdateCell: `[...data]` copies only the array, so the source also mutates the row objects the previous state shares. The model treats rows as values. An out-of-range index makes the source throw, so it is excluded by `requires`.
- Cleaning.CleanData: a fill writes through `[...data]` (src/pages/Index.tsx:383, :452, :465), which copies only the array, so the source also mutates the row objects the previous `data` shares. The model treats rows as values and leaves the previous rows unchanged.
- Cleaning.CleanData: a categorical fill writes the most frequent value as the cell itself, where the source writes the string key of `_.countBy` (src/pages/Index.tsx:457-459, :465). For the column [3, 3, "a", null] the source writes "3" and the model writes the number 3, so the unique count recomputed afterwards is 3 in the source and 2 in the model.
- Cleaning.CleanData: the statistics recomputed after cleaning are left to `Stats.CalculateDataStats`. The success messages are not modelled.

## Findings

| source | as written | input that shows it | evidently intended | confidence | as-written member | corrected member |
|---|---|---|---|---|---|---|
| src/pages/Index.tsx:587-591 | The forecast loop reads `windowSize`, `slope` and `intercept`. They are declared with `const` inside the `switch` cases (:518, :545-546), so they are out of scope at the loop. | Any ten rows with numeric targets and `forecastPeriods` = 1: the first iteration throws a ReferenceError. | Forecast with the chosen model's window, or with its fitted line. | not executed | TimeSeries.ResultAsWritten, TimeSeries.ForecastOutOfScope | TimeSeries.Result, TimeSeries.ResultShape, TimeSeries.MovingAverageForecastFollows, TimeSeries.LinearForecastFollows |
| src/pages/Index.tsx:976-990 | Each input passes its position in the filtered, sorted view to `updateCell`, which indexes the unfiltered data (:195). | Rows `{a: 2}`, `{a: 1}` sorted ascending by `a`: editing the first shown row (the 1) overwrites the row holding 2. | Edit the row that is shown at that position. | not executed | Table.EditFromViewAsWritten, Table.EditFromViewAsWrittenMisses | Table.EditFromView, Table.EditFromViewWritesShownRow, Table.EditFromViewHitsExample |
