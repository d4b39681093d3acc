// `runTimeSeries` (src/pages/Index.tsx:484-621): the model the user picked,
// its predictions for the last fifth of the series, their error metrics, a
// forecast of `forecastPeriods` future periods and the merged chart data.
//
// As written, the forecast loop names `windowSize`, `slope` and `intercept`,
// which are declared inside the `switch` cases and are out of scope there;
// `ResultAsWritten` models that, `Result` the evident intent.

module TimeSeries {
  import opened Cells
  import opened Sums
  import opened Sorting
  import opened Series
  import opened Moments

  /** `mlModel`: 'moving-average', or anything else, which runs the linear regression. */
  datatype Choice = MovingAverageChoice | LinearChoice

  const WindowSize: nat := 3
  const MinimumPoints: nat := 10

  datatype Outcome =
    | NoColumns                      // no target or no time column selected
    | TooFewPoints                   // fewer than ten usable rows
    | NonNumericTarget               // a used target cell is text
    | ReferenceError(name: string)   // the forecast loop throws
    | Done(chart: seq<ChartPoint>, metrics: Metrics)

  function TestPredictions(series: seq<Point>, choice: Choice): (r: seq<Prediction>)
    requires |series| >= MinimumPoints
    ensures |r| == |series| - TrainSize(|series|) >= 2
    ensures OnTestPoints(series, TrainSize(|series|), r)
  {
    SplitSizes(|series|);
    var t := TrainSize(|series|);
    match choice
    case MovingAverageChoice => MovingAveragePredictions(series, t, WindowSize)
    case LinearChoice => LinearPredictions(series, t)
  }

  /** The model the forecast continues: the same window, or the line fitted to the training part. */
  function ForecastModel(series: seq<Point>, choice: Choice): (m: Model)
    requires |series| >= MinimumPoints
    ensures ValidModel(m)
  {
    SplitSizes(|series|);
    match choice
    case MovingAverageChoice => MovingAverageModel(WindowSize)
    case LinearChoice => LinearModel(FitLine(Values(series[..TrainSize(|series|)])))
  }

  /** The operation with the forecast continuing the chosen model. */
  function Result(data: seq<Row>, timeCol: string, targetCol: string, choice: Choice, periods: int,
                  instant: Cell -> int): Outcome
  {
    if timeCol == "" || targetCol == "" then NoColumns
    else if |UsableRows(data, timeCol, targetCol)| < MinimumPoints then TooFewPoints
    else
      match Observations(data, timeCol, targetCol, instant)
      case None => NonNumericTarget
      case Some(series) =>
        var preds := TestPredictions(series, choice);
        Done(Chart(series, preds, Horizon(series, ForecastModel(series, choice), periods)), MetricsOf(preds))
  }

  /**
   * The operation as written: once the loop body runs, evaluating
   * `windowSize` (moving average) or `slope` (linear) throws.
   */
  function ResultAsWritten(data: seq<Row>, timeCol: string, targetCol: string, choice: Choice, periods: int,
                           instant: Cell -> int): Outcome
  {
    if timeCol == "" || targetCol == "" then NoColumns
    else if |UsableRows(data, timeCol, targetCol)| < MinimumPoints then TooFewPoints
    else
      match Observations(data, timeCol, targetCol, instant)
      case None => NonNumericTarget
      case Some(series) =>
        if periods >= 1 then ReferenceError(if choice == MovingAverageChoice then "windowSize" else "slope")
        else
          var preds := TestPredictions(series, choice);
          Done(Chart(series, preds, []), MetricsOf(preds))
  }

  /** The steps of the handler, with the forecast built by its loop. */
  method RunTimeSeries(data: seq<Row>, timeCol: string, targetCol: string, choice: Choice, periods: int,
                       instant: Cell -> int) returns (outcome: Outcome)
    ensures outcome == Result(data, timeCol, targetCol, choice, periods, instant)
  {
    if timeCol == "" || targetCol == "" {
      return NoColumns;
    }
    if |UsableRows(data, timeCol, targetCol)| < MinimumPoints {
      return TooFewPoints;
    }
    var observed := Observations(data, timeCol, targetCol, instant);
    if observed.None? {
      return NonNumericTarget;
    }
    var series := observed.value;
    ObservationsOrdered(data, timeCol, targetCol, instant);
    var predictions := TestPredictions(series, choice);
    var metrics := MetricsOf(predictions);
    var forecast := Forecast(series, ForecastModel(series, choice), periods);
    return Done(Chart(series, predictions, forecast), metrics);
  }

  // ---------------------------------------------------------------- properties

  /** The series has one point per usable row. */
  lemma SeriesSize(data: seq<Row>, timeCol: string, targetCol: string, instant: Cell -> int)
    requires Observations(data, timeCol, targetCol, instant).Some?
    ensures |Observations(data, timeCol, targetCol, instant).value| == |UsableRows(data, timeCol, targetCol)|
  {
  }

  /**
   * With both columns chosen and numeric targets, the operation stops with
   * too few points exactly when fewer than ten rows are usable, and
   * otherwise completes with metrics over at least two test points and a
   * time-ordered chart holding the series, the predictions and one entry
   * per forecast period.
   */
  lemma ResultShape(data: seq<Row>, timeCol: string, targetCol: string, choice: Choice, periods: int,
                    instant: Cell -> int)
    requires timeCol != "" && targetCol != ""
    requires NumericTargets(UsableRows(data, timeCol, targetCol), targetCol)
    ensures var n := |UsableRows(data, timeCol, targetCol)|;
      var r := Result(data, timeCol, targetCol, choice, periods, instant);
      && (r == TooFewPoints <==> n < MinimumPoints)
      && (n >= MinimumPoints ==>
            && r.Done?
            && SortedBy(r.chart, ChartTime)
            && |r.chart| == n + (n - TrainSize(n)) + (if periods > 0 then periods else 0))
  {
    var n := |UsableRows(data, timeCol, targetCol)|;
    if n >= MinimumPoints {
      var series := Observations(data, timeCol, targetCol, instant).value;
      var preds := TestPredictions(series, choice);
      ChartOrdered(series, preds, Horizon(series, ForecastModel(series, choice), periods));
    }
  }

  /**
   * With both columns chosen, the run stops with too few points exactly when
   * fewer than ten rows hold a truthy time and a truthy target.
   */
  lemma TooFewPointsIffFewUsable(data: seq<Row>, timeCol: string, targetCol: string, choice: Choice, periods: int,
                                 instant: Cell -> int)
    requires timeCol != "" && targetCol != ""
    ensures Result(data, timeCol, targetCol, choice, periods, instant) == TooFewPoints <==>
      |set i | 0 <= i < |data| && Usable(data[i], timeCol, targetCol)| < MinimumPoints
  {
    var _ := UsableRowsInOrder(data, timeCol, targetCol);
  }

  /**
   * The moving-average forecast continues the model of the test predictions:
   * each test point is predicted by the mean of the three values before it,
   * and every forecast period by the mean of the last three values.
   */
  lemma MovingAverageForecastFollows(series: seq<Point>, periods: int)
    requires |series| >= MinimumPoints
    ensures var t := TrainSize(|series|);
      var preds := TestPredictions(series, MovingAverageChoice);
      var h := Horizon(series, ForecastModel(series, MovingAverageChoice), periods);
      && (forall k :: 0 <= k < |preds| ==> preds[k].predicted == Mean(Values(series)[t + k - WindowSize..t + k]))
      && (forall i :: 0 <= i < |h| ==> h[i].predicted == Mean(Values(series)[|series| - WindowSize..]))
  {
    SplitSizes(|series|);
    var t := TrainSize(|series|);
    var preds := MovingAveragePredictions(series, t, WindowSize);
    assert TestPredictions(series, MovingAverageChoice) == preds;
    forall k | 0 <= k < |preds| ensures preds[k].predicted == Mean(Values(series)[t + k - WindowSize..t + k]) {
      assert Window(Values(series), t + k, WindowSize) == Values(series)[t + k - WindowSize..t + k];
    }
    assert ForecastModel(series, MovingAverageChoice) == MovingAverageModel(WindowSize);
    MovingAverageForecastFlat(series, WindowSize, periods);
  }

  /**
   * The linear forecast continues the model of the test predictions: test
   * point k and forecast period i + 1 both lie on the line fitted to the
   * training part, at indices t + k and n + i.
   */
  lemma LinearForecastFollows(series: seq<Point>, periods: int)
    requires |series| >= MinimumPoints
    ensures var t := TrainSize(|series|);
      var f := FitLine(Values(series[..t]));
      var preds := TestPredictions(series, LinearChoice);
      var h := Horizon(series, ForecastModel(series, LinearChoice), periods);
      && (forall k :: 0 <= k < |preds| ==> preds[k].predicted == Line(f.slope, f.intercept, (t + k) as real))
      && (forall i :: 0 <= i < |h| ==> h[i].predicted == Line(f.slope, f.intercept, (|series| + i) as real))
  {
    SplitSizes(|series|);
    var t := TrainSize(|series|);
    var f := FitLine(Values(series[..t]));
    assert TestPredictions(series, LinearChoice) == LinearPredictions(series, t);
    assert ForecastModel(series, LinearChoice) == LinearModel(f);
    LinearForecastContinues(series, f, periods);
  }

  /**
   * A series whose values lie exactly on a line over their index is
   * predicted without error by the linear model.
   */
  lemma LinearExactSeries(data: seq<Row>, timeCol: string, targetCol: string, periods: int,
                          instant: Cell -> int, a: real, b: real)
    requires timeCol != "" && targetCol != ""
    requires |UsableRows(data, timeCol, targetCol)| >= MinimumPoints
    requires Observations(data, timeCol, targetCol, instant).Some?
    requires var series := Observations(data, timeCol, targetCol, instant).value;
      forall i :: 0 <= i < |series| ==> series[i].value == Line(a, b, i as real)
    ensures var r := Result(data, timeCol, targetCol, LinearChoice, periods, instant);
      r.Done? && r.metrics.mae == 0.0 && r.metrics.mse == 0.0
  {
    var series := Observations(data, timeCol, targetCol, instant).value;
    SplitSizes(|series|);
    var preds := TestPredictions(series, LinearChoice);
    LinearPredictionsExact(series, TrainSize(|series|), a, b);
    ZeroErrorIffExact(preds);
  }

  /**
   * As written, every run that reaches the forecast with at least one
   * period ends in a ReferenceError, where the corrected operation completes.
   */
  lemma ForecastOutOfScope(data: seq<Row>, timeCol: string, targetCol: string, choice: Choice, periods: int,
                           instant: Cell -> int)
    requires periods >= 1
    requires Result(data, timeCol, targetCol, choice, periods, instant).Done?
    ensures ResultAsWritten(data, timeCol, targetCol, choice, periods, instant)
      == ReferenceError(if choice == MovingAverageChoice then "windowSize" else "slope")
  {
  }

  /** With no period to forecast the two agree. */
  lemma NoPeriodsAgree(data: seq<Row>, timeCol: string, targetCol: string, choice: Choice, periods: int,
                       instant: Cell -> int)
    requires periods < 1
    ensures ResultAsWritten(data, timeCol, targetCol, choice, periods, instant)
      == Result(data, timeCol, targetCol, choice, periods, instant)
  {
  }
}
