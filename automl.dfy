// `runAutoML` (src/pages/Index.tsx:624-837): four fixed candidates are
// evaluated on the same train/test split, ranked by their error with a stable
// sort, and the best one forecasts `forecastPeriods` future periods.
//
// The ranking key is the mean squared error: RMSE is its square root, which
// orders the candidates the same way.

module AutoML {
  import opened Cells
  import opened Sums
  import opened Sorting
  import opened Moments
  import opened Series

  datatype Candidate = Linear | MovingAverage3 | MovingAverage5 | Exponential

  /** The `models` list, in its order. */
  const Candidates: seq<Candidate> := [Linear, MovingAverage3, MovingAverage5, Exponential]

  const MinimumPoints: nat := 10

  function Position(c: Candidate): int
  {
    match c
    case Linear => 0
    case MovingAverage3 => 1
    case MovingAverage5 => 2
    case Exponential => 3
  }

  /** One entry of `modelResults`. */
  datatype Evaluation = Evaluation(candidate: Candidate, metrics: Metrics, predictions: seq<Prediction>)

  function CandidatePredictions(series: seq<Point>, c: Candidate): (r: seq<Prediction>)
    requires |series| >= MinimumPoints
    ensures |r| == |series| - TrainSize(|series|) >= 2
    ensures OnTestPoints(series, TrainSize(|series|), r)
  {
    SplitSizes(|series|);
    var t := TrainSize(|series|);
    match c
    case Linear => LinearPredictions(series, t)
    case MovingAverage3 => MovingAveragePredictions(series, t, 3)
    case MovingAverage5 => MovingAveragePredictions(series, t, 5)
    case Exponential => ExponentialPredictions(series, t)
  }

  function Evaluate(series: seq<Point>, c: Candidate): Evaluation
    requires |series| >= MinimumPoints
  {
    var p := CandidatePredictions(series, c);
    Evaluation(c, MetricsOf(p), p)
  }

  function Evaluations(series: seq<Point>): (r: seq<Evaluation>)
    requires |series| >= MinimumPoints
    ensures |r| == |Candidates|
    ensures forall k :: 0 <= k < |r| ==> r[k] == Evaluate(series, Candidates[k]) && r[k].candidate == Candidates[k]
  {
    seq(|Candidates|, k requires 0 <= k < |Candidates| => Evaluate(series, Candidates[k]))
  }

  /** The sort key of `(a, b) => a.rmse - b.rmse`, squared. */
  function Error(e: Evaluation): real { e.metrics.mse }

  function PositionOf(e: Evaluation): int { Position(e.candidate) }

  /** `sortedResults`: the evaluations by increasing error, ties in list order. */
  function Ranking(series: seq<Point>): (r: seq<Evaluation>)
    requires |series| >= MinimumPoints
    ensures |r| == |Candidates|
  {
    SortBy(Evaluations(series), Error)
  }

  /** The model the best candidate forecasts with; the line is refitted to the training part. */
  function ModelOf(series: seq<Point>, c: Candidate): (m: Model)
    requires |series| >= MinimumPoints
    ensures ValidModel(m)
  {
    SplitSizes(|series|);
    match c
    case Linear => LinearModel(FitLine(Values(series[..TrainSize(|series|)])))
    case MovingAverage3 => MovingAverageModel(3)
    case MovingAverage5 => MovingAverageModel(5)
    case Exponential => ExponentialModel
  }

  datatype Outcome =
    | NoColumns
    | TooFewPoints
    | NonNumericTarget
    | Done(results: seq<Evaluation>, best: Evaluation, chart: seq<ChartPoint>)

  function Result(data: seq<Row>, timeCol: string, targetCol: string, periods: int, instant: Cell -> int): Outcome
  {
    if timeCol == "" || targetCol == "" then NoColumns
    else if |UsableRows(data, timeCol, targetCol)| < MinimumPoints then TooFewPoints
    else
      match Observations(data, timeCol, targetCol, instant)
      case None => NonNumericTarget
      case Some(series) =>
        var best := Ranking(series)[0];
        var forecast := Horizon(series, ModelOf(series, best.candidate), periods);
        Done(Evaluations(series), best, Chart(series, best.predictions, forecast))
  }

  /** One candidate's predictions; exponential smoothing runs its loop. */
  method PredictCandidate(series: seq<Point>, c: Candidate) returns (p: seq<Prediction>)
    requires |series| >= MinimumPoints
    ensures p == CandidatePredictions(series, c)
  {
    SplitSizes(|series|);
    if c == Exponential {
      p := SmoothTestPoints(series, TrainSize(|series|));
    } else {
      p := CandidatePredictions(series, c);
    }
  }

  /** The `for (const model of models)` loop that fills `modelResults`. */
  method EvaluateCandidates(series: seq<Point>) returns (results: seq<Evaluation>)
    requires |series| >= MinimumPoints
    ensures results == Evaluations(series)
  {
    ghost var all := Evaluations(series);
    results := [];
    for k := 0 to |Candidates|
      invariant results == all[..k]
    {
      var p := PredictCandidate(series, Candidates[k]);
      var e := Evaluation(Candidates[k], MetricsOf(p), p);
      assert e == all[k];
      PrefixStep(all, k);
      results := results + [e];
    }
    assert results == all;
  }

  method RunAutoML(data: seq<Row>, timeCol: string, targetCol: string, periods: int, instant: Cell -> int)
    returns (outcome: Outcome)
    ensures outcome == Result(data, timeCol, targetCol, periods, instant)
  {
    if timeCol == "" || targetCol == "" {
      return NoColumns;
    }
    if |UsableRows(data, timeCol, targetCol)| < MinimumPoints {
      return TooFewPoints;
    }
    var observed := Observations(data, timeCol, targetCol, instant);
    if observed.None? {
      return NonNumericTarget;
    }
    var series := observed.value;
    var results := EvaluateCandidates(series);
    var best := SortBy(results, Error)[0];
    var forecast := Forecast(series, ModelOf(series, best.candidate), periods);
    return Done(results, best, Chart(series, best.predictions, forecast));
  }

  // ---------------------------------------------------------------- properties

  /**
   * With both columns chosen, the comparison stops with too few points
   * exactly when fewer than ten rows hold a truthy time and a truthy target.
   */
  lemma TooFewPointsIffFewUsable(data: seq<Row>, timeCol: string, targetCol: string, periods: int,
                                 instant: Cell -> int)
    requires timeCol != "" && targetCol != ""
    ensures Result(data, timeCol, targetCol, periods, instant) == TooFewPoints <==>
      |set i | 0 <= i < |data| && Usable(data[i], timeCol, targetCol)| < MinimumPoints
  {
    var _ := UsableRowsInOrder(data, timeCol, targetCol);
  }

  /** Every candidate is evaluated, in list order, on the same test points. */
  lemma SameSplit(series: seq<Point>)
    requires |series| >= MinimumPoints
    ensures var r := Evaluations(series); var t := TrainSize(|series|);
      forall k :: 0 <= k < |r| ==> r[k].candidate == Candidates[k] && OnTestPoints(series, t, r[k].predictions)
  {
  }

  /** The ranking reorders the evaluations; no candidate is lost or repeated. */
  lemma RankingIsPermutation(series: seq<Point>)
    requires |series| >= MinimumPoints
    ensures multiset(Ranking(series)) == multiset(Evaluations(series))
  {
  }

  /** The evaluations follow the list order of the candidates. */
  lemma PositionsIncrease(series: seq<Point>)
    requires |series| >= MinimumPoints
    ensures var r := Evaluations(series); forall i, j :: 0 <= i < j < |r| ==> PositionOf(r[i]) < PositionOf(r[j])
  {
    InListOrder(Evaluations(series));
  }

  lemma InListOrder(r: seq<Evaluation>)
    requires |r| == |Candidates| && forall k :: 0 <= k < |r| ==> r[k].candidate == Candidates[k]
    ensures forall i, j :: 0 <= i < j < |r| ==> PositionOf(r[i]) < PositionOf(r[j])
  {
    forall k | 0 <= k < |r| ensures PositionOf(r[k]) == k {
      assert r[k].candidate == Candidates[k];
    }
  }

  /**
   * The first-ranked candidate has the smallest error, and among candidates
   * with equal error the ranking keeps list order.
   */
  lemma BestIsMinimal(series: seq<Point>)
    requires |series| >= MinimumPoints
    ensures var rank := Ranking(series);
      && SortedThenBy(rank, Error, PositionOf)
      && forall k :: 0 <= k < |Candidates| ==> Error(rank[0]) <= Error(Evaluations(series)[k])
  {
    var evs := Evaluations(series);
    PositionsIncrease(series);
    SortByStable(evs, Error, PositionOf);
    SortByFirstIsLeast(evs, Error);
  }

  lemma ErrorsNonNegative(series: seq<Point>)
    requires |series| >= MinimumPoints
    ensures forall k :: 0 <= k < |Candidates| ==> Error(Evaluations(series)[k]) >= 0.0
  {
    forall k | 0 <= k < |Candidates| ensures Error(Evaluations(series)[k]) >= 0.0 {
      ZeroErrorIffExact(CandidatePredictions(series, Candidates[k]));
    }
  }

  /**
   * A series lying exactly on a line over its index makes the linear
   * regression the best candidate, with zero error: no candidate does better,
   * and a tie leaves it first.
   */
  lemma ExactLineBestIsLinear(series: seq<Point>, a: real, b: real)
    requires |series| >= MinimumPoints
    requires forall i :: 0 <= i < |series| ==> series[i].value == Line(a, b, i as real)
    ensures Ranking(series)[0].candidate == Linear && Error(Ranking(series)[0]) == 0.0
  {
    SplitSizes(|series|);
    var evs := Evaluations(series);
    LinearPredictionsExact(series, TrainSize(|series|), a, b);
    ZeroErrorIffExact(evs[0].predictions);
    ErrorsNonNegative(series);
    LeastFirstStaysFirst(evs, Error);
  }

  /**
   * The forecast of a moving-average or exponential best candidate is the
   * same value at every step; for exponential smoothing it is the last
   * observed value.
   */
  lemma BestForecastFlat(series: seq<Point>, c: Candidate, periods: int)
    requires |series| >= MinimumPoints && c != Linear
    ensures var h := Horizon(series, ModelOf(series, c), periods);
      && (forall k :: 0 <= k < |h| ==> h[k].predicted == h[0].predicted)
      && (c == Exponential ==> forall k :: 0 <= k < |h| ==> h[k].predicted == series[|series| - 1].value)
  {
    if c == Exponential {
      ExponentialForecastIsLast(series, periods);
    } else {
      MovingAverageForecastFlat(series, ModelOf(series, c).w, periods);
    }
  }
}
