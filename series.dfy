// The time series both forecasting operations build, and the pieces they
// share (src/pages/Index.tsx:484-621 and :624-837): the row filter and the
// time ordering, the 80/20 split, the least-squares line over the integer
// index, moving averages, exponential smoothing, the error metrics, the
// forecast horizon and the merged chart data.
//
// Parsing a time cell into an instant is the parameter `instant`; numbers
// are exact reals, so RMSE is kept as its square, the mean squared error.

module Series {
  import opened Cells
  import opened Filters
  import opened Sums
  import opened Moments
  import opened Sorting
  import Stats

  /** One observation: `{ time, value }`. */
  datatype Point = Point(time: int, value: real)

  // ---------------------------------------------------------------- building the series

  /** The row filter `row[timeColumn] && row[targetColumn]`: both cells truthy, so a 0 is dropped. */
  predicate Usable(row: Row, timeCol: string, targetCol: string)
  {
    Truthy(Get(row, timeCol)) && Truthy(Get(row, targetCol))
  }

  function UsableIn(timeCol: string, targetCol: string): Row -> bool
  {
    row => Usable(row, timeCol, targetCol)
  }

  /** The rows the series is built from, in data order. */
  function UsableRows(rows: seq<Row>, timeCol: string, targetCol: string): (r: seq<Row>)
    ensures |r| <= |rows|
    ensures forall k :: 0 <= k < |r| ==> Usable(r[k], timeCol, targetCol)
  {
    Where(rows, UsableIn(timeCol, targetCol))
  }

  predicate NumericTargets(rows: seq<Row>, targetCol: string)
  {
    forall k :: 0 <= k < |rows| ==> Arithmetic(Get(rows[k], targetCol))
  }

  function ToPoint(row: Row, timeCol: string, targetCol: string, instant: Cell -> int): Point
    requires Arithmetic(Get(row, targetCol))
  {
    Point(instant(Get(row, timeCol)), Value(Get(row, targetCol)))
  }

  function ToPoints(rows: seq<Row>, timeCol: string, targetCol: string, instant: Cell -> int): (ps: seq<Point>)
    requires NumericTargets(rows, targetCol)
    ensures |ps| == |rows|
    ensures forall k :: 0 <= k < |rows| ==> ps[k] == ToPoint(rows[k], timeCol, targetCol, instant)
  {
    seq(|rows|, k requires 0 <= k < |rows| => ToPoint(rows[k], timeCol, targetCol, instant))
  }

  /** The sort key of `(a, b) => a.time - b.time`. */
  function Time(p: Point): real { p.time as real }

  /**
   * The usable rows as points in time order; none when a used target cell is
   * text, which the arithmetic below cannot take.
   */
  function Observations(rows: seq<Row>, timeCol: string, targetCol: string, instant: Cell -> int): Option<seq<Point>>
  {
    var used := UsableRows(rows, timeCol, targetCol);
    if NumericTargets(used, targetCol) then Some(SortBy(ToPoints(used, timeCol, targetCol, instant), Time))
    else None
  }

  function Values(s: seq<Point>): (r: seq<real>)
    ensures |r| == |s| && forall i :: 0 <= i < |s| ==> r[i] == s[i].value
  {
    seq(|s|, i requires 0 <= i < |s| => s[i].value)
  }

  // ---------------------------------------------------------------- the split

  /** `Math.floor(n * 0.8)`. */
  function TrainSize(n: nat): nat { (4 * n) / 5 }

  // ---------------------------------------------------------------- the least-squares line

  datatype Fit = Fit(slope: real, intercept: real)

  /** The pairs (i, y_i): the regression runs over the index, not the time. */
  function Indexed(ys: seq<real>): (ps: seq<Pair>)
    ensures |ps| == |ys| && forall i :: 0 <= i < |ys| ==> ps[i] == (i as real, ys[i])
  {
    seq(|ys|, i requires 0 <= i < |ys| => (i as real, ys[i]))
  }

  lemma IndexSpreadPositive(ys: seq<real>)
    requires |ys| >= 2
    ensures SpreadX(Indexed(ys)) > 0.0
  {
    SpreadXPositive(Indexed(ys), 0, 1);
  }

  /**
   * slope = (n·Σxy − Σx·Σy) / (n·Σx² − (Σx)²), intercept = (Σy − slope·Σx) / n.
   * With two or more indices the denominator is positive.
   */
  function FitLine(ys: seq<real>): Fit
    requires |ys| >= 2
  {
    var ps := Indexed(ys);
    IndexSpreadPositive(ys);
    var slope := Quotient(CrossDeviation(ps), SpreadX(ps));
    Fit(slope, Quotient(Sum(Ys(ps)) - Product(slope, Sum(Xs(ps))), |ys| as real))
  }

  // ---------------------------------------------------------------- test predictions

  /** `{ time, actual, predicted }` for one test point. */
  datatype Prediction = Prediction(time: int, actual: real, predicted: real)

  /** Prediction i belongs to test point t + i: its time and its actual value. */
  predicate OnTestPoints(series: seq<Point>, t: nat, ps: seq<Prediction>)
  {
    t <= |series| && |ps| == |series| - t &&
    forall i :: 0 <= i < |ps| ==> ps[i].time == series[t + i].time && ps[i].actual == series[t + i].value
  }

  /** The line fitted to the first `t` values, evaluated at index t + i for test point i. */
  function LinearPredictions(series: seq<Point>, t: nat): (r: seq<Prediction>)
    requires 2 <= t <= |series|
    ensures OnTestPoints(series, t, r)
  {
    var f := FitLine(Values(series[..t]));
    seq(|series| - t, i requires 0 <= i < |series| - t =>
      Prediction(series[t + i].time, series[t + i].value, Line(f.slope, f.intercept, (t + i) as real)))
  }

  /** The values at indices max(0, end − w) … end − 1 (`slice(Math.max(0, end - w), end)`). */
  function Window(vs: seq<real>, end: nat, w: nat): seq<real>
    requires end <= |vs|
  {
    vs[if end >= w then end - w else 0..end]
  }

  /** Test point i is predicted by the mean of the `w` values before it. */
  function MovingAveragePredictions(series: seq<Point>, t: nat, w: nat): (r: seq<Prediction>)
    requires 1 <= t <= |series| && w >= 1
    ensures OnTestPoints(series, t, r)
  {
    seq(|series| - t, i requires 0 <= i < |series| - t =>
      Prediction(series[t + i].time, series[t + i].value, Mean(Window(Values(series), t + i, w))))
  }

  const Alpha: real := 0.3

  /** One smoothing step `α·x + (1 − α)·level`. */
  function Smooth(level: real, x: real): real
  {
    Alpha * x + (1.0 - Alpha) * level
  }

  /** The level after smoothing in every value of `xs`, from the left. */
  function Level(level: real, xs: seq<real>): real
  {
    if xs == [] then level else Smooth(Level(level, xs[..|xs| - 1]), xs[|xs| - 1])
  }

  /**
   * Exponential smoothing from the last training value: test point i is
   * predicted by the level after test values 0 … i, its own value included.
   */
  function ExponentialPredictions(series: seq<Point>, t: nat): (r: seq<Prediction>)
    requires 1 <= t <= |series|
    ensures OnTestPoints(series, t, r)
  {
    seq(|series| - t, i requires 0 <= i < |series| - t =>
      Prediction(series[t + i].time, series[t + i].value, Level(series[t - 1].value, Values(series)[t..t + i + 1])))
  }

  /** The `forEach` loop that updates `lastSmoothed` and pushes each prediction. */
  method SmoothTestPoints(series: seq<Point>, t: nat) returns (preds: seq<Prediction>)
    requires 1 <= t <= |series|
    ensures preds == ExponentialPredictions(series, t)
  {
    var lastSmoothed := series[t - 1].value;
    preds := [];
    var vs := Values(series);
    for i := 0 to |series| - t
      invariant lastSmoothed == Level(series[t - 1].value, vs[t..t + i])
      invariant preds == ExponentialPredictions(series, t)[..i]
    {
      var point := series[t + i];
      assert vs[t..t + i + 1][..i] == vs[t..t + i];
      lastSmoothed := Smooth(lastSmoothed, point.value);
      preds := preds + [Prediction(point.time, point.value, lastSmoothed)];
    }
  }

  // ---------------------------------------------------------------- metrics

  /** The errors `actual - predicted`. */
  function Errors(ps: seq<Prediction>): (r: seq<real>)
    ensures |r| == |ps| && forall i :: 0 <= i < |ps| ==> r[i] == ps[i].actual - ps[i].predicted
  {
    seq(|ps|, i requires 0 <= i < |ps| => ps[i].actual - ps[i].predicted)
  }

  function AbsoluteErrors(ps: seq<Prediction>): (r: seq<real>)
    ensures |r| == |ps| && forall i :: 0 <= i < |ps| ==> r[i] == Abs(ps[i].actual - ps[i].predicted)
  {
    seq(|ps|, i requires 0 <= i < |ps| => Abs(ps[i].actual - ps[i].predicted))
  }

  function SquaredErrors(ps: seq<Prediction>): (r: seq<real>)
    ensures |r| == |ps| && forall i :: 0 <= i < |ps| ==> r[i] == Square(ps[i].actual - ps[i].predicted)
  {
    seq(|ps|, i requires 0 <= i < |ps| => Square(ps[i].actual - ps[i].predicted))
  }

  function Actuals(ps: seq<Prediction>): (r: seq<real>)
    ensures |r| == |ps| && forall i :: 0 <= i < |ps| ==> r[i] == ps[i].actual
  {
    seq(|ps|, i requires 0 <= i < |ps| => ps[i].actual)
  }

  /**
   * MAE, the mean squared error (RMSE is its square root) and R², which is
   * undefined when the actual values do not vary.
   */
  datatype Metrics = Metrics(mae: real, mse: real, rSquared: Option<real>)

  function MetricsOf(ps: seq<Prediction>): Metrics
    requires |ps| > 0
  {
    var n := |ps| as real;
    var residual := Sum(SquaredErrors(ps));
    var total := Sum(Stats.SquaredDeviations(Actuals(ps), Mean(Actuals(ps))));
    Metrics(Sum(AbsoluteErrors(ps)) / n, residual / n, if total == 0.0 then None else Some(1.0 - residual / total))
  }

  predicate Exact(ps: seq<Prediction>)
  {
    forall i :: 0 <= i < |ps| ==> ps[i].predicted == ps[i].actual
  }

  // ---------------------------------------------------------------- the forecast horizon

  /** The model a forecast continues. */
  datatype Model = LinearModel(fit: Fit) | MovingAverageModel(w: nat) | ExponentialModel

  predicate ValidModel(m: Model)
  {
    m.MovingAverageModel? ==> m.w >= 1
  }

  /** The gap between the last two instants: the step of the horizon. */
  function Step(series: seq<Point>): int
    requires |series| >= 2
  {
    series[|series| - 1].time - series[|series| - 2].time
  }

  /** The value the loop `lastSmoothed = α·s + (1 − α)·s` holds after `rounds` rounds. */
  function Held(level: real, rounds: nat): real
  {
    if rounds == 0 then level
    else
      var s := Held(level, rounds - 1);
      Alpha * s + (1.0 - Alpha) * s
  }

  /** The value forecast `i` periods after the last point. */
  function ForecastValue(series: seq<Point>, m: Model, i: nat): real
    requires |series| >= 1 && ValidModel(m)
  {
    match m
    case LinearModel(f) => Line(f.slope, f.intercept, (|series| + i - 1) as real)
    case MovingAverageModel(w) => Mean(Window(Values(series), |series|, w))
    case ExponentialModel => Held(series[|series| - 1].value, i)
  }

  /** `{ time, predicted }` for one future period. */
  datatype ForecastPoint = ForecastPoint(time: int, predicted: real)

  /** One point per period 1 … periods, a constant step apart. */
  function Horizon(series: seq<Point>, m: Model, periods: int): (r: seq<ForecastPoint>)
    requires |series| >= 2 && ValidModel(m)
    ensures |r| == if periods > 0 then periods else 0
  {
    var count := if periods > 0 then periods else 0;
    seq(count, k requires 0 <= k < count =>
      ForecastPoint(series[|series| - 1].time + (k + 1) * Step(series), ForecastValue(series, m, k + 1)))
  }

  /** The inner loop of the exponential forecast. */
  method HoldLevel(level: real, rounds: nat) returns (s: real)
    ensures s == Held(level, rounds)
  {
    s := level;
    for j := 0 to rounds
      invariant s == Held(level, j)
    {
      s := Alpha * s + (1.0 - Alpha) * s;
    }
  }

  /** The value the loop body computes for period `i`, by model. */
  method ForecastAt(series: seq<Point>, m: Model, i: nat) returns (v: real)
    requires |series| >= 1 && ValidModel(m)
    ensures v == ForecastValue(series, m, i)
  {
    match m {
      case LinearModel(f) =>
        v := Line(f.slope, f.intercept, (|series| + i - 1) as real);
      case MovingAverageModel(w) =>
        v := Mean(Window(Values(series), |series|, w));
      case ExponentialModel =>
        v := HoldLevel(series[|series| - 1].value, i);
    }
  }

  /** The `for` loop that pushes one forecast point per period. */
  method Forecast(series: seq<Point>, m: Model, periods: int) returns (forecast: seq<ForecastPoint>)
    requires |series| >= 2 && ValidModel(m)
    ensures forecast == Horizon(series, m, periods)
  {
    var lastTime := series[|series| - 1].time;
    var timeInterval := lastTime - series[|series| - 2].time;
    ghost var horizon := Horizon(series, m, periods);
    forecast := [];
    var i := 1;
    while i <= periods
      invariant 1 <= i && i - 1 <= |horizon|
      invariant forecast == horizon[..i - 1]
    {
      var forecastValue := ForecastAt(series, m, i);
      var point := ForecastPoint(lastTime + i * timeInterval, forecastValue);
      assert point == horizon[i - 1];
      PrefixStep(horizon, i - 1);
      forecast := forecast + [point];
      i := i + 1;
    }
    assert forecast == horizon[..|horizon|];
  }

  lemma PrefixStep<T>(s: seq<T>, k: nat)
    requires k < |s|
    ensures s[..k + 1] == s[..k] + [s[k]]
  {
  }

  // ---------------------------------------------------------------- the chart data

  /** One entry of the merged output: `{ time, actual }`, `{ time, actual, predicted }` or `{ time, forecast }`. */
  datatype ChartPoint = ChartPoint(time: int, actual: Option<real>, predicted: Option<real>, forecast: Option<real>)

  function ChartTime(c: ChartPoint): real { c.time as real }

  function Unsorted(series: seq<Point>, preds: seq<Prediction>, forecast: seq<ForecastPoint>): (r: seq<ChartPoint>)
    ensures |r| == |series| + |preds| + |forecast|
  {
    seq(|series|, i requires 0 <= i < |series| => ChartPoint(series[i].time, Some(series[i].value), None, None))
    + seq(|preds|, i requires 0 <= i < |preds| =>
        ChartPoint(preds[i].time, Some(preds[i].actual), Some(preds[i].predicted), None))
    + seq(|forecast|, i requires 0 <= i < |forecast| =>
        ChartPoint(forecast[i].time, None, None, Some(forecast[i].predicted)))
  }

  /** The history, the test predictions and the forecast, merged and sorted by time. */
  function Chart(series: seq<Point>, preds: seq<Prediction>, forecast: seq<ForecastPoint>): seq<ChartPoint>
  {
    SortBy(Unsorted(series, preds, forecast), ChartTime)
  }

  // ---------------------------------------------------------------- properties of the series

  /** A row yields a point exactly when its time and target cells are both truthy. */
  lemma UsableRowsExactly(rows: seq<Row>, timeCol: string, targetCol: string, row: Row)
    ensures row in UsableRows(rows, timeCol, targetCol) <==> row in rows && Usable(row, timeCol, targetCol)
  {
    WhereMembers(rows, UsableIn(timeCol, targetCol), row);
  }

  /**
   * Every usable row is used once, in data order: the used rows sit at
   * increasing positions of the data, no usable position is left out, and
   * there are as many as there are usable positions.
   */
  lemma UsableRowsInOrder(rows: seq<Row>, timeCol: string, targetCol: string) returns (idx: seq<int>)
    ensures Picks(UsableRows(rows, timeCol, targetCol), rows, idx)
    ensures forall i :: 0 <= i < |rows| && Usable(rows[i], timeCol, targetCol) ==> i in idx
    ensures |UsableRows(rows, timeCol, targetCol)| == |set i | 0 <= i < |rows| && Usable(rows[i], timeCol, targetCol)|
  {
    idx := WherePicks(rows, UsableIn(timeCol, targetCol));
    WhereCount(rows, UsableIn(timeCol, targetCol));
    assert Passing(rows, UsableIn(timeCol, targetCol)) == set i | 0 <= i < |rows| && Usable(rows[i], timeCol, targetCol);
  }

  /**
   * When every used target is a number or a boolean, the series holds one
   * point per usable row, ordered by time; otherwise there is no series.
   */
  lemma ObservationsOrdered(rows: seq<Row>, timeCol: string, targetCol: string, instant: Cell -> int)
    ensures var used := UsableRows(rows, timeCol, targetCol);
      var o := Observations(rows, timeCol, targetCol, instant);
      && (o.Some? <==> NumericTargets(used, targetCol))
      && (o.Some? ==>
            && SortedBy(o.value, Time)
            && multiset(o.value) == multiset(ToPoints(used, timeCol, targetCol, instant)))
  {
    var used := UsableRows(rows, timeCol, targetCol);
    if NumericTargets(used, targetCol) {
      SortBySorted(ToPoints(used, timeCol, targetCol, instant), Time);
    }
  }

  /**
   * From ten points on, the training part has at least eight points and the
   * test part at least two.
   */
  lemma SplitSizes(n: nat)
    requires n >= 10
    ensures 8 <= TrainSize(n) < n && n - TrainSize(n) >= 2
  {
  }

  lemma SlopeRecovered(a: real, u: real, cross: real)
    requires u != 0.0 && cross == Product(a, u)
    ensures Quotient(cross, u) == a
  {
  }

  lemma InterceptRecovered(a: real, b: real, slope: real, n: real, sx: real, sy: real)
    requires n > 0.0 && slope == a && sy == Combine(a, sx, 0.0, sx, 0.0, sx, Product(n, b))
    ensures Quotient(sy - Product(slope, sx), n) == b
  {
  }

  /** Values lying exactly on y = a·i + b give back slope a and intercept b. */
  lemma ExactLineFit(ys: seq<real>, a: real, b: real)
    requires |ys| >= 2
    requires forall i :: 0 <= i < |ys| ==> ys[i] == Line(a, b, i as real)
    ensures FitLine(ys) == Fit(a, b)
  {
    var ps := Indexed(ys);
    assert OnLine(ps, a, b);
    IndexSpreadPositive(ys);
    LineCrossDeviation(ps, a, b);
    LineYSum(ps, a, b);
    SlopeRecovered(a, SpreadX(ps), CrossDeviation(ps));
    var slope := Quotient(CrossDeviation(ps), SpreadX(ps));
    InterceptRecovered(a, b, slope, |ys| as real, Sum(Xs(ps)), Sum(Ys(ps)));
  }

  /** A series lying exactly on a line is predicted without error by the linear model. */
  lemma LinearPredictionsExact(series: seq<Point>, t: nat, a: real, b: real)
    requires 2 <= t <= |series|
    requires forall i :: 0 <= i < |series| ==> series[i].value == Line(a, b, i as real)
    ensures forall i :: 0 <= i < |series| - t ==>
      LinearPredictions(series, t)[i].predicted == LinearPredictions(series, t)[i].actual
  {
    ExactLineFit(Values(series[..t]), a, b);
  }

  /** With at least `w` values before it, a window holds exactly the `w` preceding values. */
  lemma WindowFull(vs: seq<real>, end: nat, w: nat)
    requires w <= end <= |vs|
    ensures |Window(vs, end, w)| == w
    ensures forall j :: 0 <= j < w ==> Window(vs, end, w)[j] == vs[end - w + j]
  {
  }

  /** A moving average lies between the smallest and the largest value of its window. */
  lemma MovingAverageBounds(series: seq<Point>, t: nat, w: nat, i: nat, lo: real, hi: real)
    requires 1 <= t <= |series| && w >= 1 && i < |series| - t
    requires var win := Window(Values(series), t + i, w); forall j :: 0 <= j < |win| ==> lo <= win[j] <= hi
    ensures lo <= MovingAveragePredictions(series, t, w)[i].predicted <= hi
  {
    MeanBounds(Window(Values(series), t + i, w), lo, hi);
  }

  /**
   * A moving average never looks ahead: the prediction for test point i
   * depends only on the values before it.
   */
  lemma MovingAverageNoLookahead(series: seq<Point>, other: seq<Point>, t: nat, w: nat, i: nat)
    requires 1 <= t <= |series| && w >= 1 && i < |series| - t && |other| == |series|
    requires forall k :: 0 <= k < t + i ==> other[k].value == series[k].value
    ensures MovingAveragePredictions(other, t, w)[i].predicted == MovingAveragePredictions(series, t, w)[i].predicted
  {
    assert Window(Values(other), t + i, w) == Window(Values(series), t + i, w);
  }

  /** A smoothed level stays within any bounds that hold the start level and every value. */
  lemma {:induction false} LevelBounds(level: real, xs: seq<real>, lo: real, hi: real)
    requires lo <= level <= hi
    requires forall j :: 0 <= j < |xs| ==> lo <= xs[j] <= hi
    ensures lo <= Level(level, xs) <= hi
  {
    if xs != [] {
      LevelBounds(level, xs[..|xs| - 1], lo, hi);
    }
  }

  /**
   * Exponential smoothing looks ahead: changing only the value of test point i
   * changes its prediction, since that value enters the level with weight α.
   */
  lemma ExponentialLooksAhead(series: seq<Point>, t: nat, i: nat, v: real)
    requires 1 <= t <= |series| && i < |series| - t && v != series[t + i].value
    ensures var other := series[t + i := Point(series[t + i].time, v)];
      ExponentialPredictions(other, t)[i].predicted != ExponentialPredictions(series, t)[i].predicted
  {
    var other := series[t + i := Point(series[t + i].time, v)];
    var xs, ys := Values(series)[t..t + i + 1], Values(other)[t..t + i + 1];
    assert xs[..i] == ys[..i];
    assert other[t - 1] == series[t - 1];
    var before := Level(series[t - 1].value, xs[..i]);
    assert Level(series[t - 1].value, xs) == Smooth(before, series[t + i].value);
    assert Level(other[t - 1].value, ys) == Smooth(before, v);
  }

  // ---------------------------------------------------------------- properties of the metrics

  lemma DivideByCount(x: real, n: real)
    requires n > 0.0
    ensures x / n >= 0.0 <==> x >= 0.0
    ensures x / n == 0.0 <==> x == 0.0
  {
    if x < 0.0 {
      assert x / n < 0.0;
    } else if x > 0.0 {
      assert x / n > 0.0;
    }
  }

  lemma {:induction false} ErrorSums(ps: seq<Prediction>)
    ensures Sum(AbsoluteErrors(ps)) >= 0.0 && Sum(SquaredErrors(ps)) >= 0.0
    ensures Sum(AbsoluteErrors(ps)) == 0.0 <==> Exact(ps)
    ensures Sum(SquaredErrors(ps)) == 0.0 <==> Exact(ps)
  {
    var ae, se := AbsoluteErrors(ps), SquaredErrors(ps);
    forall i | 0 <= i < |ps| ensures se[i] >= 0.0 {
      SquareNonNegative(ps[i].actual - ps[i].predicted);
    }
    SumNonNegative(ae);
    SumNonNegative(se);
    if Exact(ps) {
      SumAllZero(ae);
      SumAllZero(se);
    }
    if Sum(ae) == 0.0 {
      SumZeroOnlyIfAllZero(ae);
    }
    if Sum(se) == 0.0 {
      SumZeroOnlyIfAllZero(se);
      forall i | 0 <= i < |ps| ensures ps[i].predicted == ps[i].actual {
        ZeroSquare(ps[i].actual - ps[i].predicted);
      }
    }
  }

  /** Both error measures are never negative, and zero exactly when every prediction is exact. */
  lemma ZeroErrorIffExact(ps: seq<Prediction>)
    requires |ps| > 0
    ensures MetricsOf(ps).mae >= 0.0 && MetricsOf(ps).mse >= 0.0
    ensures MetricsOf(ps).mae == 0.0 <==> Exact(ps)
    ensures MetricsOf(ps).mse == 0.0 <==> Exact(ps)
  {
    ErrorSums(ps);
    DivideByCount(Sum(AbsoluteErrors(ps)), |ps| as real);
    DivideByCount(Sum(SquaredErrors(ps)), |ps| as real);
  }

  lemma UnitComplement(r: real, t: real)
    requires r >= 0.0 && t > 0.0
    ensures 1.0 - r / t <= 1.0
    ensures 1.0 - r / t == 1.0 <==> r == 0.0
  {
    DivideByCount(r, t);
  }

  /** R², when defined, is at most 1, and equals 1 exactly when every prediction is exact. */
  lemma RSquaredAtMostOne(ps: seq<Prediction>)
    requires |ps| > 0
    ensures var r2 := MetricsOf(ps).rSquared;
      r2.Some? ==> r2.value <= 1.0 && (r2.value == 1.0 <==> Exact(ps))
  {
    var xs := Actuals(ps);
    Stats.SquaresSumNonNegative(xs, Mean(xs));
    ErrorSums(ps);
    var total := Sum(Stats.SquaredDeviations(xs, Mean(xs)));
    if total != 0.0 {
      UnitComplement(Sum(SquaredErrors(ps)), total);
    }
  }

  lemma {:induction false} MeanOfConstant(xs: seq<real>, c: real)
    requires |xs| > 0 && forall i :: 0 <= i < |xs| ==> xs[i] == c
    ensures Mean(xs) == c
  {
    SumConstant(xs, c);
  }

  /** R² is undefined exactly when every actual value is the same. */
  lemma RSquaredUndefinedIffConstant(ps: seq<Prediction>)
    requires |ps| > 0
    ensures MetricsOf(ps).rSquared.None? <==> forall i :: 0 <= i < |ps| ==> ps[i].actual == ps[0].actual
  {
    var xs := Actuals(ps);
    var m := Mean(xs);
    var d := Stats.SquaredDeviations(xs, m);
    forall i | 0 <= i < |d| ensures d[i] >= 0.0 && (d[i] == 0.0 <==> xs[i] == m) {
      assert d[i] == Square(xs[i] - m);
      SquareNonNegative(xs[i] - m);
      if d[i] == 0.0 {
        ZeroSquare(xs[i] - m);
      }
    }
    if Sum(d) == 0.0 {
      SumZeroOnlyIfAllZero(d);
    }
    if forall i :: 0 <= i < |ps| ==> ps[i].actual == ps[0].actual {
      MeanOfConstant(xs, ps[0].actual);
      SumAllZero(d);
    }
  }

  // ---------------------------------------------------------------- properties of the forecast

  /** The exponential horizon loop never moves: α·s + (1 − α)·s is s. */
  lemma {:induction false} HeldIsLevel(level: real, rounds: nat)
    ensures Held(level, rounds) == level
  {
    if rounds > 0 {
      HeldIsLevel(level, rounds - 1);
    }
  }

  lemma NextMultiple(k: int, step: int)
    ensures (k + 2) * step == (k + 1) * step + step
  {
  }

  /** Forecast instants advance by the last observed step, starting one step after the last point. */
  lemma HorizonTimes(series: seq<Point>, m: Model, periods: int)
    requires |series| >= 2 && ValidModel(m)
    ensures var h := Horizon(series, m, periods);
      && (|h| > 0 ==> h[0].time == series[|series| - 1].time + Step(series))
      && forall k :: 0 <= k < |h| - 1 ==> h[k + 1].time == h[k].time + Step(series)
  {
    var h := Horizon(series, m, periods);
    forall k | 0 <= k < |h| - 1 ensures h[k + 1].time == h[k].time + Step(series) {
      NextMultiple(k, Step(series));
    }
  }

  /** The exponential forecast is the last observed value at every step. */
  lemma ExponentialForecastIsLast(series: seq<Point>, periods: int)
    requires |series| >= 2
    ensures var h := Horizon(series, ExponentialModel, periods);
      forall k :: 0 <= k < |h| ==> h[k].predicted == series[|series| - 1].value
  {
    var h := Horizon(series, ExponentialModel, periods);
    forall k | 0 <= k < |h| ensures h[k].predicted == series[|series| - 1].value {
      HeldIsLevel(series[|series| - 1].value, k + 1);
    }
  }

  /** The moving-average forecast is the mean of the last `w` values, the same at every step. */
  lemma MovingAverageForecastFlat(series: seq<Point>, w: nat, periods: int)
    requires 2 <= |series| && 1 <= w <= |series|
    ensures var h := Horizon(series, MovingAverageModel(w), periods);
      forall k :: 0 <= k < |h| ==> h[k].predicted == Mean(Values(series)[|series| - w..])
  {
    assert Window(Values(series), |series|, w) == Values(series)[|series| - w..];
  }

  lemma LineStep(a: real, b: real, x: real)
    ensures Line(a, b, x + 1.0) == Line(a, b, x) + a
  {
  }

  /** The linear forecast continues the fitted line: each step adds the slope. */
  lemma LinearForecastContinues(series: seq<Point>, f: Fit, periods: int)
    requires |series| >= 2
    ensures var h := Horizon(series, LinearModel(f), periods);
      && (forall k :: 0 <= k < |h| ==> h[k].predicted == Line(f.slope, f.intercept, (|series| + k) as real))
      && (forall k :: 0 <= k < |h| - 1 ==> h[k + 1].predicted == h[k].predicted + f.slope)
  {
    var h := Horizon(series, LinearModel(f), periods);
    forall k | 0 <= k < |h| ensures h[k].predicted == Line(f.slope, f.intercept, (|series| + k) as real) {
      assert h[k].predicted == ForecastValue(series, LinearModel(f), k + 1);
    }
    forall k | 0 <= k < |h| - 1 ensures h[k + 1].predicted == h[k].predicted + f.slope {
      LineStep(f.slope, f.intercept, (|series| + k) as real);
    }
  }

  /** The merged output is in time order and holds every entry of its three parts once. */
  lemma ChartOrdered(series: seq<Point>, preds: seq<Prediction>, forecast: seq<ForecastPoint>)
    ensures var c := Chart(series, preds, forecast);
      && SortedBy(c, ChartTime)
      && multiset(c) == multiset(Unsorted(series, preds, forecast))
      && |c| == |series| + |preds| + |forecast|
  {
    SortBySorted(Unsorted(series, preds, forecast), ChartTime);
  }
}
