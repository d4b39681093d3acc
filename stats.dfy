// Per-column descriptive statistics (`calculateDataStats`, src/pages/Index.tsx:275-316):
// presence, numeric/categorical classification, counts, the numeric summary
// with the interquartile-range outlier rule, and the five most frequent values
// of a categorical column.

module Stats {
  import opened Cells
  import opened Filters
  import opened Sums
  import opened Sorting
  import opened Quantiles
  import Moments

  datatype ColumnType = Numeric | Categorical

  /** The numeric part of a column's statistics; `variance` stands for the square of mathjs's `std`. */
  datatype NumericSummary = NumericSummary(
    min: real, max: real, mean: real, median: real, variance: real,
    q1: real, q3: real, outliers: nat)

  datatype TopValue = TopValue(value: Cell, count: nat)

  datatype ColumnStats = ColumnStats(
    kind: ColumnType,
    count: nat,
    missing: nat,
    unique: nat,
    summary: Option<NumericSummary>,
    topValues: seq<TopValue>)

  /** The fixed multiplier of the interquartile-range rule. */
  const Multiplier: real := 1.5

  // ---------------------------------------------------------------- filters

  /** The cells that are neither null nor undefined, in row order. */
  function PresentValues(cells: seq<Cell>): (vs: seq<Cell>)
    ensures |vs| <= |cells|
    ensures forall i :: 0 <= i < |vs| ==> Present(vs[i])
    ensures forall c :: c in vs <==> c in cells && Present(c)
  {
    Where(cells, Present)
  }

  /** The number of null or undefined cells. */
  function MissingCount(cells: seq<Cell>): nat
  {
    if cells == [] then 0
    else MissingCount(cells[..|cells| - 1]) + (if Present(cells[|cells| - 1]) then 0 else 1)
  }

  /** The numbers among the cells, in order (`typeof val === 'number'`). */
  function Numbers(vs: seq<Cell>): (xs: seq<real>)
    ensures |xs| <= |vs|
    ensures forall x :: x in xs <==> Num(x) in vs
  {
    if vs == [] then []
    else
      var init := vs[..|vs| - 1];
      var last := vs[|vs| - 1];
      assert vs == init + [last];
      var xs := Numbers(init);
      if last.Num? then xs + [last.x] else xs
  }

  // ---------------------------------------------------------------- numeric summary

  function SquaredDeviations(xs: seq<real>, m: real): (d: seq<real>)
    ensures |d| == |xs|
    ensures forall i :: 0 <= i < |xs| ==> d[i] == (xs[i] - m) * (xs[i] - m)
  {
    seq(|xs|, i requires 0 <= i < |xs| => (xs[i] - m) * (xs[i] - m))
  }

  /** mathjs's default (unbiased) variance; a single value has variance 0. */
  function Variance(xs: seq<real>): real
    requires |xs| > 0
  {
    if |xs| == 1 then 0.0 else Sum(SquaredDeviations(xs, Mean(xs))) / ((|xs| - 1) as real)
  }

  function LowerFence(q1: real, q3: real, k: real): real { q1 - k * (q3 - q1) }
  function UpperFence(q1: real, q3: real, k: real): real { q3 + k * (q3 - q1) }

  /** Strictly below `lo` or strictly above `hi`. */
  function Beyond(lo: real, hi: real): real -> bool
  {
    x => x < lo || x > hi
  }

  /** Within [lo, hi], bounds included. */
  function Within(lo: real, hi: real): real -> bool
  {
    x => lo <= x <= hi
  }

  /** The values strictly below `lo` or strictly above `hi`, in order. */
  function Outside(xs: seq<real>, lo: real, hi: real): (r: seq<real>)
    ensures |r| <= |xs|
    ensures forall i :: 0 <= i < |r| ==> r[i] < lo || r[i] > hi
  {
    Where(xs, Beyond(lo, hi))
  }

  /** The values within [lo, hi], bounds included, in order. */
  function Inside(xs: seq<real>, lo: real, hi: real): (r: seq<real>)
    ensures forall i :: 0 <= i < |r| ==> lo <= r[i] <= hi
  {
    Where(xs, Within(lo, hi))
  }

  function Summary(xs: seq<real>): NumericSummary
    requires |xs| > 0
  {
    var q1 := Quantile(xs, 1);
    var q3 := Quantile(xs, 3);
    NumericSummary(
      Min(xs), Max(xs), Mean(xs), Median(xs), Variance(xs), q1, q3,
      |Outside(xs, LowerFence(q1, q3, Multiplier), UpperFence(q1, q3, Multiplier))|)
  }

  // ---------------------------------------------------------------- top values

  /** The distinct values in order of first occurrence (the key order `_.countBy` builds). */
  function Distinct(vs: seq<Cell>): (d: seq<Cell>)
    ensures forall c :: c in d <==> c in vs
    ensures forall i, j :: 0 <= i < j < |d| ==> d[i] != d[j]
  {
    if vs == [] then []
    else
      var init := vs[..|vs| - 1];
      var last := vs[|vs| - 1];
      assert vs == init + [last];
      var d := Distinct(init);
      if last in d then d else d + [last]
  }

  /** The index of the first occurrence of `c`. */
  function FirstIndex(vs: seq<Cell>, c: Cell): (k: nat)
    requires c in vs
    ensures k < |vs| && vs[k] == c
    ensures forall i :: 0 <= i < k ==> vs[i] != c
  {
    var init := vs[..|vs| - 1];
    if c in init then FirstIndex(init, c) else |vs| - 1
  }

  /** One (value, count) entry per distinct value, in first-occurrence order. */
  function Tally(vs: seq<Cell>): (t: seq<TopValue>)
    ensures |t| == |Distinct(vs)|
    ensures forall i :: 0 <= i < |t| ==> t[i].value == Distinct(vs)[i] && t[i].count == multiset(vs)[t[i].value]
  {
    var d := Distinct(vs);
    seq(|d|, i requires 0 <= i < |d| => TopValue(d[i], multiset(vs)[d[i]]))
  }

  /** Sort key of the comparator `(a, b) => b[1] - a[1]`: descending count. */
  function ByCountDescending(e: TopValue): real { -(e.count as real) }

  function Min5(n: nat): nat { if n < 5 then n else 5 }

  function TopValues(vs: seq<Cell>): seq<TopValue>
  {
    var ranked := SortBy(Tally(vs), ByCountDescending);
    ranked[..Min5(|ranked|)]
  }

  // ---------------------------------------------------------------- one column

  function StatsOf(rows: seq<Row>, col: string): ColumnStats
  {
    var values := PresentValues(Column(rows, col));
    var numbers := Numbers(values);
    var kind := if |numbers| == |values| then Numeric else Categorical;
    ColumnStats(
      kind,
      |values|,
      |rows| - |values|,
      |set c | c in values|,
      if kind == Numeric && |numbers| > 0 then Some(Summary(numbers)) else None,
      if kind == Categorical then TopValues(values) else [])
  }

  /** The loop over the columns that fills the `stats` dictionary. */
  method CalculateDataStats(rows: seq<Row>, columns: seq<string>) returns (stats: map<string, ColumnStats>)
    ensures stats.Keys == set c | c in columns
    ensures forall c :: c in stats ==> stats[c] == StatsOf(rows, c)
  {
    stats := map[];
    for k := 0 to |columns|
      invariant stats.Keys == set c | c in columns[..k]
      invariant forall c :: c in stats ==> stats[c] == StatsOf(rows, c)
    {
      assert columns[..k + 1] == columns[..k] + [columns[k]];
      stats := stats[columns[k] := StatsOf(rows, columns[k])];
    }
    assert columns[..|columns|] == columns;
  }

  // ---------------------------------------------------------------- properties

  lemma {:induction false} PresentPlusMissing(cells: seq<Cell>)
    ensures |PresentValues(cells)| + MissingCount(cells) == |cells|
  {
    if cells != [] {
      PresentPlusMissing(cells[..|cells| - 1]);
    }
  }

  /** `count` is the number of present cells, `missing` the number of null or undefined ones. */
  lemma CountsPartitionRows(rows: seq<Row>, col: string)
    ensures StatsOf(rows, col).count + StatsOf(rows, col).missing == |rows|
    ensures StatsOf(rows, col).missing == MissingCount(Column(rows, col))
  {
    PresentPlusMissing(Column(rows, col));
  }

  lemma {:induction false} NumbersCoverAll(vs: seq<Cell>)
    ensures |Numbers(vs)| == |vs| <==> forall i :: 0 <= i < |vs| ==> vs[i].Num?
  {
    if vs != [] {
      var init := vs[..|vs| - 1];
      NumbersCoverAll(init);
      assert forall i :: 0 <= i < |init| ==> init[i] == vs[i];
    }
  }

  /** A column is numeric exactly when every present value in it is a number. */
  lemma NumericIffAllPresentNumbers(rows: seq<Row>, col: string)
    ensures StatsOf(rows, col).kind == Numeric <==>
      forall i :: 0 <= i < |rows| && Present(Get(rows[i], col)) ==> Get(rows[i], col).Num?
  {
    var cells := Column(rows, col);
    var values := PresentValues(cells);
    NumbersCoverAll(values);
    if StatsOf(rows, col).kind == Numeric {
      forall i | 0 <= i < |rows| && Present(Get(rows[i], col)) ensures Get(rows[i], col).Num? {
        assert cells[i] in values;
      }
    } else {
      var j :| 0 <= j < |values| && !values[j].Num?;
      assert values[j] in cells;
    }
  }

  /** `unique` counts the distinct present values, and there are never more of them than present values. */
  lemma UniqueCountsDistinctPresentValues(rows: seq<Row>, col: string)
    ensures StatsOf(rows, col).unique == |set i | 0 <= i < |rows| && Present(Get(rows[i], col)) :: Get(rows[i], col)|
    ensures StatsOf(rows, col).unique <= StatsOf(rows, col).count
  {
    var values := PresentValues(Column(rows, col));
    var s1 := set c | c in values;
    var s2 := set i | 0 <= i < |rows| && Present(Get(rows[i], col)) :: Get(rows[i], col);
    assert s1 == s2 by {
      forall c | c in s1 ensures c in s2 {
        var i :| 0 <= i < |rows| && Column(rows, col)[i] == c;
      }
    }
    CardinalityOfElements(values);
  }

  lemma {:induction false} CardinalityOfElements(vs: seq<Cell>)
    ensures |set c | c in vs| <= |vs|
  {
    if vs != [] {
      var init := vs[..|vs| - 1];
      CardinalityOfElements(init);
      assert (set c | c in vs) == (set c | c in init) + {vs[|vs| - 1]};
    }
  }

  /**
   * The present values are the column's present cells, each as often as it
   * occurs, in row order: they sit at increasing positions of the column, and
   * every present cell is one of them.
   */
  lemma PresentValuesKept(cells: seq<Cell>) returns (idx: seq<int>)
    ensures Picks(PresentValues(cells), cells, idx)
    ensures forall i :: 0 <= i < |cells| && Present(cells[i]) ==> i in idx
    ensures forall c :: multiset(PresentValues(cells))[c] == if Present(c) then multiset(cells)[c] else 0
  {
    idx := WherePicks(cells, Present);
    WhereMultiset(cells, Present);
  }

  predicate IsNumber(c: Cell) { c.Num? }

  /** The number a numeric cell holds. */
  function Magnitude(c: Cell): real { if c.Num? then c.x else 0.0 }

  lemma {:induction false} NumbersAreFilteredNumbers(vs: seq<Cell>)
    ensures Numbers(vs) == Project(Where(vs, IsNumber), Magnitude)
  {
    if vs != [] {
      var init := vs[..|vs| - 1];
      NumbersAreFilteredNumbers(init);
      WhereLast(vs, IsNumber);
      ProjectLast(Where(init, IsNumber), vs[|vs| - 1], Magnitude);
    }
  }

  lemma {:induction false} NumbersMultiset(vs: seq<Cell>)
    ensures forall x :: multiset(Numbers(vs))[x] == multiset(vs)[Num(x)]
  {
    if vs != [] {
      var init := vs[..|vs| - 1];
      NumbersMultiset(init);
      assert vs == init + [vs[|vs| - 1]];
    }
  }

  /**
   * The numeric values are the numbers of the numeric cells, each as often
   * as it occurs, in order: they are read at increasing positions, every
   * numeric cell is one of them, and each number occurs as often as its cell.
   */
  lemma NumbersKept(vs: seq<Cell>) returns (idx: seq<int>)
    ensures |idx| == |Numbers(vs)|
    ensures forall k :: 0 <= k < |idx| ==> 0 <= idx[k] < |vs| && vs[idx[k]] == Num(Numbers(vs)[k])
    ensures forall k, l :: 0 <= k < l < |idx| ==> idx[k] < idx[l]
    ensures forall i :: 0 <= i < |vs| && vs[i].Num? ==> i in idx
    ensures forall x :: multiset(Numbers(vs))[x] == multiset(vs)[Num(x)]
  {
    NumbersAreFilteredNumbers(vs);
    NumbersMultiset(vs);
    idx := WherePicks(vs, IsNumber);
    var nums := Where(vs, IsNumber);
    forall k | 0 <= k < |idx| ensures vs[idx[k]] == Num(Numbers(vs)[k]) {
      assert nums[k] == vs[idx[k]] && nums[k].Num?;
    }
  }

  /**
   * The numbers summarised for a column are the numbers in its cells, one
   * per numeric row, in row order: the mean, median, quartiles and outliers
   * see every number with its repetitions.
   */
  lemma SummaryInputs(rows: seq<Row>, col: string) returns (idx: seq<int>)
    ensures var xs := Numbers(PresentValues(Column(rows, col)));
      && |idx| == |xs|
      && (forall k :: 0 <= k < |idx| ==> 0 <= idx[k] < |rows| && Get(rows[idx[k]], col) == Num(xs[k]))
      && (forall k, l :: 0 <= k < l < |idx| ==> idx[k] < idx[l])
      && (forall i :: 0 <= i < |rows| && Get(rows[i], col).Num? ==> i in idx)
  {
    var cells := Column(rows, col);
    var values := PresentValues(cells);
    var a := PresentValuesKept(cells);
    var b := NumbersKept(values);
    idx := NumbersOfPresent(cells, values, Numbers(values), a, b);
  }

  /** The step of `SummaryInputs` on plain sequences: numbers picked from the present cells. */
  lemma NumbersOfPresent(cells: seq<Cell>, values: seq<Cell>, xs: seq<real>, a: seq<int>, b: seq<int>)
    returns (idx: seq<int>)
    requires Picks(values, cells, a)
    requires forall i :: 0 <= i < |cells| && Present(cells[i]) ==> i in a
    requires |b| == |xs|
    requires forall k :: 0 <= k < |b| ==> 0 <= b[k] < |values| && values[b[k]] == Num(xs[k])
    requires forall k, l :: 0 <= k < l < |b| ==> b[k] < b[l]
    requires forall j :: 0 <= j < |values| && values[j].Num? ==> j in b
    ensures |idx| == |xs|
    ensures forall k :: 0 <= k < |idx| ==> 0 <= idx[k] < |cells| && cells[idx[k]] == Num(xs[k])
    ensures forall k, l :: 0 <= k < l < |idx| ==> idx[k] < idx[l]
    ensures forall i :: 0 <= i < |cells| && cells[i].Num? ==> i in idx
  {
    var present := i => 0 <= i < |cells| && Present(cells[i]);
    var numeric := i => 0 <= i < |cells| && cells[i].Num?;
    forall j | 0 <= j < |a| && numeric(a[j]) ensures j in b {
      assert values[j] == cells[a[j]];
    }
    idx := ComposeSelections(|cells|, a, b, present, numeric);
    forall i | 0 <= i < |cells| && cells[i].Num? ensures i in idx {
      assert present(i) && numeric(i);
    }
  }

  /**
   * The outlier count is the number of positions whose value lies strictly
   * outside the fences, and each such value is counted as often as it occurs.
   */
  lemma OutlierCount(xs: seq<real>, lo: real, hi: real)
    ensures |Outside(xs, lo, hi)| == |set i | 0 <= i < |xs| && (xs[i] < lo || xs[i] > hi)|
    ensures forall x :: multiset(Outside(xs, lo, hi))[x] == if x < lo || x > hi then multiset(xs)[x] else 0
  {
    WhereCount(xs, Beyond(lo, hi));
    WhereMultiset(xs, Beyond(lo, hi));
    assert Passing(xs, Beyond(lo, hi)) == set i | 0 <= i < |xs| && (xs[i] < lo || xs[i] > hi);
  }

  /** Every value is either an outlier or within the fences: the two filters split the values. */
  lemma OutsideInsidePartition(xs: seq<real>, lo: real, hi: real)
    ensures multiset(Outside(xs, lo, hi)) + multiset(Inside(xs, lo, hi)) == multiset(xs)
    ensures |Outside(xs, lo, hi)| + |Inside(xs, lo, hi)| == |xs|
  {
    WhereMultiset(xs, Beyond(lo, hi));
    WhereMultiset(xs, Within(lo, hi));
    assert multiset(Outside(xs, lo, hi)) + multiset(Inside(xs, lo, hi)) == multiset(xs);
  }

  /** Widening the fences never adds outliers. */
  lemma {:induction false} OutsideShrinks(xs: seq<real>, lo: real, hi: real, lo': real, hi': real)
    requires lo' <= lo && hi <= hi'
    ensures |Outside(xs, lo', hi')| <= |Outside(xs, lo, hi)|
  {
    if xs != [] {
      OutsideShrinks(xs[..|xs| - 1], lo, hi, lo', hi');
    }
  }

  /**
   * The outlier count is non-increasing in the multiplier of the rule: the
   * smaller the multiplier, the more values are flagged.
   */
  lemma OutlierCountAntitoneInMultiplier(xs: seq<real>, k: real, k': real)
    requires |xs| > 0
    requires 0.0 <= k <= k'
    ensures
      var q1, q3 := Quantile(xs, 1), Quantile(xs, 3);
      |Outside(xs, LowerFence(q1, q3, k'), UpperFence(q1, q3, k'))|
        <= |Outside(xs, LowerFence(q1, q3, k), UpperFence(q1, q3, k))|
  {
    var q1, q3 := Quantile(xs, 1), Quantile(xs, 3);
    QuantileMonotone(xs, 1, 3);
    FencesWiden(q1, q3, k, k');
    OutsideShrinks(xs, LowerFence(q1, q3, k), UpperFence(q1, q3, k), LowerFence(q1, q3, k'), UpperFence(q1, q3, k'));
  }

  lemma FencesWiden(q1: real, q3: real, k: real, k': real)
    requires q1 <= q3 && 0.0 <= k <= k'
    ensures LowerFence(q1, q3, k') <= LowerFence(q1, q3, k)
    ensures UpperFence(q1, q3, k) <= UpperFence(q1, q3, k')
  {
    assert (k' - k) * (q3 - q1) >= 0.0;
  }

  /** The fences always enclose the quartiles, so the interquartile values are never outliers. */
  lemma FencesEncloseQuartiles(xs: seq<real>)
    requires |xs| > 0
    ensures
      var s := Summary(xs);
      LowerFence(s.q1, s.q3, Multiplier) <= s.q1 <= s.median <= s.q3 <= UpperFence(s.q1, s.q3, Multiplier)
  {
    FiveNumberOrder(xs);
  }

  /** The median of a column's numeric summary lies within its outlier fences. */
  lemma MedianWithinFences(rows: seq<Row>, col: string)
    requires StatsOf(rows, col).summary.Some?
    ensures var m := StatsOf(rows, col).summary.value;
      LowerFence(m.q1, m.q3, Multiplier) <= m.median <= UpperFence(m.q1, m.q3, Multiplier)
  {
    var xs := Numbers(PresentValues(Column(rows, col)));
    assert StatsOf(rows, col).summary.value == Summary(xs);
    FencesEncloseQuartiles(xs);
  }

  lemma {:induction false} SquaresSumNonNegative(xs: seq<real>, m: real)
    ensures Sum(SquaredDeviations(xs, m)) >= 0.0
  {
    var d := SquaredDeviations(xs, m);
    forall i | 0 <= i < |d| ensures d[i] >= 0.0 {
      Moments.SquareNonNegative(xs[i] - m);
      assert d[i] == Moments.Square(xs[i] - m);
    }
    SumNonNegative(d);
  }

  /** The numeric summary of a column is internally ordered. */
  lemma SummaryOrdered(xs: seq<real>)
    requires |xs| > 0
    ensures
      var s := Summary(xs);
      && s.min <= s.q1 <= s.median <= s.q3 <= s.max
      && s.min <= s.mean <= s.max
      && s.variance >= 0.0
      && s.outliers <= |xs|
  {
    var s := Summary(xs);
    assert s.min == Min(xs) && s.max == Max(xs) && s.mean == Mean(xs) && s.median == Median(xs);
    assert s.q1 == Quantile(xs, 1) && s.q3 == Quantile(xs, 3) && s.variance == Variance(xs);
    FiveNumberOrder(xs);
    MeanBounds(xs, Min(xs), Max(xs));
    VarianceNonNegative(xs);
  }

  lemma VarianceNonNegative(xs: seq<real>)
    requires |xs| > 0
    ensures Variance(xs) >= 0.0
  {
    if |xs| > 1 {
      SquaresSumNonNegative(xs, Mean(xs));
    }
  }

  // ---------------------------------------------------------------- top-value properties

  lemma {:induction false} DistinctFirstOccurrenceOrder(vs: seq<Cell>)
    ensures forall i, j :: 0 <= i < j < |Distinct(vs)| ==>
      FirstIndex(vs, Distinct(vs)[i]) < FirstIndex(vs, Distinct(vs)[j])
  {
    if vs != [] {
      var init := vs[..|vs| - 1];
      var last := vs[|vs| - 1];
      DistinctFirstOccurrenceOrder(init);
      var d := Distinct(init);
      forall c | c in d ensures FirstIndex(vs, c) == FirstIndex(init, c) {
      }
      if last !in d {
        assert Distinct(vs) == d + [last];
        forall i | 0 <= i < |d| ensures FirstIndex(vs, d[i]) < FirstIndex(vs, last) {
          assert d[i] in d;
        }
      }
    }
  }

  function FirstIndexOf(vs: seq<Cell>): TopValue -> int
  {
    (e: TopValue) => if e.value in vs then FirstIndex(vs, e.value) else |vs|
  }

  /**
   * Every entry of the top list is a present value with its exact number of
   * occurrences; there are at most five entries (fewer only when there are
   * fewer distinct values); counts never increase along the list; equal
   * counts keep first-occurrence order.
   */
  lemma TopValuesWellFormed(vs: seq<Cell>)
    ensures
      var top := TopValues(vs);
      && |top| == Min5(|Distinct(vs)|)
      && (forall i :: 0 <= i < |top| ==> top[i].value in vs && top[i].count == multiset(vs)[top[i].value])
      && (forall i, j :: 0 <= i < j < |top| ==>
            top[i].count > top[j].count
            || (top[i].count == top[j].count && FirstIndex(vs, top[i].value) < FirstIndex(vs, top[j].value)))
  {
    TopValuesCounts(vs);
    TopValuesOrdered(vs);
  }

  lemma TopValuesCounts(vs: seq<Cell>)
    ensures var top := TopValues(vs);
      forall i :: 0 <= i < |top| ==> top[i].value in vs && top[i].count == multiset(vs)[top[i].value]
  {
    var t := Tally(vs);
    var ranked := SortBy(t, ByCountDescending);
    var top := TopValues(vs);
    forall i | 0 <= i < |top| ensures top[i].value in vs && top[i].count == multiset(vs)[top[i].value] {
      assert top[i] == ranked[i];
      SortByMembers(t, ByCountDescending, ranked[i]);
      var k :| 0 <= k < |t| && t[k] == ranked[i];
      assert t[k].value in Distinct(vs);
    }
  }

  lemma TopValuesOrdered(vs: seq<Cell>)
    ensures var top := TopValues(vs);
      forall i, j :: 0 <= i < j < |top| ==>
        top[i].count > top[j].count
        || (top[i].count == top[j].count && FirstIndexOf(vs)(top[i]) < FirstIndexOf(vs)(top[j]))
  {
    var t := Tally(vs);
    DistinctFirstOccurrenceOrder(vs);
    var pos := FirstIndexOf(vs);
    forall i, j | 0 <= i < j < |t| ensures pos(t[i]) < pos(t[j]) {
      assert t[i].value in Distinct(vs) && t[j].value in Distinct(vs);
    }
    SortByStable(t, ByCountDescending, pos);
  }

  /** No value left off the list occurs more often than the last listed one. */
  lemma TopValuesAreMostFrequent(vs: seq<Cell>, c: Cell)
    requires c in vs
    ensures |TopValues(vs)| > 0
    ensures TopValues(vs)[0].count >= multiset(vs)[c]
    ensures (exists i :: 0 <= i < |TopValues(vs)| && TopValues(vs)[i].value == c)
      || multiset(vs)[c] <= TopValues(vs)[|TopValues(vs)| - 1].count
  {
    var t := Tally(vs);
    var ranked := SortBy(t, ByCountDescending);
    var top := TopValues(vs);
    SortBySorted(t, ByCountDescending);
    var d := Distinct(vs);
    var k :| 0 <= k < |d| && d[k] == c;
    assert t[k] == TopValue(c, multiset(vs)[c]);
    SortByMembers(t, ByCountDescending, t[k]);
    var r :| 0 <= r < |ranked| && ranked[r] == t[k];
    assert |top| > 0;
    assert ByCountDescending(ranked[0]) <= ByCountDescending(ranked[r]);
    if r >= |top| {
      assert ByCountDescending(ranked[|top| - 1]) <= ByCountDescending(ranked[r]);
    } else {
      assert top[r].value == c;
    }
  }
}
