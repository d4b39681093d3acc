// Cleaning one column (`cleanData`, src/pages/Index.tsx:374-481).
//
// Cleaning either overwrites the selected cells of the column with a
// replacement value, working in place on a copy of the array of rows, or drops
// rows through a chain of filters. Which cells are selected depends on the
// target (missing values, outliers or both); outliers are judged by the
// interquartile fences of the statistics the caller already holds.

module Cleaning {
  import opened Cells
  import opened Filters
  import opened Stats

  /** How selected cells are treated; `Other` is any unlisted choice, which behaves as the mean. */
  datatype Method = MeanFill | MedianFill | ZeroFill | RemoveRows | Other

  datatype Target = Missing | Outliers | Both

  datatype Outcome =
    | NoColumnSelected       // the error message, nothing changes
    | NoStatistics           // no statistics for the column: silently nothing changes
    | Cleaned(rows: seq<Row>)

  /** The bounds (lower, upper) of a numeric column; none when it has no numeric summary. */
  function Bounds(s: ColumnStats): Option<(real, real)>
  {
    if s.kind == Numeric && s.summary.Some? then
      var q1, q3 := s.summary.value.q1, s.summary.value.q3;
      Some((LowerFence(q1, q3, Multiplier), UpperFence(q1, q3, Multiplier)))
    else None
  }

  /**
   * A number strictly outside the bounds. Without a summary the bounds are
   * NaN in the source and no comparison with them succeeds.
   */
  predicate IsOutlier(c: Cell, bounds: Option<(real, real)>)
  {
    c.Num? && bounds.Some? && (c.x < bounds.value.0 || c.x > bounds.value.1)
  }

  /** The cells the target selects for replacement. */
  predicate Selected(target: Target, c: Cell, bounds: Option<(real, real)>)
  {
    match target
    case Missing => Blank(c)
    case Outliers => IsOutlier(c, bounds)
    case Both => Blank(c) || IsOutlier(c, bounds)
  }

  /** `stats.mean` or `stats.median`, which are undefined when the column has no numbers. */
  function Replacement(m: Method, s: ColumnStats): Cell
  {
    match m
    case ZeroFill => Num(0.0)
    case MedianFill => if s.summary.Some? then Num(s.summary.value.median) else Undef
    case _ => if s.summary.Some? then Num(s.summary.value.mean) else Undef
  }

  /** The most frequent value of a categorical column, or the empty string. */
  function MostCommon(s: ColumnStats): Cell
  {
    if |s.topValues| > 0 then s.topValues[0].value else Text("")
  }

  /**
   * A categorical column replaces only missing cells, with its most common
   * value: that is the numeric rule without bounds.
   */
  function FillBounds(s: ColumnStats): Option<(real, real)>
  {
    if s.kind == Numeric then Bounds(s) else None
  }

  function FillValue(m: Method, s: ColumnStats): Cell
  {
    if s.kind == Numeric then Replacement(m, s) else MostCommon(s)
  }

  // ---------------------------------------------------------------- replacing

  function FillRow(row: Row, col: string, target: Target, bounds: Option<(real, real)>, value: Cell): Row
  {
    if Selected(target, Get(row, col), bounds) then row[col := value] else row
  }

  /** Every row with its selected cell overwritten. */
  function Filled(rows: seq<Row>, col: string, target: Target, bounds: Option<(real, real)>, value: Cell): (r: seq<Row>)
    ensures |r| == |rows|
  {
    seq(|rows|, i requires 0 <= i < |rows| => FillRow(rows[i], col, target, bounds, value))
  }

  /** The `forEach` loop that overwrites cells of the copied rows in place. */
  method ReplaceCells(rows: array<Row>, col: string, target: Target, bounds: Option<(real, real)>, value: Cell)
    modifies rows
    ensures rows[..] == Filled(old(rows[..]), col, target, bounds, value)
  {
    ghost var original := rows[..];
    for i := 0 to rows.Length
      invariant rows[..i] == Filled(original, col, target, bounds, value)[..i]
      invariant rows[i..] == original[i..]
    {
      assert rows[i] == original[i];
      if Selected(target, Get(rows[i], col), bounds) {
        rows[i] := rows[i][col := value];
      }
    }
  }

  // ---------------------------------------------------------------- removing

  /** The row test of a cell test: the row's cell in `col` passes `keep`. */
  function CellPasses(col: string, keep: Cell -> bool): Row -> bool
  {
    row => keep(Get(row, col))
  }

  /** The rows whose cell in `col` passes `keep`, in their original order. */
  function Keep(rows: seq<Row>, col: string, keep: Cell -> bool): (r: seq<Row>)
    ensures |r| <= |rows|
    ensures forall k :: 0 <= k < |r| ==> keep(Get(r[k], col))
    ensures forall i :: 0 <= i < |rows| && keep(Get(rows[i], col)) ==> rows[i] in r
  {
    assert forall i :: 0 <= i < |rows| ==> CellPasses(col, keep)(rows[i]) == keep(Get(rows[i], col));
    Where(rows, CellPasses(col, keep))
  }

  /** The test of the missing-value filter. */
  function NotBlank(): Cell -> bool
  {
    c => !Blank(c)
  }

  /** The test of the outlier filter. */
  function InBounds(bounds: Option<(real, real)>): Cell -> bool
  {
    c => !IsOutlier(c, bounds)
  }

  /** The filter chain of the `remove` choice. */
  function Removed(rows: seq<Row>, col: string, target: Target, s: ColumnStats): seq<Row>
  {
    var afterMissing := if target == Missing || target == Both then Keep(rows, col, NotBlank()) else rows;
    if s.kind == Numeric && (target == Outliers || target == Both) then
      Keep(afterMissing, col, InBounds(Bounds(s)))
    else afterMissing
  }

  // ---------------------------------------------------------------- the operation

  /** The rows after cleaning with the column's statistics `s`. */
  function CleanedRows(rows: seq<Row>, col: string, m: Method, target: Target, s: ColumnStats): seq<Row>
  {
    if m == RemoveRows then Removed(rows, col, target, s)
    else Filled(rows, col, target, FillBounds(s), FillValue(m, s))
  }

  method CleanData(data: seq<Row>, col: string, m: Method, target: Target, stats: map<string, ColumnStats>)
    returns (outcome: Outcome)
    ensures col == "" ==> outcome == NoColumnSelected
    ensures col != "" && col !in stats ==> outcome == NoStatistics
    ensures col != "" && col in stats ==> outcome == Cleaned(CleanedRows(data, col, m, target, stats[col]))
  {
    if col == "" {
      return NoColumnSelected;
    }
    if col !in stats {
      return NoStatistics;
    }
    var s := stats[col];
    if m == RemoveRows {
      return Cleaned(Removed(data, col, target, s));
    }
    var copy := new Row[|data|](i requires 0 <= i < |data| => data[i]);
    assert copy[..] == data;
    ReplaceCells(copy, col, target, FillBounds(s), FillValue(m, s));
    return Cleaned(copy[..]);
  }

  // ---------------------------------------------------------------- properties of replacing

  /**
   * Replacing writes only the cleaned column: the row count is unchanged,
   * every other cell keeps its value, and a cell of the column becomes the
   * replacement exactly when the target selects it.
   */
  lemma FilledWritesOnlyColumn(rows: seq<Row>, col: string, target: Target, bounds: Option<(real, real)>, value: Cell)
    ensures var r := Filled(rows, col, target, bounds, value);
      && |r| == |rows|
      && (forall i, c :: 0 <= i < |rows| && c != col ==> Get(r[i], c) == Get(rows[i], c))
      && (forall i :: 0 <= i < |rows| ==>
            Get(r[i], col) == if Selected(target, Get(rows[i], col), bounds) then value else Get(rows[i], col))
  {
  }

  /** Filling missing cells with a value that is not itself missing leaves none missing. */
  lemma FillLeavesNoMissing(rows: seq<Row>, col: string, target: Target, bounds: Option<(real, real)>, value: Cell)
    requires target != Outliers && !Blank(value)
    ensures forall i :: 0 <= i < |rows| ==> !Blank(Get(Filled(rows, col, target, bounds, value)[i], col))
  {
    FilledWritesOnlyColumn(rows, col, target, bounds, value);
  }

  /** A categorical column never has a cell replaced because of an outlier test. */
  lemma CategoricalFillsOnlyMissing(rows: seq<Row>, col: string, m: Method, target: Target, s: ColumnStats)
    requires s.kind == Categorical && m != RemoveRows
    ensures var r := CleanedRows(rows, col, m, target, s);
      forall i :: 0 <= i < |rows| ==>
        Get(r[i], col) == if target != Outliers && Blank(Get(rows[i], col)) then MostCommon(s) else Get(rows[i], col)
  {
    FilledWritesOnlyColumn(rows, col, target, None, MostCommon(s));
  }

  /** Filling is idempotent when the replacement is neither missing nor an outlier. */
  lemma FillIdempotent(rows: seq<Row>, col: string, target: Target, bounds: Option<(real, real)>, value: Cell)
    requires !Selected(target, value, bounds)
    ensures var once := Filled(rows, col, target, bounds, value);
      Filled(once, col, target, bounds, value) == once
  {
    var once := Filled(rows, col, target, bounds, value);
    FilledWritesOnlyColumn(rows, col, target, bounds, value);
    forall i | 0 <= i < |once|
      ensures FillRow(once[i], col, target, bounds, value) == once[i]
    {
      assert Get(once[i], col) == value || !Selected(target, Get(once[i], col), bounds);
    }
  }

  /**
   * Replacing outliers of a numeric column by its median removes them for
   * good: the median lies between the quartiles, so inside the fences.
   */
  lemma MedianFillClearsOutliers(rows: seq<Row>, prior: seq<Row>, col: string, target: Target)
    requires StatsOf(prior, col).kind == Numeric && StatsOf(prior, col).summary.Some?
    ensures var s := StatsOf(prior, col);
      var r := CleanedRows(rows, col, MedianFill, target, s);
      target != Missing ==> forall i :: 0 <= i < |r| ==> !IsOutlier(Get(r[i], col), Bounds(s))
  {
    var s := StatsOf(prior, col);
    MedianInsideBounds(prior, col);
    if target != Missing {
      InlierFillClearsOutliers(rows, col, target, Bounds(s), Replacement(MedianFill, s));
    }
  }

  /** Replacing outliers by a value that is not one leaves no outlier behind. */
  lemma InlierFillClearsOutliers(rows: seq<Row>, col: string, target: Target, bounds: Option<(real, real)>, value: Cell)
    requires target != Missing && !IsOutlier(value, bounds)
    ensures var r := Filled(rows, col, target, bounds, value);
      forall i :: 0 <= i < |r| ==> !IsOutlier(Get(r[i], col), bounds)
  {
    FilledWritesOnlyColumn(rows, col, target, bounds, value);
  }

  /** The median of a numeric column is not an outlier of that column. */
  lemma MedianInsideBounds(prior: seq<Row>, col: string)
    requires StatsOf(prior, col).kind == Numeric && StatsOf(prior, col).summary.Some?
    ensures var s := StatsOf(prior, col);
      Replacement(MedianFill, s).Num? && !IsOutlier(Replacement(MedianFill, s), Bounds(s))
  {
    var s := StatsOf(prior, col);
    MedianWithinFences(prior, col);
    MedianInsideOwnBounds(s);
  }

  lemma MedianInsideOwnBounds(s: ColumnStats)
    requires s.kind == Numeric && s.summary.Some?
    requires LowerFence(s.summary.value.q1, s.summary.value.q3, Multiplier) <= s.summary.value.median
    requires s.summary.value.median <= UpperFence(s.summary.value.q1, s.summary.value.q3, Multiplier)
    ensures Replacement(MedianFill, s).Num? && !IsOutlier(Replacement(MedianFill, s), Bounds(s))
  {
  }

  // ---------------------------------------------------------------- properties of removing

  /** Keep drops exactly the rows that fail the test: the two parts add up to the input. */
  lemma {:induction false} KeepCount(rows: seq<Row>, col: string, keep: Cell -> bool)
    ensures |Keep(rows, col, keep)| + |Keep(rows, col, c => !keep(c))| == |rows|
  {
    if rows != [] {
      KeepCount(rows[..|rows| - 1], col, keep);
      WhereLast(rows, CellPasses(col, keep));
      WhereLast(rows, CellPasses(col, c => !keep(c)));
    }
  }

  /**
   * Keep is an order-preserving subsequence: its rows sit at increasing
   * positions of the input, and every input row that passes the test is one
   * of them.
   */
  lemma KeepSubsequence(rows: seq<Row>, col: string, keep: Cell -> bool) returns (idx: seq<int>)
    ensures Picks(Keep(rows, col, keep), rows, idx)
    ensures forall i :: 0 <= i < |rows| && keep(Get(rows[i], col)) ==> i in idx
  {
    idx := WherePicks(rows, CellPasses(col, keep));
  }

  /** A row whose cell in the column is `c` passes every filter the target applies. */
  predicate Survives(c: Cell, target: Target, s: ColumnStats)
  {
    && (target != Outliers ==> !Blank(c))
    && (s.kind == Numeric && target != Missing ==> !IsOutlier(c, Bounds(s)))
  }

  /**
   * Removing keeps an order-preserving subsequence of the rows, and every row
   * that passes the filters the target applies is one of them.
   */
  lemma RemovedIsSubsequence(rows: seq<Row>, col: string, target: Target, s: ColumnStats) returns (idx: seq<int>)
    ensures Picks(Removed(rows, col, target, s), rows, idx)
    ensures forall i :: 0 <= i < |rows| && Survives(Get(rows[i], col), target, s) ==> i in idx
  {
    var missing, outliers := target != Outliers, s.kind == Numeric && target != Missing;
    var notBlank, inBounds := CellPasses(col, NotBlank()), CellPasses(col, InBounds(Bounds(s)));
    assert Removed(rows, col, target, s) == WhereIf(outliers, WhereIf(missing, rows, notBlank), inBounds);
    idx := WhereIfTwicePicks(rows, missing, notBlank, outliers, inBounds);
    forall i | 0 <= i < |rows| && Survives(Get(rows[i], col), target, s) ensures i in idx {
      assert missing ==> notBlank(rows[i]);
      assert outliers ==> inBounds(rows[i]);
    }
  }

  /** Unless only outliers are removed, no kept row has a missing cell in the column. */
  lemma RemovedHasNoBlank(rows: seq<Row>, col: string, target: Target, s: ColumnStats)
    requires target != Outliers
    ensures var r := Removed(rows, col, target, s); forall k :: 0 <= k < |r| ==> !Blank(Get(r[k], col))
  {
    var afterMissing := Keep(rows, col, NotBlank());
    if s.kind == Numeric && target == Both {
      var inBounds := InBounds(Bounds(s));
      var r := Keep(afterMissing, col, inBounds);
      var second := KeepSubsequence(afterMissing, col, inBounds);
      forall k | 0 <= k < |r| ensures !Blank(Get(r[k], col)) {
        assert r[k] == afterMissing[second[k]];
      }
    }
  }

  /**
   * For a numeric column, unless only missing cells are removed, no kept row
   * holds a number outside the bounds of the statistics computed before removal.
   */
  lemma RemovedHasNoOutlier(rows: seq<Row>, col: string, target: Target, s: ColumnStats)
    requires s.kind == Numeric && target != Missing
    ensures var r := Removed(rows, col, target, s); forall k :: 0 <= k < |r| ==> !IsOutlier(Get(r[k], col), Bounds(s))
  {
    var afterMissing := if target == Both then Keep(rows, col, NotBlank()) else rows;
    var r := Keep(afterMissing, col, InBounds(Bounds(s)));
    assert forall k :: 0 <= k < |r| ==> InBounds(Bounds(s))(Get(r[k], col));
  }

  /** Removing with the missing target keeps every complete row. */
  lemma RemovedKeepsComplete(rows: seq<Row>, col: string, s: ColumnStats)
    ensures forall i :: 0 <= i < |rows| && !Blank(Get(rows[i], col)) ==> rows[i] in Removed(rows, col, Missing, s)
  {
    var idx := KeepSubsequence(rows, col, NotBlank());
    forall i | 0 <= i < |rows| && !Blank(Get(rows[i], col))
      ensures rows[i] in Removed(rows, col, Missing, s)
    {
      var k :| 0 <= k < |idx| && idx[k] == i;
    }
  }
}
