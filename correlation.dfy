// The Pearson correlation matrix over the numeric columns
// (`calculateCorrelations`, src/pages/Index.tsx:319-371).
//
// For every ordered pair of numeric columns the rows where both cells hold a
// value (neither null, undefined nor '') give the pairs (x, y); with n >= 2
// pairs the coefficient is (n·Σxy − Σx·Σy) / sqrt((n·Σx² − (Σx)²)(n·Σy² − (Σy)²)),
// or 0 when that square root is 0. The square root is not modelled: a
// coefficient is kept as its numerator and the radicand under the root.

module Correlation {
  import opened Cells
  import opened Filters
  import opened Sums
  import opened Moments
  import Stats

  datatype Correlation =
    | NoValue                                  // `null`: fewer than two complete rows
    | Exact(r: real)                           // 1 on the diagonal, 0 when the denominator is 0
    | Pearson(numerator: real, radicand: real) // numerator / sqrt(radicand)
    | NotNumeric                               // a complete row holds a text cell

  /** The two cells of every row where neither is blank, in row order. */
  function CellPairs(rows: seq<Row>, c1: string, c2: string): (r: seq<(Cell, Cell)>)
    ensures |r| <= |rows|
    ensures forall i :: 0 <= i < |r| ==> !Blank(r[i].0) && !Blank(r[i].1)
  {
    if rows == [] then []
    else
      var init := CellPairs(rows[..|rows| - 1], c1, c2);
      var a, b := Get(rows[|rows| - 1], c1), Get(rows[|rows| - 1], c2);
      if !Blank(a) && !Blank(b) then init + [(a, b)] else init
  }

  predicate AllArithmetic(cps: seq<(Cell, Cell)>)
  {
    forall i :: 0 <= i < |cps| ==> Arithmetic(cps[i].0) && Arithmetic(cps[i].1)
  }

  function Values(cps: seq<(Cell, Cell)>): (ps: seq<Pair>)
    requires AllArithmetic(cps)
    ensures |ps| == |cps|
    ensures forall i :: 0 <= i < |cps| ==> ps[i] == (Value(cps[i].0), Value(cps[i].1))
  {
    seq(|cps|, i requires 0 <= i < |cps| => (Value(cps[i].0), Value(cps[i].1)))
  }

  /** The coefficient from the centred moments: 0 when the radicand is 0. */
  function Ratio(cross: real, spreadX: real, spreadY: real): Correlation
  {
    var radicand := spreadX * spreadY;
    if radicand == 0.0 then Exact(0.0) else Pearson(cross, radicand)
  }

  function OfPairs(ps: seq<Pair>): Correlation
  {
    Ratio(CrossDeviation(ps), SpreadX(ps), SpreadY(ps))
  }

  /** The entry for two distinct columns. */
  function Coefficient(rows: seq<Row>, c1: string, c2: string): Correlation
  {
    var cps := CellPairs(rows, c1, c2);
    if |cps| < 2 then NoValue
    else if !AllArithmetic(cps) then NotNumeric
    else OfPairs(Values(cps))
  }

  /** The coefficient numerator / sqrt(radicand) lies in [-1, 1], when there is one. */
  predicate WithinUnit(k: Correlation)
  {
    k.Pearson? ==> k.radicand > 0.0 && k.numerator * k.numerator <= k.radicand
  }

  /** The coefficient is +1 (rising = true) or -1 (rising = false). */
  predicate Perfect(k: Correlation, rising: bool)
  {
    k.Pearson? && k.numerator * k.numerator == k.radicand && (k.numerator > 0.0 <==> rising)
  }

  /** The entry at row c1, column c2 of the matrix. */
  function Entry(rows: seq<Row>, c1: string, c2: string): Correlation
  {
    if c1 == c2 then Exact(1.0) else Coefficient(rows, c1, c2)
  }

  /** The columns the statistics classify as numeric, in column order. */
  function NumericColumns(columns: seq<string>, stats: map<string, Stats.ColumnStats>): (r: seq<string>)
    ensures |r| <= |columns|
    ensures forall c :: c in r <==> c in columns && c in stats && stats[c].kind == Stats.Numeric
  {
    if columns == [] then []
    else
      var init := NumericColumns(columns[..|columns| - 1], stats);
      var c := columns[|columns| - 1];
      assert columns == columns[..|columns| - 1] + [c];
      if c in stats && stats[c].kind == Stats.Numeric then init + [c] else init
  }

  ghost predicate NoDuplicates(s: seq<string>)
  {
    forall i, j :: 0 <= i < j < |s| ==> s[i] != s[j]
  }

  /**
   * The outer loop over the numeric columns. The statistics are the ones the
   * caller holds, which need not describe the current rows.
   */
  method CalculateCorrelations(rows: seq<Row>, columns: seq<string>, stats: map<string, Stats.ColumnStats>)
    returns (m: map<string, map<string, Correlation>>)
    ensures var nc := NumericColumns(columns, stats);
      if rows == [] || columns == [] || |nc| < 2 then m == map[]
      else
        && (forall c :: c in m <==> c in nc)
        && (forall c1 :: c1 in m ==> m[c1].Keys == m.Keys)
        && (forall c1, c2 :: c1 in m && c2 in m[c1] ==> m[c1][c2] == Entry(rows, c1, c2))
  {
    m := map[];
    if rows == [] || columns == [] {
      return;
    }
    var numeric := NumericColumns(columns, stats);
    if |numeric| < 2 {
      return;
    }
    for i := 0 to |numeric|
      invariant forall c :: c in m <==> c in numeric[..i]
      invariant forall c1 :: c1 in m ==> forall c :: c in m[c1] <==> c in numeric
      invariant forall c1, c2 :: c1 in m && c2 in m[c1] ==> m[c1][c2] == Entry(rows, c1, c2)
    {
      var entries := CorrelationRow(rows, numeric, numeric[i]);
      m := m[numeric[i] := entries];
      assert numeric[..i + 1] == numeric[..i] + [numeric[i]];
    }
    assert numeric[..|numeric|] == numeric;
  }

  /** The inner loop: the entries of one column against every numeric column. */
  method CorrelationRow(rows: seq<Row>, numeric: seq<string>, col1: string) returns (entries: map<string, Correlation>)
    ensures forall c :: c in entries <==> c in numeric
    ensures forall c2 :: c2 in entries ==> entries[c2] == Entry(rows, col1, c2)
  {
    entries := map[];
    for j := 0 to |numeric|
      invariant forall c :: c in entries <==> c in numeric[..j]
      invariant forall c2 :: c2 in entries ==> entries[c2] == Entry(rows, col1, c2)
    {
      var col2 := numeric[j];
      if col1 == col2 {
        entries := entries[col2 := Exact(1.0)];
      } else {
        entries := entries[col2 := Coefficient(rows, col1, col2)];
      }
      assert numeric[..j + 1] == numeric[..j] + [col2];
    }
    assert numeric[..|numeric|] == numeric;
  }

  // ---------------------------------------------------------------- properties

  lemma {:induction false} NumericColumnsNoDuplicates(columns: seq<string>, stats: map<string, Stats.ColumnStats>)
    requires NoDuplicates(columns)
    ensures NoDuplicates(NumericColumns(columns, stats))
  {
    if columns != [] {
      var init := columns[..|columns| - 1];
      NumericColumnsNoDuplicates(init, stats);
      var c := columns[|columns| - 1];
      assert c !in init;
      assert c !in NumericColumns(init, stats);
    }
  }

  /** The cell pairs of (c2, c1) are those of (c1, c2) with the cells exchanged. */
  lemma {:induction false} CellPairsSwap(rows: seq<Row>, c1: string, c2: string)
    ensures var p, q := CellPairs(rows, c1, c2), CellPairs(rows, c2, c1);
      |q| == |p| && forall i :: 0 <= i < |p| ==> q[i] == (p[i].1, p[i].0)
  {
    if rows != [] {
      CellPairsSwap(rows[..|rows| - 1], c1, c2);
    }
  }

  lemma RatioSymmetric(cross: real, u: real, v: real)
    ensures Ratio(cross, v, u) == Ratio(cross, u, v)
  {
    assert v * u == u * v;
  }

  lemma OfPairsSymmetric(ps: seq<Pair>)
    ensures OfPairs(Swap(ps)) == OfPairs(ps)
  {
    SwapMoments(ps);
    RatioSymmetric(CrossDeviation(ps), SpreadX(ps), SpreadY(ps));
  }

  /** The matrix is symmetric: exchanging the columns does not change the coefficient. */
  lemma CoefficientSymmetric(rows: seq<Row>, c1: string, c2: string)
    ensures Coefficient(rows, c1, c2) == Coefficient(rows, c2, c1)
  {
    var p, q := CellPairs(rows, c1, c2), CellPairs(rows, c2, c1);
    CellPairsSwap(rows, c1, c2);
    assert AllArithmetic(p) <==> AllArithmetic(q);
    if |p| >= 2 && AllArithmetic(p) {
      assert Values(q) == Swap(Values(p));
      OfPairsSymmetric(Values(p));
    }
  }

  lemma EntrySymmetric(rows: seq<Row>, c1: string, c2: string)
    ensures Entry(rows, c1, c2) == Entry(rows, c2, c1)
  {
    CoefficientSymmetric(rows, c1, c2);
  }

  lemma RatioBounded(cross: real, u: real, v: real)
    requires u >= 0.0 && v >= 0.0 && Dominated(cross, u, v)
    ensures WithinUnit(Ratio(cross, u, v))
  {
    NonNegativeProduct(u, v);
  }

  lemma OfPairsBounded(ps: seq<Pair>)
    ensures WithinUnit(OfPairs(ps))
  {
    SpreadsNonNegative(ps);
    CrossDeviationBound(ps);
    RatioBounded(CrossDeviation(ps), SpreadX(ps), SpreadY(ps));
  }

  /**
   * Every computed coefficient lies in [-1, 1]: the radicand is positive and
   * the numerator squared does not exceed it.
   */
  lemma CoefficientBounded(rows: seq<Row>, c1: string, c2: string)
    ensures WithinUnit(Coefficient(rows, c1, c2))
  {
    var cps := CellPairs(rows, c1, c2);
    if |cps| >= 2 && AllArithmetic(cps) {
      OfPairsBounded(Values(cps));
    }
  }

  /** With fewer than two complete rows there is no coefficient, and only then. */
  /** Both cells of the row hold a value: neither is null, undefined or ''. */
  predicate Complete(row: Row, c1: string, c2: string)
  {
    !Blank(Get(row, c1)) && !Blank(Get(row, c2))
  }

  function CompleteIn(c1: string, c2: string): Row -> bool
  {
    row => Complete(row, c1, c2)
  }

  function CellsIn(c1: string, c2: string): Row -> (Cell, Cell)
  {
    row => (Get(row, c1), Get(row, c2))
  }

  lemma {:induction false} CellPairsAreCompleteRows(rows: seq<Row>, c1: string, c2: string)
    ensures CellPairs(rows, c1, c2) == Project(Where(rows, CompleteIn(c1, c2)), CellsIn(c1, c2))
  {
    if rows != [] {
      var init := rows[..|rows| - 1];
      CellPairsAreCompleteRows(init, c1, c2);
      WhereLast(rows, CompleteIn(c1, c2));
      ProjectLast(Where(init, CompleteIn(c1, c2)), rows[|rows| - 1], CellsIn(c1, c2));
    }
  }

  /**
   * The pairs are the two cells of the complete rows: one pair per complete
   * row, read at increasing positions, and no complete row left out.
   */
  lemma CellPairsExactly(rows: seq<Row>, c1: string, c2: string) returns (idx: seq<int>)
    ensures var cps := CellPairs(rows, c1, c2);
      && |idx| == |cps|
      && (forall k :: 0 <= k < |idx| ==> 0 <= idx[k] < |rows| && cps[k] == (Get(rows[idx[k]], c1), Get(rows[idx[k]], c2)))
      && (forall k, l :: 0 <= k < l < |idx| ==> idx[k] < idx[l])
      && (forall i :: 0 <= i < |rows| && Complete(rows[i], c1, c2) ==> i in idx)
    ensures |CellPairs(rows, c1, c2)| == |set i | 0 <= i < |rows| && Complete(rows[i], c1, c2)|
  {
    CellPairsAreCompleteRows(rows, c1, c2);
    idx := WherePicks(rows, CompleteIn(c1, c2));
    WhereCount(rows, CompleteIn(c1, c2));
    assert Passing(rows, CompleteIn(c1, c2)) == set i | 0 <= i < |rows| && Complete(rows[i], c1, c2);
  }

  /** Two distinct columns get `null` exactly when fewer than two rows are complete in both. */
  lemma NoValueIffFewRows(rows: seq<Row>, c1: string, c2: string)
    ensures Coefficient(rows, c1, c2) == NoValue <==> |set i | 0 <= i < |rows| && Complete(rows[i], c1, c2)| < 2
  {
    var _ := CellPairsExactly(rows, c1, c2);
  }

  lemma ScaledSign(a: real, u: real, cross: real)
    requires u > 0.0 && cross == a * u
    ensures cross > 0.0 <==> a > 0.0
    ensures cross != 0.0 <==> a != 0.0
  {
    if a > 0.0 {
      PositiveProduct(a, u);
    } else if a < 0.0 {
      PositiveProduct(-a, u);
    }
  }

  /**
   * With numerator a·Sx and y-spread a·numerator, the radicand Sx·Sy is the
   * numerator squared, positive when a != 0 and Sx > 0.
   */
  lemma ScaledRatio(a: real, u: real, cross: real, v: real)
    requires a != 0.0 && u > 0.0 && cross == Product(a, u) && v == Product(a, cross)
    ensures Perfect(Ratio(cross, u, v), a > 0.0)
  {
    ScaledSign(a, u, cross);
    assert u * v == cross * cross;
    if cross > 0.0 {
      PositiveProduct(cross, cross);
    } else {
      PositiveProduct(-cross, -cross);
    }
  }

  /** For y = a·x + b the numerator is a·Sx and the y-spread a·numerator. */
  lemma LineMoments(ps: seq<Pair>, a: real, b: real)
    requires OnLine(ps, a, b) && a != 0.0 && SpreadX(ps) > 0.0
    ensures Perfect(Ratio(CrossDeviation(ps), SpreadX(ps), SpreadY(ps)), a > 0.0)
  {
    LineCrossDeviation(ps, a, b);
    LineSpreadY(ps, a, b);
    ScaledRatio(a, SpreadX(ps), CrossDeviation(ps), SpreadY(ps));
  }

  lemma OfPairsOnLine(ps: seq<Pair>, a: real, b: real)
    requires OnLine(ps, a, b) && a != 0.0 && SpreadX(ps) > 0.0
    ensures Perfect(OfPairs(ps), a > 0.0)
  {
    LineMoments(ps, a, b);
  }

  /**
   * Two columns in an exact linear relation y = a·x + b with a != 0 and
   * non-constant x correlate perfectly: the numerator squared equals the
   * radicand, so the coefficient is 1 when a > 0 and -1 when a < 0.
   */
  lemma PerfectLine(rows: seq<Row>, c1: string, c2: string, a: real, b: real)
    requires |CellPairs(rows, c1, c2)| >= 2 && AllArithmetic(CellPairs(rows, c1, c2))
    requires OnLine(Values(CellPairs(rows, c1, c2)), a, b)
    requires a != 0.0 && SpreadX(Values(CellPairs(rows, c1, c2))) > 0.0
    ensures Perfect(Coefficient(rows, c1, c2), a > 0.0)
  {
    OfPairsOnLine(Values(CellPairs(rows, c1, c2)), a, b);
  }
}
