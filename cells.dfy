// The values a table cell can hold once a CSV or JSON file has been parsed
// with dynamic typing, and the three different notions of "missing" that the
// analytics code applies to them.

module Cells {

  datatype Option<T> = None | Some(value: T)

  /** A JavaScript value as it can appear in a parsed row. */
  datatype Cell =
    | Null
    | Undef
    | Num(x: real)
    | Text(s: string)
    | Flag(b: bool)

  /** A row maps column names to cells; a column absent from the map reads as undefined. */
  type Row = map<string, Cell>

  function Get(row: Row, col: string): Cell
  {
    if col in row then row[col] else Undef
  }

  /** The statistics test: a value is present unless it is null or undefined (`''` counts as present). */
  predicate Present(c: Cell)
  {
    !c.Null? && !c.Undef?
  }

  /** The cleaning and correlation test: null, undefined and the empty string are all missing. */
  predicate Blank(c: Cell)
  {
    c.Null? || c.Undef? || c == Text("")
  }

  /** JavaScript truthiness, as used by the time-series row filter. */
  predicate Truthy(c: Cell)
  {
    match c
    case Null => false
    case Undef => false
    case Num(x) => x != 0.0
    case Text(s) => s != ""
    case Flag(b) => b
  }

  /** The cells JavaScript arithmetic turns into numbers: numbers, and booleans as 0 or 1. */
  predicate Arithmetic(c: Cell)
  {
    c.Num? || c.Flag?
  }

  function Value(c: Cell): real
    requires Arithmetic(c)
  {
    if c.Num? then c.x else if c.b then 1.0 else 0.0
  }

  /** The cells of one column, in row order. */
  function Column(rows: seq<Row>, col: string): (r: seq<Cell>)
    ensures |r| == |rows|
    ensures forall i :: 0 <= i < |rows| ==> r[i] == Get(rows[i], col)
  {
    seq(|rows|, i requires 0 <= i < |rows| => Get(rows[i], col))
  }
}
