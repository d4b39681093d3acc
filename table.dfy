// The data table of the editor: the sort toggle (`requestSort`,
// src/pages/Index.tsx:208-214), the rows it shows (`getSortedAndFilteredData`,
// src/pages/Index.tsx:217-272) and the cell edit (`updateCell`,
// src/pages/Index.tsx:193-198).
//
// The table renders the filtered and sorted view, but hands the edit the
// position of the row in that view, which `updateCell` applies to the
// unfiltered, unsorted data (src/pages/Index.tsx:976-990). `EditFromViewAsWritten`
// models that; `EditFromView` edits the row the user sees, through the data
// index each view row carries in `TaggedView`.

module Table {
  import opened Cells
  import opened Filters
  import opened Sorting

  // ---------------------------------------------------------------- the sort toggle

  /** `sortConfig.direction`; `Unset` is the initial empty string. */
  datatype Direction = Unset | Ascending | Descending

  datatype SortConfig = SortConfig(key: string, direction: Direction)

  /** The initial `{ key: '', direction: '' }`: no sorting. */
  const NoSort: SortConfig := SortConfig("", Unset)

  /**
   * A click on a column header: descending when the column is already
   * sorted ascending, ascending otherwise.
   */
  function RequestSort(config: SortConfig, key: string): (r: SortConfig)
    ensures r.key == key && r.direction != Unset
    ensures r.direction == Descending <==> config == SortConfig(key, Ascending)
  {
    if config.key == key && config.direction == Ascending then SortConfig(key, Descending)
    else SortConfig(key, Ascending)
  }

  // ---------------------------------------------------------------- text matching

  predicate IsCapital(c: char)
  {
    'A' <= c <= 'Z'
  }

  /** `toLowerCase` on one character; only the ASCII capitals change. */
  function LowerChar(c: char): char
  {
    if IsCapital(c) then (c as int + 32) as char else c
  }

  /**
   * `toLowerCase`: every capital becomes its small letter, 32 code points
   * further on, and every other character is kept.
   */
  function Lower(s: string): (r: string)
    ensures |r| == |s|
    ensures forall i :: 0 <= i < |s| && !IsCapital(s[i]) ==> r[i] == s[i]
    ensures forall i :: 0 <= i < |s| && IsCapital(s[i]) ==> 'a' <= r[i] <= 'z' && r[i] as int == s[i] as int + 32
  {
    seq(|s|, i requires 0 <= i < |s| => LowerChar(s[i]))
  }

  /** The same character up to ASCII case. */
  predicate SameIgnoringCase(x: char, y: char)
  {
    x == y || (IsCapital(x) && y as int == x as int + 32) || (IsCapital(y) && x as int == y as int + 32)
  }

  predicate EqualIgnoringCase(a: string, b: string)
  {
    |a| == |b| && forall i :: 0 <= i < |a| ==> SameIgnoringCase(a[i], b[i])
  }

  predicate StartsWith(s: string, prefix: string)
  {
    |prefix| <= |s| && s[..|prefix|] == prefix
  }

  /** `s.includes(sub)`: `sub` starts at some position of `s`. */
  predicate Contains(s: string, sub: string)
  {
    StartsWith(s, sub) || (s != [] && Contains(s[1..], sub))
  }

  /**
   * The conversions the engine applies to cell values that the model does
   * not spell out: `toString` of a number, and `Number(s)` of a string
   * (none when it is NaN).
   */
  datatype Coercions = Coercions(numeral: real -> string, parse: string -> Option<real>)

  /** `value.toString()`. */
  function Show(c: Cell, conv: Coercions): string
  {
    match c
    case Null => "null"
    case Undef => "undefined"
    case Num(x) => conv.numeral(x)
    case Text(s) => s
    case Flag(b) => if b then "true" else "false"
  }

  /** `val !== null && val !== undefined && val.toString().toLowerCase().includes(q)` for a lower-cased `q`. */
  predicate Hit(c: Cell, q: string, conv: Coercions)
  {
    Present(c) && Contains(Lower(Show(c, conv)), q)
  }

  /** The search box: some value of the row matches the query. */
  predicate SearchHit(row: Row, query: string, conv: Coercions)
  {
    exists col :: col in row && Hit(row[col], Lower(query), conv)
  }

  /** The column filter: the row's value in `col` matches. */
  predicate ColumnHit(row: Row, col: string, value: string, conv: Coercions)
  {
    Hit(Get(row, col), Lower(value), conv)
  }

  // ---------------------------------------------------------------- the comparator

  /** `!isNaN(v)` and `Number(v)`: numbers, booleans and numeric strings. */
  function Number(c: Cell, conv: Coercions): Option<real>
  {
    match c
    case Num(x) => Some(x)
    case Flag(b) => Some(if b then 1.0 else 0.0)
    case Text(s) => conv.parse(s)
    case _ => None
  }

  /** String `<`: character by character, comparing code points, a proper prefix first. */
  predicate LexLess(a: string, b: string)
  {
    b != [] && (a == [] || a[0] < b[0] || (a[0] == b[0] && LexLess(a[1..], b[1..])))
  }

  /** -1, 0 or 1 as `aValue < bValue`, neither, or `aValue > bValue` after the conversion. */
  function Order(x: Cell, y: Cell, conv: Coercions): int
  {
    match (Number(x, conv), Number(y, conv))
    case (Some(p), Some(q)) => if p < q then -1 else if p > q then 1 else 0
    case _ =>
      var a := Lower(Show(x, conv));
      var b := Lower(Show(y, conv));
      if LexLess(a, b) then -1 else if LexLess(b, a) then 1 else 0
  }

  /**
   * The comparator of the view: a row whose key cell is null or undefined
   * compares greater, whichever it is compared with; otherwise the order of
   * the values, reversed unless the direction is ascending.
   */
  function Compare(a: Row, b: Row, config: SortConfig, conv: Coercions): int
  {
    var x := Get(a, config.key);
    var y := Get(b, config.key);
    if !Present(x) then 1
    else if !Present(y) then -1
    else if config.direction == Ascending then Order(x, y, conv)
    else -Order(x, y, conv)
  }

  // ---------------------------------------------------------------- sorting with a comparator

  /** Inserts `x` before the first element it must precede. */
  function InsertWith<T>(x: T, s: seq<T>, before: (T, T) -> bool): (r: seq<T>)
    ensures |r| == |s| + 1
    ensures multiset(r) == multiset(s) + multiset{x}
  {
    if s == [] then [x]
    else if before(x, s[0]) then [x] + s
    else
      assert s == [s[0]] + s[1..];
      [s[0]] + InsertWith(x, s[1..], before)
  }

  /** The stable sort of the engine, taking the elements from left to right. */
  function SortWith<T>(s: seq<T>, before: (T, T) -> bool): (r: seq<T>)
    ensures |r| == |s|
    ensures multiset(r) == multiset(s)
  {
    if s == [] then []
    else
      assert s == s[..|s| - 1] + [s[|s| - 1]];
      InsertWith(s[|s| - 1], SortWith(s[..|s| - 1], before), before)
  }

  /** `compare(a, b) < 0`: `a` goes first. */
  function Before(config: SortConfig, conv: Coercions): (Row, Row) -> bool
  {
    (a: Row, b: Row) => Compare(a, b, config, conv) < 0
  }

  function SortRows(rows: seq<Row>, config: SortConfig, conv: Coercions): seq<Row>
  {
    SortWith(rows, Before(config, conv))
  }

  // ---------------------------------------------------------------- the view

  /** The search query, the column filter and the sort configuration. */
  datatype ViewState = ViewState(search: string, filterColumn: string, filterValue: string, sort: SortConfig)

  function SearchFor(query: string, conv: Coercions): Row -> bool
  {
    (row: Row) => SearchHit(row, query, conv)
  }

  function ColumnFor(col: string, value: string, conv: Coercions): Row -> bool
  {
    (row: Row) => ColumnHit(row, col, value, conv)
  }

  /** `getSortedAndFilteredData`: search, then the column filter, then the sort, each only when set. */
  function SortedAndFiltered(data: seq<Row>, v: ViewState, conv: Coercions): (r: seq<Row>)
    ensures |r| <= |data|
  {
    var searched := WhereIf(v.search != "", data, SearchFor(v.search, conv));
    var filtered := WhereIf(v.filterColumn != "" && v.filterValue != "", searched, ColumnFor(v.filterColumn, v.filterValue, conv));
    if v.sort.key != "" then SortRows(filtered, v.sort, conv) else filtered
  }

  /** Whether a row passes the filters that are set. */
  predicate Shown(row: Row, v: ViewState, conv: Coercions)
  {
    && (v.search != "" ==> SearchHit(row, v.search, conv))
    && (v.filterColumn != "" && v.filterValue != "" ==> ColumnHit(row, v.filterColumn, v.filterValue, conv))
  }

  // ---------------------------------------------------------------- editing

  /** The table after writing `value` into one cell. */
  function Edited(rows: seq<Row>, index: nat, col: string, value: Cell): (r: seq<Row>)
    requires index < |rows|
    ensures |r| == |rows|
  {
    rows[index := rows[index][col := value]]
  }

  /** The editor's table state: the rows and the unsaved-changes flag. */
  class Editor {
    var data: seq<Row>
    var unsaved: bool

    constructor (rows: seq<Row>)
      ensures data == rows && !unsaved
    {
      data := rows;
      unsaved := false;
    }

    /** `updateCell`: the typed text replaces one cell, and the table has unsaved changes. */
    method UpdateCell(rowIndex: nat, column: string, value: string)
      requires rowIndex < |data|
      modifies this
      ensures data == Edited(old(data), rowIndex, column, Text(value))
      ensures unsaved
    {
      var updated := data;
      updated := updated[rowIndex := updated[rowIndex][column := Text(value)]];
      data := updated;
      unsaved := true;
    }
  }

  // ---------------------------------------------------------------- the view with data indices

  function Snd(t: (nat, Row)): Row { t.1 }

  function Pairwise<T, U>(f: T -> U, before: (U, U) -> bool): (T, T) -> bool
  {
    (x, y) => before(f(x), f(y))
  }

  /** Each row with its position in the data. */
  function Tag(data: seq<Row>): (r: seq<(nat, Row)>)
    ensures |r| == |data| && forall i :: 0 <= i < |data| ==> r[i] == (i, data[i])
  {
    seq(|data|, i requires 0 <= i < |data| => (i, data[i]))
  }

  /** The view computed on tagged rows: every shown row keeps its data index. */
  function TaggedView(data: seq<Row>, v: ViewState, conv: Coercions): seq<(nat, Row)>
  {
    var tagged := Tag(data);
    var searched := if v.search != "" then Where(tagged, Through(Snd, SearchFor(v.search, conv))) else tagged;
    var filtered :=
      if v.filterColumn != "" && v.filterValue != "" then
        Where(searched, Through(Snd, ColumnFor(v.filterColumn, v.filterValue, conv)))
      else searched;
    if v.sort.key != "" then SortWith(filtered, Pairwise(Snd, Before(v.sort, conv))) else filtered
  }

  /** The tags of the shown rows are the data indices they came from. */
  ghost predicate Faithful(data: seq<Row>, ts: seq<(nat, Row)>)
  {
    forall t :: t in ts ==> t.0 < |data| && data[t.0] == t.1
  }

  /** The edit as written: the view position is used as a data index. */
  function EditFromViewAsWritten(data: seq<Row>, v: ViewState, conv: Coercions, viewRow: nat, col: string, value: string)
    : (r: seq<Row>)
    requires viewRow < |SortedAndFiltered(data, v, conv)|
    ensures |r| == |data|
  {
    Edited(data, viewRow, col, Text(value))
  }

  /** The edit of the row shown at `viewRow`, through its data index. */
  function EditFromView(data: seq<Row>, v: ViewState, conv: Coercions, viewRow: nat, col: string, value: string)
    : (r: seq<Row>)
    requires viewRow < |SortedAndFiltered(data, v, conv)|
    ensures |r| == |data|
  {
    TaggedViewFaithful(data, v, conv);
    TaggedViewProjects(data, v, conv);
    var t := TaggedView(data, v, conv)[viewRow];
    assert t in TaggedView(data, v, conv);
    Edited(data, t.0, col, Text(value))
  }

  // ---------------------------------------------------------------- properties of the sort toggle

  /**
   * Clicking the same header again flips the direction, and a third click
   * comes back to the state after the first: the toggle has period two.
   */
  lemma RequestSortToggles(config: SortConfig, key: string)
    ensures var once := RequestSort(config, key);
      var twice := RequestSort(once, key);
      && twice.key == key
      && twice.direction != once.direction
      && RequestSort(twice, key) == once
  {
  }

  /** A header click starts ascending unless that column is already ascending. */
  lemma NewKeyAscends(config: SortConfig, key: string)
    requires config.key != key
    ensures RequestSort(config, key) == SortConfig(key, Ascending)
  {
  }

  // ---------------------------------------------------------------- properties of text matching

  /** Lower-casing leaves no ASCII capital, and doing it twice changes nothing. */
  lemma LowerNormalises(s: string)
    ensures forall i :: 0 <= i < |s| ==> !('A' <= Lower(s)[i] <= 'Z')
    ensures Lower(Lower(s)) == Lower(s)
  {
  }

  /** `sub` occurs in `s` starting at position `i`. */
  predicate OccursAt(s: string, sub: string, i: int)
  {
    0 <= i <= |s| - |sub| && s[i..i + |sub|] == sub
  }

  /** `includes` holds exactly when `sub` occurs at some position of `s`. */
  lemma {:induction false} ContainsIff(s: string, sub: string)
    ensures Contains(s, sub) <==> exists i :: OccursAt(s, sub, i)
  {
    if StartsWith(s, sub) {
      assert OccursAt(s, sub, 0);
    } else if s == [] {
      assert forall i :: !OccursAt(s, sub, i);
    } else {
      ContainsIff(s[1..], sub);
      if Contains(s[1..], sub) {
        var i :| OccursAt(s[1..], sub, i);
        assert s[1..][i..i + |sub|] == s[i + 1..i + 1 + |sub|];
        assert OccursAt(s, sub, i + 1);
      }
      if i :| OccursAt(s, sub, i) {
        assert i != 0;
        assert s[1..][i - 1..i - 1 + |sub|] == s[i..i + |sub|];
        assert OccursAt(s[1..], sub, i - 1);
      }
    }
  }

  /** Strings that differ only in ASCII case lower-case alike. */
  lemma LowerIgnoresCase(a: string, b: string)
    requires EqualIgnoringCase(a, b)
    ensures Lower(a) == Lower(b)
  {
    forall i | 0 <= i < |a| ensures LowerChar(a[i]) == LowerChar(b[i]) {
      assert SameIgnoringCase(a[i], b[i]);
    }
  }

  /**
   * Matching ignores case on both sides: a query matches a row exactly when
   * the query with other capitals does, and a text cell matches exactly when
   * the text with other capitals does.
   */
  lemma MatchIgnoresCase(row: Row, col: string, q: string, q': string, conv: Coercions)
    requires EqualIgnoringCase(q, q')
    ensures SearchHit(row, q, conv) <==> SearchHit(row, q', conv)
    ensures ColumnHit(row, col, q, conv) <==> ColumnHit(row, col, q', conv)
  {
    LowerIgnoresCase(q, q');
  }

  lemma TextMatchIgnoresCase(s: string, s': string, q: string, conv: Coercions)
    requires EqualIgnoringCase(s, s')
    ensures Hit(Text(s), q, conv) <==> Hit(Text(s'), q, conv)
  {
    LowerIgnoresCase(s, s');
  }

  // ---------------------------------------------------------------- properties of the sort

  /** Rows whose key cell is null or undefined all come after the others. */
  ghost predicate MissingLast(s: seq<Row>, key: string)
  {
    forall i, j :: 0 <= i < j < |s| && !Present(Get(s[i], key)) ==> !Present(Get(s[j], key))
  }

  /** Every row has a null or undefined key cell. */
  ghost predicate AllMissing(s: seq<Row>, key: string)
  {
    forall k :: 0 <= k < |s| ==> !Present(Get(s[k], key))
  }

  lemma MissingLastCons(y: Row, t: seq<Row>, key: string)
    requires MissingLast(t, key)
    requires !Present(Get(y, key)) ==> AllMissing(t, key)
    ensures MissingLast([y] + t, key)
  {
    var r := [y] + t;
    forall i, j | 0 <= i < j < |r| && !Present(Get(r[i], key)) ensures !Present(Get(r[j], key)) {
      assert r[j] == t[j - 1];
      if i > 0 {
        assert r[i] == t[i - 1];
      }
    }
  }

  /** Inserting a row with a missing key cell among rows that all lack it keeps them all missing. */
  lemma InsertAllMissing(x: Row, s: seq<Row>, before: (Row, Row) -> bool, key: string)
    requires AllMissing(s, key) && !Present(Get(x, key))
    ensures AllMissing(InsertWith(x, s, before), key)
  {
    var t := InsertWith(x, s, before);
    forall k | 0 <= k < |t| ensures !Present(Get(t[k], key)) {
      assert t[k] in multiset(t);
      if t[k] != x {
        assert t[k] in multiset(s);
        var m :| 0 <= m < |s| && s[m] == t[k];
      }
    }
  }

  lemma {:induction false} InsertMissingLast(x: Row, s: seq<Row>, config: SortConfig, conv: Coercions)
    requires MissingLast(s, config.key)
    ensures MissingLast(InsertWith(x, s, Before(config, conv)), config.key)
  {
    var before := Before(config, conv);
    var key := config.key;
    if s == [] {
      assert InsertWith(x, s, before) == [x];
    } else if before(x, s[0]) {
      assert Present(Get(x, key));
      MissingLastCons(x, s, key);
    } else {
      var rest := s[1..];
      assert MissingLast(rest, key);
      InsertMissingLast(x, rest, config, conv);
      if !Present(Get(s[0], key)) {
        assert AllMissing(rest, key);
        assert !Present(Get(x, key));
        InsertAllMissing(x, rest, before, key);
      }
      MissingLastCons(s[0], InsertWith(x, rest, before), key);
    }
  }

  /** The sort puts every row with a null or undefined key cell last. */
  lemma {:induction false} SortMissingLast(rows: seq<Row>, config: SortConfig, conv: Coercions)
    ensures MissingLast(SortRows(rows, config, conv), config.key)
  {
    if rows != [] {
      SortMissingLast(rows[..|rows| - 1], config, conv);
      InsertMissingLast(rows[|rows| - 1], SortRows(rows[..|rows| - 1], config, conv), config, conv);
    }
  }

  lemma {:induction false} InsertWithByKey<T>(x: T, s: seq<T>, before: (T, T) -> bool, key: T -> real)
    requires forall k :: 0 <= k < |s| ==> (before(x, s[k]) <==> key(x) < key(s[k]))
    ensures InsertWith(x, s, before) == InsertBy(x, s, key)
  {
    if s != [] && !before(x, s[0]) {
      InsertWithByKey(x, s[1..], before, key);
    }
  }

  /**
   * A comparator that orders by a key sorts exactly as the key sort: the
   * comparator sort is then the stable sort by that key.
   */
  lemma {:induction false} SortWithByKey<T>(s: seq<T>, before: (T, T) -> bool, key: T -> real)
    requires forall i, j :: 0 <= i < |s| && 0 <= j < |s| ==> (before(s[i], s[j]) <==> key(s[i]) < key(s[j]))
    ensures SortWith(s, before) == SortBy(s, key)
  {
    if s != [] {
      var init := s[..|s| - 1];
      var x := s[|s| - 1];
      SortWithByKey(init, before, key);
      var r := SortBy(init, key);
      forall k | 0 <= k < |r| ensures before(x, r[k]) <==> key(x) < key(r[k]) {
        assert r[k] in multiset(init);
        var m :| 0 <= m < |init| && init[m] == r[k];
        assert init[m] == s[m];
      }
      InsertWithByKey(x, r, before, key);
    }
  }

  /** The number in a row's key cell (0 when it holds none). */
  function NumberIn(key: string): Row -> real
  {
    (row: Row) => var c := Get(row, key); if c.Num? then c.x else 0.0
  }

  function NegatedNumberIn(key: string): Row -> real
  {
    (row: Row) => var c := Get(row, key); if c.Num? then -c.x else 0.0
  }

  /**
   * On a column of numbers the view sorts numerically and stably: ascending,
   * it is the stable sort by the number, and otherwise the stable sort by
   * its negation, so the numbers never increase.
   */
  lemma NumericColumnSort(rows: seq<Row>, config: SortConfig, conv: Coercions)
    requires forall i :: 0 <= i < |rows| ==> Get(rows[i], config.key).Num?
    ensures config.direction == Ascending ==>
      SortRows(rows, config, conv) == SortBy(rows, NumberIn(config.key))
      && SortedBy(SortRows(rows, config, conv), NumberIn(config.key))
    ensures config.direction != Ascending ==>
      SortRows(rows, config, conv) == SortBy(rows, NegatedNumberIn(config.key))
      && SortedBy(SortRows(rows, config, conv), NegatedNumberIn(config.key))
  {
    if config.direction == Ascending {
      SortWithByKey(rows, Before(config, conv), NumberIn(config.key));
      SortBySorted(rows, NumberIn(config.key));
    } else {
      SortWithByKey(rows, Before(config, conv), NegatedNumberIn(config.key));
      SortBySorted(rows, NegatedNumberIn(config.key));
    }
  }

  // ---------------------------------------------------------------- properties of the view

  /**
   * The view holds exactly the data rows that pass the filters that are
   * set, and with a sort key every row with a null or undefined key cell
   * comes last.
   */
  lemma ViewRows(data: seq<Row>, v: ViewState, conv: Coercions)
    ensures var view := SortedAndFiltered(data, v, conv);
      && (forall row :: row in view <==> row in data && Shown(row, v, conv))
      && (v.sort.key != "" ==> MissingLast(view, v.sort.key))
  {
    var searched := WhereIf(v.search != "", data, SearchFor(v.search, conv));
    var filtered := WhereIf(v.filterColumn != "" && v.filterValue != "", searched, ColumnFor(v.filterColumn, v.filterValue, conv));
    forall row ensures row in searched <==> row in data && (v.search != "" ==> SearchHit(row, v.search, conv)) {
      if v.search != "" {
        WhereMembers(data, SearchFor(v.search, conv), row);
      }
    }
    forall row
      ensures row in filtered <==>
        row in searched && (v.filterColumn != "" && v.filterValue != "" ==> ColumnHit(row, v.filterColumn, v.filterValue, conv))
    {
      if v.filterColumn != "" && v.filterValue != "" {
        WhereMembers(searched, ColumnFor(v.filterColumn, v.filterValue, conv), row);
      }
    }
    if v.sort.key != "" {
      SortMissingLast(filtered, v.sort, conv);
      forall row ensures row in SortRows(filtered, v.sort, conv) <==> row in filtered {
        SortByMembersWith(filtered, Before(v.sort, conv), row);
      }
    }
  }

  lemma SortByMembersWith<T>(s: seq<T>, before: (T, T) -> bool, y: T)
    ensures y in SortWith(s, before) <==> y in s
  {
    var r := SortWith(s, before);
    assert y in r <==> y in multiset(r);
    assert y in s <==> y in multiset(s);
  }

  /** With no query, no column filter and no sort key the view is the data. */
  lemma ViewUnfiltered(data: seq<Row>, v: ViewState, conv: Coercions)
    requires v.search == "" && (v.filterColumn == "" || v.filterValue == "") && v.sort.key == ""
    ensures SortedAndFiltered(data, v, conv) == data
  {
  }

  /** The view holds each shown data row exactly as often as the data does, and no other row. */
  lemma ViewMultiset(data: seq<Row>, v: ViewState, conv: Coercions)
    ensures forall row ::
      multiset(SortedAndFiltered(data, v, conv))[row] == if Shown(row, v, conv) then multiset(data)[row] else 0
  {
    var search, column := SearchFor(v.search, conv), ColumnFor(v.filterColumn, v.filterValue, conv);
    var filtered := WhereIf(v.filterColumn != "" && v.filterValue != "", WhereIf(v.search != "", data, search), column);
    WhereIfTwiceMultiset(data, v.search != "", search, v.filterColumn != "" && v.filterValue != "", column);
    if v.sort.key != "" {
      assert SortedAndFiltered(data, v, conv) == SortRows(filtered, v.sort, conv);
    }
  }

  /**
   * With no sort key the view keeps the data order: its rows sit at
   * increasing positions of the data, and every shown position is one of
   * them.
   */
  lemma ViewKeepsDataOrder(data: seq<Row>, v: ViewState, conv: Coercions) returns (idx: seq<int>)
    requires v.sort.key == ""
    ensures Picks(SortedAndFiltered(data, v, conv), data, idx)
    ensures forall i :: 0 <= i < |data| && Shown(data[i], v, conv) ==> i in idx
  {
    var search, column := SearchFor(v.search, conv), ColumnFor(v.filterColumn, v.filterValue, conv);
    idx := WhereIfTwicePicks(data, v.search != "", search, v.filterColumn != "" && v.filterValue != "", column);
  }

  // ---------------------------------------------------------------- the tagged view

  lemma {:induction false} WhereProjects<T, U>(s: seq<T>, f: T -> U, keep: U -> bool)
    ensures Project(Where(s, Through(f, keep)), f) == Where(Project(s, f), keep)
  {
    if s != [] {
      var init, x, p := s[..|s| - 1], s[|s| - 1], Project(s, f);
      WhereProjects(init, f, keep);
      WhereLast(s, Through(f, keep));
      WhereLast(p, keep);
      assert p[..|s| - 1] == Project(init, f);
      if keep(f(x)) {
        ProjectLast(Where(init, Through(f, keep)), x, f);
      }
    }
  }

  lemma {:induction false} InsertProjects<T, U>(x: T, s: seq<T>, f: T -> U, before: (U, U) -> bool)
    ensures Project(InsertWith(x, s, Pairwise(f, before)), f) == InsertWith(f(x), Project(s, f), before)
  {
    if s == [] {
      assert Project([x], f) == [f(x)];
    } else {
      ProjectTail(s, f);
      assert Project([x], f) == [f(x)];
      if before(f(x), f(s[0])) {
        ProjectConcat([x], s, f);
      } else {
        var rest := InsertWith(x, s[1..], Pairwise(f, before));
        InsertProjects(x, s[1..], f, before);
        assert Project([s[0]], f) == [f(s[0])];
        ProjectConcat([s[0]], rest, f);
      }
    }
  }

  lemma {:induction false} SortProjects<T, U>(s: seq<T>, f: T -> U, before: (U, U) -> bool)
    ensures Project(SortWith(s, Pairwise(f, before)), f) == SortWith(Project(s, f), before)
  {
    if s != [] {
      var init := s[..|s| - 1];
      SortProjects(init, f, before);
      InsertProjects(s[|s| - 1], SortWith(init, Pairwise(f, before)), f, before);
      assert Project(s, f)[..|s| - 1] == Project(init, f);
    }
  }

  /** Dropping the tags of the tagged view gives the view. */
  lemma TaggedViewProjects(data: seq<Row>, v: ViewState, conv: Coercions)
    ensures Project(TaggedView(data, v, conv), Snd) == SortedAndFiltered(data, v, conv)
  {
    var tagged := Tag(data);
    assert Project(tagged, Snd) == data;
    var searched := if v.search != "" then Where(tagged, Through(Snd, SearchFor(v.search, conv))) else tagged;
    if v.search != "" {
      WhereProjects(tagged, Snd, SearchFor(v.search, conv));
    }
    var filtered :=
      if v.filterColumn != "" && v.filterValue != "" then
        Where(searched, Through(Snd, ColumnFor(v.filterColumn, v.filterValue, conv)))
      else searched;
    if v.filterColumn != "" && v.filterValue != "" {
      WhereProjects(searched, Snd, ColumnFor(v.filterColumn, v.filterValue, conv));
    }
    if v.sort.key != "" {
      SortProjects(filtered, Snd, Before(v.sort, conv));
    }
  }

  /** Every tag of the tagged view is the data index of its row. */
  lemma TaggedViewFaithful(data: seq<Row>, v: ViewState, conv: Coercions)
    ensures Faithful(data, TaggedView(data, v, conv))
  {
    var tagged := Tag(data);
    assert Faithful(data, tagged);
    var searched := if v.search != "" then Where(tagged, Through(Snd, SearchFor(v.search, conv))) else tagged;
    var filtered :=
      if v.filterColumn != "" && v.filterValue != "" then
        Where(searched, Through(Snd, ColumnFor(v.filterColumn, v.filterValue, conv)))
      else searched;
    if v.search != "" {
      WhereFaithful(data, tagged, Through(Snd, SearchFor(v.search, conv)));
    }
    if v.filterColumn != "" && v.filterValue != "" {
      WhereFaithful(data, searched, Through(Snd, ColumnFor(v.filterColumn, v.filterValue, conv)));
    }
    if v.sort.key != "" {
      SortFaithful(data, filtered, Pairwise(Snd, Before(v.sort, conv)));
    }
  }

  lemma WhereFaithful(data: seq<Row>, ts: seq<(nat, Row)>, keep: ((nat, Row)) -> bool)
    requires Faithful(data, ts)
    ensures Faithful(data, Where(ts, keep))
  {
    forall t | t in Where(ts, keep) ensures t.0 < |data| && data[t.0] == t.1 {
      WhereMembers(ts, keep, t);
    }
  }

  lemma SortFaithful(data: seq<Row>, ts: seq<(nat, Row)>, before: ((nat, Row), (nat, Row)) -> bool)
    requires Faithful(data, ts)
    ensures Faithful(data, SortWith(ts, before))
  {
    forall t | t in SortWith(ts, before) ensures t.0 < |data| && data[t.0] == t.1 {
      SortByMembersWith(ts, before, t);
    }
  }

  // ---------------------------------------------------------------- properties of editing

  /** Editing changes exactly one cell: the written one reads back, everything else is as before. */
  lemma EditedChangesOneCell(rows: seq<Row>, index: nat, col: string, value: Cell)
    requires index < |rows|
    ensures var r := Edited(rows, index, col, value);
      && Get(r[index], col) == value
      && (forall i, c :: 0 <= i < |rows| && (i != index || c != col) ==> Get(r[i], c) == Get(rows[i], c))
      && (forall i :: 0 <= i < |rows| && i != index ==> r[i] == rows[i])
  {
  }

  /**
   * The corrected edit writes the cell of the row shown at `viewRow`: that
   * row sits at the written data index, its cell reads back the text, and
   * every other cell of the data is unchanged.
   */
  lemma EditFromViewWritesShownRow(data: seq<Row>, v: ViewState, conv: Coercions, viewRow: nat, col: string,
                                   value: string)
    requires viewRow < |SortedAndFiltered(data, v, conv)|
    ensures var tv := TaggedView(data, v, conv);
      var r := EditFromView(data, v, conv, viewRow, col, value);
      && viewRow < |tv|
      && var t := tv[viewRow];
      && t.0 < |data|
      && data[t.0] == SortedAndFiltered(data, v, conv)[viewRow]
      && Get(r[t.0], col) == Text(value)
      && (forall i, c :: 0 <= i < |data| && (i != t.0 || c != col) ==> Get(r[i], c) == Get(data[i], c))
  {
    TaggedViewFaithful(data, v, conv);
    TaggedViewProjects(data, v, conv);
    var t := TaggedView(data, v, conv)[viewRow];
    assert t in TaggedView(data, v, conv);
    EditedChangesOneCell(data, t.0, col, Text(value));
  }

  /** Two rows with 2 and 1 in column `a`, shown sorted ascending by `a`. */
  const Example: seq<Row> := [map["a" := Num(2.0)], map["a" := Num(1.0)]]
  const ExampleView: ViewState := ViewState("", "", "", SortConfig("a", Ascending))

  lemma ExampleOrder(conv: Coercions)
    ensures Before(ExampleView.sort, conv)(Example[1], Example[0])
    ensures !Before(ExampleView.sort, conv)(Example[0], Example[1])
  {
  }

  /** The example is shown in reverse order. */
  lemma ExampleShown(conv: Coercions)
    ensures SortedAndFiltered(Example, ExampleView, conv) == [Example[1], Example[0]]
  {
    var before := Before(ExampleView.sort, conv);
    ExampleOrder(conv);
    assert Example[..1] == [Example[0]];
    assert SortWith(Example[..1], before) == [Example[0]];
  }

  lemma ExampleTagged(conv: Coercions)
    ensures TaggedView(Example, ExampleView, conv) == [(1, Example[1]), (0, Example[0])]
  {
    var tagged := Tag(Example);
    var tb := Pairwise(Snd, Before(ExampleView.sort, conv));
    ExampleOrder(conv);
    assert tb(tagged[1], tagged[0]) == Before(ExampleView.sort, conv)(Snd(tagged[1]), Snd(tagged[0]));
    assert tagged[..1] == [(0, Example[0])];
    assert SortWith(tagged[..1], tb) == [(0, Example[0])];
  }

  /**
   * Editing the first row shown in the example as written: the edit lands on
   * the first data row, and the row the user edited keeps its value.
   */
  lemma EditFromViewAsWrittenMisses(conv: Coercions)
    ensures |SortedAndFiltered(Example, ExampleView, conv)| == 2
    ensures var r := EditFromViewAsWritten(Example, ExampleView, conv, 0, "a", "5");
      Get(r[0], "a") == Text("5") && r[1] == Example[1]
  {
    ExampleShown(conv);
    var r := EditFromViewAsWritten(Example, ExampleView, conv, 0, "a", "5");
    assert r == Edited(Example, 0, "a", Text("5"));
    EditedChangesOneCell(Example, 0, "a", Text("5"));
  }

  /** The corrected edit of the same cell writes the row that was shown. */
  lemma EditFromViewHitsExample(conv: Coercions)
    ensures |SortedAndFiltered(Example, ExampleView, conv)| == 2
    ensures var r := EditFromView(Example, ExampleView, conv, 0, "a", "5");
      r[0] == Example[0] && Get(r[1], "a") == Text("5")
  {
    ExampleShown(conv);
    ExampleCorrectedEdit(conv);
    var r := EditFromView(Example, ExampleView, conv, 0, "a", "5");
    assert r == Edited(Example, 1, "a", Text("5"));
    EditedChangesOneCell(Example, 1, "a", Text("5"));
  }

  lemma ExampleCorrectedEdit(conv: Coercions)
    requires |SortedAndFiltered(Example, ExampleView, conv)| == 2
    ensures EditFromView(Example, ExampleView, conv, 0, "a", "5") == Edited(Example, 1, "a", Text("5"))
  {
    ExampleTagged(conv);
    assert TaggedView(Example, ExampleView, conv)[0].0 == 1;
  }
}
