/**
 * Worksheets, workbooks and the table ("data frame") view the handlers build from a
 * worksheet: a header row of column names over rows of cells, each row carrying the
 * index label pandas gives it.
 */
module Sheets {

  import opened Wrappers
  import opened Text
  import opened Cells

  function Max(a: int, b: int): int {
    if a < b then b else a
  }

  // ----- worksheet grids -----

  /**
   * The cells of a worksheet keyed by (row, column), both counted from 1, with the
   * extent of the rows and columns that hold a cell (0 for a fresh sheet).
   */
  datatype Grid = Grid(cells: map<(int, int), Cell>, rows: nat, cols: nat)

  const EmptyGrid := Grid(map[], 0, 0)

  /** `ws.max_row`: at least 1, even for a sheet with no cells. */
  function MaxRow(g: Grid): (n: nat)
    ensures n >= 1 && n >= g.rows
  {
    Max(g.rows, 1)
  }

  /** `ws.max_column`. */
  function MaxColumn(g: Grid): (n: nat)
    ensures n >= 1 && n >= g.cols
  {
    Max(g.cols, 1)
  }

  /** `ws.cell(r, c).value`: None where nothing was written. */
  function Get(g: Grid, r: int, c: int): Cell {
    if (r, c) in g.cells then g.cells[(r, c)] else Null
  }

  /** `ws.cell(r, c, v)` with a value: writes one cell and widens the extent to cover it. */
  function Put(g: Grid, r: int, c: int, v: Cell): (h: Grid)
    requires r >= 1 && c >= 1
    ensures Get(h, r, c) == v
    ensures forall r1, c1 :: (r1, c1) != (r, c) ==> Get(h, r1, c1) == Get(g, r1, c1)
    ensures h.rows == Max(g.rows, r) && h.cols == Max(g.cols, c)
  {
    Grid(g.cells[(r, c) := v], Max(g.rows, r), Max(g.cols, c))
  }

  /** `ws.append(row)`: the values go to the row after the last written one, from column 1. */
  function AppendRow(g: Grid, row: seq<Cell>): (h: Grid)
    ensures h.rows == g.rows + 1 && h.cols == Max(g.cols, |row|)
  {
    var r := g.rows + 1;
    var added := map c | 1 <= c <= |row| :: (r, c) := row[c - 1];
    Grid(g.cells + added, r, Max(g.cols, |row|))
  }

  /** A fresh sheet after appending `rows` one by one. */
  function GridOfRows(rows: seq<seq<Cell>>): (g: Grid)
    ensures g.rows == |rows|
  {
    if rows == [] then EmptyGrid else AppendRow(GridOfRows(rows[..|rows| - 1]), rows[|rows| - 1])
  }

  /** Appending writes the new row and nothing else. */
  lemma GetAppendRow(g: Grid, row: seq<Cell>, r: int, c: int)
    ensures Get(AppendRow(g, row), r, c)
      == if r == g.rows + 1 && 1 <= c <= |row| then row[c - 1] else Get(g, r, c)
  {
  }

  /** Appended rows are read back in place; every other cell is empty. */
  lemma {:induction false} GetGridOfRows(rows: seq<seq<Cell>>, r: int, c: int)
    ensures Get(GridOfRows(rows), r, c)
      == if 1 <= r <= |rows| && 1 <= c <= |rows[r - 1]| then rows[r - 1][c - 1] else Null
  {
    if rows != [] {
      var init := rows[..|rows| - 1];
      GetGridOfRows(init, r, c);
      GetAppendRow(GridOfRows(init), rows[|rows| - 1], r, c);
      if 1 <= r < |rows| {
        assert rows[r - 1] == init[r - 1];
      }
    }
  }

  // ----- worksheets and workbooks -----

  class Worksheet {
    const title: string
    var grid: Grid

    constructor (title: string)
      ensures this.title == title && grid == EmptyGrid
    {
      this.title := title;
      grid := EmptyGrid;
    }

    /** `ws.append(row)`. */
    method Append(row: seq<Cell>)
      modifies this
      ensures grid == AppendRow(old(grid), row)
    {
      grid := AppendRow(grid, row);
    }

    /** `ws.cell(r, c, v)`. */
    method SetCell(r: int, c: int, v: Cell)
      requires r >= 1 && c >= 1
      modifies this
      ensures grid == Put(old(grid), r, c, v)
    {
      grid := Put(grid, r, c, v);
    }
  }

  function Titles(sheets: seq<Worksheet>): (ts: seq<string>)
    ensures |ts| == |sheets| && forall k :: 0 <= k < |sheets| ==> ts[k] == sheets[k].title
  {
    if sheets == [] then [] else Titles(sheets[..|sheets| - 1]) + [sheets[|sheets| - 1].title]
  }

  /** The sheets whose title is not `name`, in their order. */
  function WithoutTitle(sheets: seq<Worksheet>, name: string): (r: seq<Worksheet>)
    ensures forall k :: 0 <= k < |r| ==> r[k] in sheets && r[k].title != name
    ensures forall k :: 0 <= k < |sheets| && sheets[k].title != name ==> sheets[k] in r
  {
    if sheets == [] then []
    else
      var last := sheets[|sheets| - 1];
      WithoutTitle(sheets[..|sheets| - 1], name) + (if last.title == name then [] else [last])
  }

  class Workbook {
    var sheets: seq<Worksheet>

    /** `wb.sheetnames`. */
    function SheetNames(): seq<string>
      reads this
    {
      Titles(sheets)
    }

    /** openpyxl keeps sheet titles distinct. */
    predicate Valid()
      reads this
    {
      forall i, j :: 0 <= i < j < |sheets| ==> sheets[i].title != sheets[j].title
    }

    constructor (sheets: seq<Worksheet>)
      ensures this.sheets == sheets
    {
      this.sheets := sheets;
    }

    /** `del wb[name]`. */
    method Remove(name: string)
      requires Valid()
      modifies this
      ensures sheets == WithoutTitle(old(sheets), name)
      ensures Valid()
    {
      sheets := WithoutTitle(sheets, name);
      WithoutTitleKeepsDistinct(old(sheets), name);
    }

    /** `wb.create_sheet(title)` for a title no sheet has: a new empty sheet at the end. */
    method CreateSheet(title: string) returns (ws: Worksheet)
      requires Valid() && title !in SheetNames()
      modifies this
      ensures fresh(ws) && ws.title == title && ws.grid == EmptyGrid
      ensures sheets == old(sheets) + [ws]
      ensures Valid()
    {
      ws := new Worksheet(title);
      sheets := sheets + [ws];
    }

    /**
     * `del wb[name]` when a sheet has that title, then `wb.create_sheet(name)` with `rows`
     * appended: the sheet of that name is replaced by a new last sheet holding the rows.
     */
    method ReplaceSheet(name: string, rows: seq<seq<Cell>>) returns (ws: Worksheet)
      requires Valid()
      modifies this
      ensures Valid() && sheets == WithoutTitle(old(sheets), name) + [ws]
      ensures fresh(ws) && ws.title == name && ws.grid == GridOfRows(rows)
    {
      if name in SheetNames() {
        Remove(name);
      } else {
        WithoutTitleAbsent(sheets, name);
      }
      WithoutTitleKeepsDistinct(old(sheets), name);
      ws := CreateSheet(name);
      AppendRows(ws, rows);
    }
  }

  predicate DistinctTitles(sheets: seq<Worksheet>) {
    forall i, j :: 0 <= i < j < |sheets| ==> sheets[i].title != sheets[j].title
  }

  lemma WithoutTitleKeepsDistinct(sheets: seq<Worksheet>, name: string)
    requires forall i, j :: 0 <= i < j < |sheets| ==> sheets[i].title != sheets[j].title
    ensures var r := WithoutTitle(sheets, name);
      (forall i, j :: 0 <= i < j < |r| ==> r[i].title != r[j].title) && name !in Titles(r)
  {
    WithoutTitleDistinct(sheets, name);
    var r := WithoutTitle(sheets, name);
    forall k | 0 <= k < |r| ensures Titles(r)[k] != name {
    }
  }

  lemma {:induction false} WithoutTitleDistinct(sheets: seq<Worksheet>, name: string)
    requires DistinctTitles(sheets)
    ensures DistinctTitles(WithoutTitle(sheets, name))
  {
    if sheets != [] {
      var init := sheets[..|sheets| - 1];
      WithoutTitleDistinct(init, name);
      var r0 := WithoutTitle(init, name);
      var last := sheets[|sheets| - 1];
      if last.title != name {
        forall i | 0 <= i < |r0|
          ensures r0[i].title != last.title
        {
          assert r0[i] in init;
        }
        DistinctAppend(r0, last);
      }
    }
  }

  lemma DistinctAppend(a: seq<Worksheet>, w: Worksheet)
    requires DistinctTitles(a) && forall i :: 0 <= i < |a| ==> a[i].title != w.title
    ensures DistinctTitles(a + [w])
  {
  }

  lemma {:induction false} WithoutTitleAbsent(sheets: seq<Worksheet>, name: string)
    requires name !in Titles(sheets)
    ensures WithoutTitle(sheets, name) == sheets
  {
    if sheets != [] {
      var init := sheets[..|sheets| - 1];
      assert Titles(init) == Titles(sheets)[..|sheets| - 1];
      WithoutTitleAbsent(init, name);
      assert sheets[|sheets| - 1].title == Titles(sheets)[|sheets| - 1];
      assert init + [sheets[|sheets| - 1]] == sheets;
    }
  }

  // ----- tables -----

  /**
   * A pandas DataFrame: column names, rows of cells (one per column) and the index label
   * of each row.
   */
  datatype Frame = Frame(columns: seq<string>, rows: seq<seq<Cell>>, index: seq<int>)

  predicate WellFormed(f: Frame) {
    |f.index| == |f.rows| && forall i :: 0 <= i < |f.rows| ==> |f.rows[i]| == |f.columns|
  }

  /** `df.empty`: no rows or no columns. */
  predicate IsEmpty(f: Frame) {
    |f.rows| == 0 || |f.columns| == 0
  }

  /** Position of the first column called `name` (pandas label lookup). */
  function ColumnIndex(cols: seq<string>, name: string): (r: Option<nat>)
    ensures r.None? <==> name !in cols
    ensures r.Some? ==> r.value < |cols| && cols[r.value] == name
    ensures r.Some? ==> forall k :: 0 <= k < r.value ==> cols[k] != name
  {
    if cols == [] then None
    else if cols[0] == name then Some(0)
    else match ColumnIndex(cols[1..], name)
      case None => None
      case Some(k) => Some(k + 1)
  }

  /** `df[col]` as a list of cells. */
  function Column(f: Frame, j: nat): (col: seq<Cell>)
    requires WellFormed(f) && j < |f.columns|
    ensures |col| == |f.rows| && forall i :: 0 <= i < |col| ==> col[i] == f.rows[i][j]
  {
    seq(|f.rows|, i requires 0 <= i < |f.rows| => f.rows[i][j])
  }

  /** `df[name] = values`: overwrites the column called `name`, or adds it at the right end. */
  function SetColumn(f: Frame, name: string, values: seq<Cell>): (r: Frame)
    requires WellFormed(f) && |values| == |f.rows|
    ensures WellFormed(r) && r.index == f.index && |r.rows| == |f.rows|
    ensures name in f.columns ==> r.columns == f.columns
    ensures name !in f.columns ==> r.columns == f.columns + [name]
    ensures forall i, c :: 0 <= i < |f.rows| && 0 <= c < |f.columns| && f.columns[c] != name ==>
      r.rows[i][c] == f.rows[i][c]
    ensures forall i :: 0 <= i < |f.rows| ==> r.rows[i][ColumnIndex(r.columns, name).value] == values[i]
  {
    match ColumnIndex(f.columns, name)
    case Some(j) =>
      Frame(f.columns, seq(|f.rows|, i requires 0 <= i < |f.rows| => f.rows[i][j := values[i]]), f.index)
    case None =>
      Frame(f.columns + [name], seq(|f.rows|, i requires 0 <= i < |f.rows| => f.rows[i] + [values[i]]), f.index)
  }

  /** Setting one column leaves the position and the values of every other column as they were. */
  lemma SetColumnOther(f: Frame, name: string, values: seq<Cell>, other: string)
    requires WellFormed(f) && |values| == |f.rows| && other != name && other in f.columns
    ensures var r := SetColumn(f, name, values);
      ColumnIndex(r.columns, other) == ColumnIndex(f.columns, other) &&
      forall i :: 0 <= i < |f.rows| ==>
        r.rows[i][ColumnIndex(f.columns, other).value] == f.rows[i][ColumnIndex(f.columns, other).value]
  {
    var r := SetColumn(f, name, values);
    var k := ColumnIndex(f.columns, other).value;
    assert r.columns[k] == other;
    var k2 := ColumnIndex(r.columns, other).value;
    assert k2 <= k;
    assert f.columns[k2] == other;
  }

  /** `df[name] = value` with a single value for every row. */
  function SetConstant(f: Frame, name: string, v: Cell): (r: Frame)
    requires WellFormed(f)
    ensures WellFormed(r) && r.index == f.index && |r.rows| == |f.rows|
    ensures name in r.columns
    ensures forall i :: 0 <= i < |r.rows| ==> r.rows[i][ColumnIndex(r.columns, name).value] == v
  {
    SetColumn(f, name, seq(|f.rows|, _ => v))
  }

  // ----- row selection -----

  predicate Increasing(ps: seq<nat>) {
    forall k, l :: 0 <= k < l < |ps| ==> ps[k] < ps[l]
  }

  /** The positions where `mask` is true, in increasing order. */
  function Positions(mask: seq<bool>): (ps: seq<nat>)
    ensures Increasing(ps) && |ps| <= |mask|
    ensures forall k :: 0 <= k < |ps| ==> ps[k] < |mask| && mask[ps[k]]
    ensures forall i :: 0 <= i < |mask| && mask[i] ==> i in ps
  {
    if mask == [] then []
    else
      var init := Positions(mask[..|mask| - 1]);
      if mask[|mask| - 1] then init + [|mask| - 1] else init
  }

  function Pick<T>(xs: seq<T>, ps: seq<nat>): (r: seq<T>)
    requires forall k :: 0 <= k < |ps| ==> ps[k] < |xs|
    ensures |r| == |ps| && forall k :: 0 <= k < |ps| ==> r[k] == xs[ps[k]]
  {
    seq(|ps|, k requires 0 <= k < |ps| => xs[ps[k]])
  }

  /**
   * `df[mask]`: exactly the rows whose mask entry is true, in their original order,
   * keeping their index labels.
   */
  function Select(f: Frame, mask: seq<bool>): (r: Frame)
    requires WellFormed(f) && |mask| == |f.rows|
    ensures WellFormed(r) && r.columns == f.columns
    ensures r.rows == Pick(f.rows, Positions(mask)) && r.index == Pick(f.index, Positions(mask))
  {
    var ps := Positions(mask);
    Frame(f.columns, Pick(f.rows, ps), Pick(f.index, ps))
  }

  // ----- reading a worksheet -----

  /** A header cell as a column name: `str(value)`, or "" for an empty cell. */
  function HeaderName(v: Cell): string {
    if v.Null? then "" else Str(v)
  }

  /**
   * `_sheet_to_dataframe_raw`: row 1 gives the column names, rows 2.. the data, and the
   * index counts the data rows from 0, so index label i is worksheet row i + 2.
   */
  function RawFrame(g: Grid): (f: Frame)
    ensures WellFormed(f) && |f.columns| == MaxColumn(g) && |f.rows| == MaxRow(g) - 1
    ensures forall c :: 0 <= c < |f.columns| ==> f.columns[c] == HeaderName(Get(g, 1, c + 1))
    ensures forall i :: 0 <= i < |f.rows| ==> f.rows[i] == RowCells(g, i + 2)
    ensures forall i :: 0 <= i < |f.index| ==> f.index[i] == i
  {
    var n := MaxRow(g) - 1;
    var rows := seq(n, i => RowCells(g, i + 2));
    var index := seq(n, i => i);
    Frame(HeaderNames(g), rows, index)
  }

  function HeaderNames(g: Grid): (names: seq<string>)
    ensures |names| == MaxColumn(g)
    ensures forall c :: 0 <= c < |names| ==> names[c] == HeaderName(Get(g, 1, c + 1))
  {
    seq(MaxColumn(g), c => HeaderName(Get(g, 1, c + 1)))
  }

  /** The cells of worksheet row `r`, columns 1 to `max_column`. */
  function RowCells(g: Grid, r: int): (row: seq<Cell>)
    ensures |row| == MaxColumn(g)
    ensures forall c :: 0 <= c < |row| ==> row[c] == Get(g, r, c + 1)
  {
    seq(MaxColumn(g), c => Get(g, r, c + 1))
  }

  /** `_find_option_colname` / `_find_option_col`: the first column whose name contains "옵션". */
  function FindOptionColumn(cols: seq<string>): (r: Option<nat>)
    ensures r.Some? ==> r.value < |cols| && Contains(cols[r.value], "옵션")
    ensures r.Some? ==> forall k :: 0 <= k < r.value ==> !Contains(cols[k], "옵션")
    ensures r.None? ==> forall k :: 0 <= k < |cols| ==> !Contains(cols[k], "옵션")
  {
    if cols == [] then None
    else if Contains(cols[0], "옵션") then Some(0)
    else match FindOptionColumn(cols[1..])
      case None => None
      case Some(k) => Some(k + 1)
  }

  // ----- adding columns -----

  /** `if name not in df.columns: df[name] = None`. */
  function AddIfMissing(f: Frame, name: string): (r: Frame)
    requires WellFormed(f)
    ensures WellFormed(r)
  {
    if name in f.columns then f else SetConstant(f, name, Null)
  }

  /** The frame after the missing columns of `names` are added in turn. */
  function WithColumns(f: Frame, names: seq<string>): (r: Frame)
    requires WellFormed(f)
    ensures WellFormed(r)
  {
    if names == [] then f else AddIfMissing(WithColumns(f, names[..|names| - 1]), names[|names| - 1])
  }

  /**
   * `r` is `f` with columns appended: existing names, index labels and cells stay as they
   * were, and each new column is one of `names`, absent from `f`, and holds None throughout.
   */
  predicate AppendsColumns(f: Frame, r: Frame, names: seq<string>) {
    |r.columns| >= |f.columns| && r.columns[..|f.columns|] == f.columns &&
    r.index == f.index && |r.rows| == |f.rows| &&
    (forall i :: 0 <= i < |f.rows| ==> |r.rows[i]| >= |f.columns| && r.rows[i][..|f.columns|] == f.rows[i]) &&
    (forall i, j :: 0 <= i < |r.rows| && |f.columns| <= j < |r.rows[i]| ==> r.rows[i][j] == Null) &&
    (forall j :: |f.columns| <= j < |r.columns| ==> r.columns[j] in names && r.columns[j] !in f.columns)
  }

  lemma AddIfMissingAppends(f: Frame, name: string)
    requires WellFormed(f)
    ensures AppendsColumns(f, AddIfMissing(f, name), [name])
    ensures name in AddIfMissing(f, name).columns
  {
    var r := AddIfMissing(f, name);
    if name !in f.columns {
      assert r.columns == f.columns + [name];
      assert r.columns[..|f.columns|] == f.columns;
      forall i | 0 <= i < |f.rows|
        ensures r.rows[i][..|f.columns|] == f.rows[i]
      {
        assert r.rows[i] == f.rows[i] + [Null];
      }
    } else {
      assert r.columns[..|f.columns|] == f.columns;
      forall i | 0 <= i < |f.rows|
        ensures r.rows[i][..|f.columns|] == f.rows[i]
      {
        assert r.rows[i][..|f.columns|] == r.rows[i];
      }
    }
  }

  lemma AppendsColumnsTrans(f: Frame, p: Frame, r: Frame, ns: seq<string>, n: string)
    requires WellFormed(f) && WellFormed(p) && WellFormed(r)
    requires AppendsColumns(f, p, ns) && AppendsColumns(p, r, [n])
    ensures AppendsColumns(f, r, ns + [n])
  {
    assert r.columns[..|f.columns|] == p.columns[..|p.columns|][..|f.columns|];
    forall i | 0 <= i < |f.rows|
      ensures r.rows[i][..|f.columns|] == f.rows[i]
    {
      assert r.rows[i][..|f.columns|] == r.rows[i][..|p.columns|][..|f.columns|];
    }
    forall i, j | 0 <= i < |r.rows| && |f.columns| <= j < |r.rows[i]|
      ensures r.rows[i][j] == Null
    {
      if j < |p.columns| {
        assert r.rows[i][j] == r.rows[i][..|p.columns|][j];
      }
    }
    forall j | |f.columns| <= j < |r.columns|
      ensures r.columns[j] in ns + [n] && r.columns[j] !in f.columns
    {
      if j < |p.columns| {
        assert r.columns[j] == p.columns[j];
      } else {
        assert r.columns[j] !in p.columns;
        assert f.columns == p.columns[..|f.columns|];
      }
    }
  }

  /**
   * Adding missing columns only appends columns, each of them one of the requested names
   * and empty, and afterwards every requested name is present.
   */
  lemma WithColumnsOnlyAppends(f: Frame, names: seq<string>)
    requires WellFormed(f)
    ensures AppendsColumns(f, WithColumns(f, names), names)
    ensures forall n :: n in names ==> n in WithColumns(f, names).columns
  {
    WithColumnsAppendsOnly(f, names);
    WithColumnsHasNames(f, names);
  }

  lemma {:induction false} WithColumnsAppendsOnly(f: Frame, names: seq<string>)
    requires WellFormed(f)
    ensures AppendsColumns(f, WithColumns(f, names), names)
  {
    if names == [] {
      AppendsNothing(f);
    } else {
      var init := names[..|names| - 1];
      var last := names[|names| - 1];
      WithColumnsAppendsOnly(f, init);
      var p := WithColumns(f, init);
      AddIfMissingAppends(p, last);
      AppendsColumnsTrans(f, p, AddIfMissing(p, last), init, last);
      assert init + [last] == names;
    }
  }

  lemma AppendsNothing(f: Frame)
    requires WellFormed(f)
    ensures AppendsColumns(f, f, [])
  {
    assert f.columns[..|f.columns|] == f.columns;
    forall i | 0 <= i < |f.rows|
      ensures f.rows[i][..|f.columns|] == f.rows[i]
    {
      assert f.rows[i][..|f.columns|] == f.rows[i];
    }
  }

  lemma {:induction false} WithColumnsHasNames(f: Frame, names: seq<string>)
    requires WellFormed(f)
    ensures forall n :: n in names ==> n in WithColumns(f, names).columns
  {
    if names != [] {
      var init := names[..|names| - 1];
      var last := names[|names| - 1];
      WithColumnsHasNames(f, init);
      var p := WithColumns(f, init);
      AddIfMissingAppends(p, last);
      forall n | n in names
        ensures n in WithColumns(f, names).columns
      {
        if n != last {
          assert n in init;
          KeptColumn(p, AddIfMissing(p, last), n);
        }
      }
    }
  }

  lemma KeptColumn(p: Frame, r: Frame, n: string)
    requires |r.columns| >= |p.columns| && r.columns[..|p.columns|] == p.columns && n in p.columns
    ensures n in r.columns
  {
    var k :| 0 <= k < |p.columns| && p.columns[k] == n;
    assert r.columns[k] == r.columns[..|p.columns|][k];
  }

  /** Adds the missing columns of `names`, one after another, as the source's loop does. */
  method AddMissingColumns(f: Frame, names: seq<string>) returns (r: Frame)
    requires WellFormed(f)
    ensures r == WithColumns(f, names)
  {
    r := f;
    for k := 0 to |names|
      invariant r == WithColumns(f, names[..k])
    {
      assert names[..k + 1][..k] == names[..k];
      if names[k] !in r.columns {
        r := SetConstant(r, names[k], Null);
      }
    }
    assert names[..|names|] == names;
  }

  // ----- writing a table to a fresh sheet -----

  /** The header row a table is written with: its column names as text cells. */
  function HeaderCells(columns: seq<string>): (row: seq<Cell>)
    ensures |row| == |columns| && forall c :: 0 <= c < |row| ==> row[c] == Text(columns[c])
  {
    seq(|columns|, c requires 0 <= c < |columns| => Text(columns[c]))
  }

  /** `ws.append(list(df.columns))` followed by one `ws.append(row)` per row. */
  function SheetRows(f: Frame): seq<seq<Cell>> {
    [HeaderCells(f.columns)] + f.rows
  }

  lemma {:induction false} GridOfRowsWidth(rows: seq<seq<Cell>>, n: nat)
    requires forall i :: 0 <= i < |rows| ==> |rows[i]| == n
    ensures GridOfRows(rows).cols == if rows == [] then 0 else n
  {
    if rows != [] {
      GridOfRowsWidth(rows[..|rows| - 1], n);
    }
  }

  /**
   * A table with at least one column, written to a fresh sheet, reads back as the same
   * columns and rows; only the index labels start again from 0.
   */
  lemma WrittenSheetReadsBack(f: Frame)
    requires WellFormed(f) && |f.columns| >= 1
    ensures RawFrame(GridOfRows(SheetRows(f))) == Frame(f.columns, f.rows, seq(|f.rows|, i => i))
  {
    var rows := SheetRows(f);
    var g := GridOfRows(rows);
    WrittenHeader(f, rows, g);
    var r := RawFrame(g);
    forall i | 0 <= i < |f.rows|
      ensures r.rows[i] == f.rows[i]
    {
      WrittenRow(f, rows, g, i);
    }
    assert r.rows == f.rows;
    assert r.index == seq(|f.rows|, i => i);
  }

  lemma WrittenHeader(f: Frame, rows: seq<seq<Cell>>, g: Grid)
    requires WellFormed(f) && |f.columns| >= 1 && rows == SheetRows(f) && g == GridOfRows(rows)
    ensures MaxColumn(g) == |f.columns| && MaxRow(g) == |f.rows| + 1
    ensures RawFrame(g).columns == f.columns
  {
    GridOfRowsWidth(rows, |f.columns|);
    forall c | 0 <= c < |f.columns|
      ensures HeaderName(Get(g, 1, c + 1)) == f.columns[c]
    {
      HeaderCellAt(rows, g, f.columns, c);
    }
    HeaderNamesOf(g, f.columns);
  }

  lemma HeaderCellAt(rows: seq<seq<Cell>>, g: Grid, columns: seq<string>, c: nat)
    requires rows != [] && rows[0] == HeaderCells(columns) && g == GridOfRows(rows) && c < |columns|
    ensures Get(g, 1, c + 1) == Text(columns[c])
  {
    GetGridOfRows(rows, 1, c + 1);
  }

  lemma HeaderNamesOf(g: Grid, names: seq<string>)
    requires |names| == MaxColumn(g) && forall c :: 0 <= c < |names| ==> HeaderName(Get(g, 1, c + 1)) == names[c]
    ensures RawFrame(g).columns == names
  {
  }

  lemma WrittenRow(f: Frame, rows: seq<seq<Cell>>, g: Grid, i: nat)
    requires WellFormed(f) && |f.columns| >= 1 && rows == SheetRows(f) && g == GridOfRows(rows)
    requires MaxColumn(g) == |f.columns| && MaxRow(g) == |f.rows| + 1 && i < |f.rows|
    ensures RawFrame(g).rows[i] == f.rows[i]
  {
    var row := rows[i + 1];
    assert row == f.rows[i];
    forall c | 0 <= c < |row|
      ensures Get(g, i + 2, c + 1) == row[c]
    {
      GetGridOfRows(rows, i + 2, c + 1);
    }
    RowCellsOf(g, i + 2, row);
  }

  lemma RowCellsOf(g: Grid, r: int, row: seq<Cell>)
    requires |row| == MaxColumn(g) && forall c :: 0 <= c < |row| ==> Get(g, r, c + 1) == row[c]
    ensures RowCells(g, r) == row
  {
  }

  /** Appends `rows` to `ws` one by one. */
  method AppendRows(ws: Worksheet, rows: seq<seq<Cell>>)
    requires ws.grid == EmptyGrid
    modifies ws
    ensures ws.grid == GridOfRows(rows)
  {
    for k := 0 to |rows|
      invariant ws.grid == GridOfRows(rows[..k])
    {
      assert rows[..k + 1][..k] == rows[..k];
      ws.Append(rows[k]);
    }
    assert rows[..|rows|] == rows;
  }
}
