/**
 * The openpyxl-based handler: a workbook, the worksheet currently worked on, and the
 * filtering step that copies the delivery rows of the worksheet to a new sheet, repairing
 * the quantity column and adding the delivery columns on the way.
 */
module PyxlHandler {

  import opened Wrappers
  import opened Text
  import opened Calendar
  import opened TimeFormat
  import opened Cells
  import opened SerialCodec
  import opened Sheets
  import opened OptionFilter

  /** The sheet `read_excel_basic` prefers. */
  const TargetSheet := "상품 주문 상세내역"

  /** The nine columns the delivery service needs, in the order they are added. */
  const DeliveryColumns: seq<string> :=
    ["수하인명", "수하인주소", "수하인전화번호", "수하인핸드폰번호", "박스수량", "택배운임", "운임구분", "품목명", "배송메세지"]

  const QuantityColumn := "수량"

  // ----- _fix_qty -----

  /** At least ten characters with '-' at positions 4 and 7, the shape of "YYYY-MM-DD". */
  predicate LooksLikeDate(s: string) {
    |s| >= 10 && s[4] == '-' && s[7] == '-'
  }

  /**
   * The date a date-shaped text parses to: its first 19 characters as "%Y-%m-%d %H:%M:%S"
   * when it holds a blank, otherwise its first 10 as "%Y-%m-%d"; None when that fails.
   */
  function DateLikeValue(s: string): (r: Option<DateTime>)
    ensures r.Some? ==> LooksLikeDate(s) && ValidDateTime(r.value) && r.value.micro == 0
  {
    if !LooksLikeDate(s) then None
    else if ' ' in s then StrptimeDateTime(s[..if |s| < 19 then |s| else 19])
    else StrptimeDate(s[..10])
  }

  /** A text with the thousands separators removed, read as a float. */
  function NumericText(s: string): Option<real> {
    ParseFloat(Remove(s, ','))
  }

  /**
   * `_fix_qty`: blanks become "", numbers become an int when whole, date-times and
   * date-shaped texts become their serial, numeric texts become numbers, and anything
   * else is returned unchanged.
   */
  function FixQty(v: Cell): (r: Cell)
    ensures v.Null? || v == Text("") ==> r == Text("")
    ensures IsNumber(v) ==> IsNumber(r) && NumberValue(r) == NumberValue(v) && (r.Int? <==> IsWhole(NumberValue(v)))
    ensures v.NaN? ==> r == NaN
    ensures v.Stamp? ==> r == DtToSerialAsWritten(v.t)
    ensures v.Text? && DateLikeValue(v.s).Some? ==> r == DtToSerialAsWritten(DateLikeValue(v.s).value)
    ensures v.Text? && v.s != "" && DateLikeValue(v.s).None? && NumericText(v.s).Some? ==>
      IsNumber(r) && NumberValue(r) == NumericText(v.s).value
    ensures v.Text? && v.s != "" && DateLikeValue(v.s).None? && NumericText(v.s).None? ==> r == v
  {
    match v
    case Null => Text("")
    case NaN => NaN
    case Int(_) => v
    case Float(x) => Number(x)
    case Stamp(t) => DtToSerialAsWritten(t)
    case Text(s) =>
      if s == "" then Text("")
      else match DateLikeValue(s)
        case Some(t) => DtToSerialAsWritten(t)
        case None =>
          match NumericText(s)
          case Some(x) => Number(x)
          case None => v
  }

  /** Repairing a repaired quantity changes nothing. */
  lemma FixQtyIdempotent(v: Cell)
    ensures FixQty(FixQty(v)) == FixQty(v)
  {
    var r := FixQty(v);
    if r.Int? {
      assert IsWhole(r.i as real);
    } else if r.Float? {
      assert FixQty(r) == Number(r.x);
      if v.Float? {
        assert !IsWhole(v.x);
      } else if v.Text? {
        assert !IsWhole(r.x);
      }
    }
  }

  /** The decimal text of an int is read back as that int. */
  lemma FixQtyOfIntText(n: int)
    ensures FixQty(Text(IntToString(n))) == Int(n)
  {
    var s := IntToString(n);
    IntTextShape(n);
    assert DateLikeValue(s) == None;
    IntTextNumeric(n);
    assert Number(n as real) == Int(n);
  }

  lemma IntTextNumeric(n: int)
    requires ',' !in IntToString(n)
    ensures NumericText(IntToString(n)) == Some(n as real)
  {
    RemoveAbsent(IntToString(n), ',');
    ParseFloatOfIntToString(n);
  }

  lemma IntTextShape(n: int)
    ensures !LooksLikeDate(IntToString(n)) && ',' !in IntToString(n) && '.' !in IntToString(n)
  {
    var s := IntToString(n);
    var d := NatToString(if n < 0 then -n else n);
    assert s == (if n < 0 then "-" else "") + d;
    if |s| > 4 {
      assert s[4] == d[if n < 0 then 3 else 4];
    }
    forall k | 0 <= k < |s|
      ensures s[k] != ',' && s[k] != '.'
    {
      if n >= 0 || k > 0 {
        assert s[k] == d[k - (if n < 0 then 1 else 0)];
      }
    }
  }

  lemma DateTextShape(d: Date)
    requires ValidDate(d)
    ensures |DateText(d)| == 10 && DateText(d)[4] == '-' && DateText(d)[7] == '-'
    ensures ' ' !in DateText(d)
  {
    var s := DateText(d);
    var y, m, dd := ZeroPad(d.year, 4), ZeroPad(d.month, 2), ZeroPad(d.day, 2);
    ZeroPadWidth(d.year, 4);
    TwoDigitFields(d.month);
    TwoDigitFields(d.day);
    assert s == y + "-" + m + "-" + dd;
    forall k | 0 <= k < |s|
      ensures s[k] != ' '
    {
      if k < 4 {
        assert s[k] == y[k];
      } else if 4 < k < 7 {
        assert s[k] == m[k - 5];
      } else if 7 < k {
        assert s[k] == dd[k - 8];
      }
    }
  }

  /**
   * The display texts the matcher writes into the date columns read back as serials: the
   * date-only text as its midnight, the full text as the date-time less its microseconds.
   * On whole seconds the truncation in the conversion never applies, so these are also
   * the serials of the corrected conversion.
   */
  lemma FixQtyOfDisplayText(t: DateTime)
    requires ValidDateTime(t)
    ensures FixQty(Text(Strftime(t, false))) == DtToSerialAsWritten(Midnight(t.date)) == DtToSerial(Midnight(t.date))
    ensures FixQty(Text(Strftime(t, true))) == DtToSerialAsWritten(t.(micro := 0)) == DtToSerial(t.(micro := 0))
  {
    FixQtyOfDateOnlyText(t);
    FixQtyOfFullText(t);
    DtToSerialWholeSeconds(Midnight(t.date));
    DtToSerialWholeSeconds(t.(micro := 0));
  }

  lemma FixQtyOfDateOnlyText(t: DateTime)
    requires ValidDateTime(t)
    ensures FixQty(Text(Strftime(t, false))) == DtToSerialAsWritten(Midnight(t.date))
  {
    var d := Strftime(t, false);
    DateTextShape(t.date);
    assert d[..10] == d;
    StrptimeDateOfStrftime(t);
    assert DateLikeValue(d) == Some(Midnight(t.date));
  }

  lemma FixQtyOfFullText(t: DateTime)
    requires ValidDateTime(t)
    ensures FixQty(Text(Strftime(t, true))) == DtToSerialAsWritten(t.(micro := 0))
  {
    var full := Strftime(t, true);
    DateTextShape(t.date);
    StrftimeScansClock(t);
    assert full[..10] == DateText(t.date);
    assert full[4] == '-' && full[7] == '-';
    assert full[..19] == full;
    StrptimeDateTimeOfStrftime(t);
    assert DateLikeValue(full) == Some(t.(micro := 0));
  }

  /**
   * The quantity repair keeps the truncation of the serial conversion: a date-time fifty
   * microseconds before midnight becomes the serial of the midnight that began its day.
   */
  lemma FixQtyTruncates()
    ensures FixQty(Stamp(JustBeforeMidnight)) == Int(45870)
    ensures DtToSerial(JustBeforeMidnight) == Int(45871)
  {
    DtToSerialAsWrittenTruncates();
  }

  // ----- the filtering pipeline as a function of the worksheet -----

  /** `filtered["수량"] = filtered["수량"].map(_fix_qty)` when the column exists. */
  function FixQuantityColumn(f: Frame): (r: Frame)
    requires WellFormed(f)
    ensures WellFormed(r) && r.columns == f.columns && r.index == f.index && |r.rows| == |f.rows|
    ensures ColumnIndex(f.columns, QuantityColumn).None? ==> r == f
    ensures ColumnIndex(f.columns, QuantityColumn).Some? ==>
      var j := ColumnIndex(f.columns, QuantityColumn).value;
      forall i :: 0 <= i < |f.rows| ==> r.rows[i] == f.rows[i][j := FixQty(f.rows[i][j])]
  {
    match ColumnIndex(f.columns, QuantityColumn)
    case None => f
    case Some(j) =>
      SetColumn(f, QuantityColumn, seq(|f.rows|, i requires 0 <= i < |f.rows| => FixQty(f.rows[i][j])))
  }

  /** `filtered[c] = val` for each extra column in turn. */
  function WithExtras(f: Frame, extra: seq<(string, Cell)>): (r: Frame)
    requires WellFormed(f)
    ensures WellFormed(r) && r.index == f.index && |r.rows| == |f.rows|
  {
    if extra == [] then f
    else
      var last := extra[|extra| - 1];
      SetConstant(WithExtras(f, extra[..|extra| - 1]), last.0, last.1)
  }

  /**
   * The table `filter_to_new_sheet_raw` writes for worksheet grid `g`, or the error it
   * raises: ValueError for a sheet without data rows, KeyError without an option column
   * or without keywords.
   */
  function FilteredTable(g: Grid, keywords: seq<string>, all: bool, extra: seq<(string, Cell)>): (r: Result<Frame>)
    ensures r.Ok? ==> WellFormed(r.value)
  {
    var f := RawFrame(g);
    if IsEmpty(f) then Err(ValueError)
    else match FindOptionColumn(f.columns)
      case None => Err(KeyError)
      case Some(j) =>
        if keywords == [] then Err(KeyError)
        else Ok(WithColumns(WithExtras(FixQuantityColumn(KeywordFilter(f, j, keywords, all)), extra), DeliveryColumns))
  }

  /**
   * The error cases of the filter, and on success the rows of the table: the kept rows of
   * the sheet, in order, each with at least the sheet's columns, which keep their values
   * except the quantity, and every delivery column present.
   */
  lemma FilteredTableShape(g: Grid, keywords: seq<string>, all: bool, extra: seq<(string, Cell)>)
    ensures var f := RawFrame(g);
      var r := FilteredTable(g, keywords, all, extra);
      (IsEmpty(f) ==> r == Err(ValueError)) &&
      (!IsEmpty(f) && FindOptionColumn(f.columns).None? ==> r == Err(KeyError)) &&
      (!IsEmpty(f) && FindOptionColumn(f.columns).Some? && keywords == [] ==> r == Err(KeyError)) &&
      (!IsEmpty(f) && FindOptionColumn(f.columns).Some? && keywords != [] ==> r.Ok?)
    ensures FilteredTable(g, keywords, all, extra).Ok? ==>
      var f := RawFrame(g);
      var j := FindOptionColumn(f.columns).value;
      var kept := KeywordFilter(f, j, keywords, all);
      var r := FilteredTable(g, keywords, all, extra).value;
      |r.rows| == |kept.rows| && r.index == kept.index &&
      (forall n :: n in DeliveryColumns ==> n in r.columns) &&
      (forall n :: n in f.columns ==> n in r.columns)
  {
    var f := RawFrame(g);
    if FilteredTable(g, keywords, all, extra).Ok? {
      var j := FindOptionColumn(f.columns).value;
      var kept := KeywordFilter(f, j, keywords, all);
      var fixed := FixQuantityColumn(kept);
      var ext := WithExtras(fixed, extra);
      WithExtrasKeepsColumns(fixed, extra);
      WithColumnsOnlyAppends(ext, DeliveryColumns);
      var r := WithColumns(ext, DeliveryColumns);
      forall n | n in f.columns
        ensures n in r.columns
      {
        var k :| 0 <= k < |f.columns| && f.columns[k] == n;
        assert ext.columns[k] == n;
        assert r.columns[..|ext.columns|] == ext.columns;
        assert r.columns[k] == n;
      }
    }
  }

  /** Extra columns never drop a column: the old names stay in front. */
  lemma {:induction false} WithExtrasKeepsColumns(f: Frame, extra: seq<(string, Cell)>)
    requires WellFormed(f)
    ensures |WithExtras(f, extra).columns| >= |f.columns|
    ensures WithExtras(f, extra).columns[..|f.columns|] == f.columns
  {
    if extra != [] {
      var p := WithExtras(f, extra[..|extra| - 1]);
      WithExtrasKeepsColumns(f, extra[..|extra| - 1]);
      var last := extra[|extra| - 1];
      var r := SetConstant(p, last.0, last.1);
      assert |r.columns| >= |p.columns|;
      assert r.columns[..|p.columns|] == p.columns;
      assert r.columns[..|f.columns|] == p.columns[..|f.columns|];
    }
  }

  /** Every extra column holds its constant, unless a later extra column of the same name overwrote it. */
  lemma {:induction false} WithExtrasValues(f: Frame, extra: seq<(string, Cell)>, k: nat)
    requires WellFormed(f) && k < |extra|
    requires forall m :: k < m < |extra| ==> extra[m].0 != extra[k].0
    ensures var r := WithExtras(f, extra);
      extra[k].0 in r.columns &&
      forall i :: 0 <= i < |r.rows| ==> r.rows[i][ColumnIndex(r.columns, extra[k].0).value] == extra[k].1
  {
    var init := extra[..|extra| - 1];
    var p := WithExtras(f, init);
    var last := extra[|extra| - 1];
    var r := SetConstant(p, last.0, last.1);
    if k < |extra| - 1 {
      WithExtrasValues(f, init, k);
      var name := extra[k].0;
      var jp := ColumnIndex(p.columns, name).value;
      assert name != last.0;
      SetColumnOther(p, last.0, seq(|p.rows|, _ => last.1), name);
    }
  }

  // ----- the handler -----

  class ExcelHandlerPyXL {
    var workbook: Workbook?
    var worksheet: Worksheet?

    /** A handler before `read_excel_basic`: no workbook, no worksheet. */
    constructor ()
      ensures workbook == null && worksheet == null
    {
      workbook := null;
      worksheet := null;
    }

    /**
     * The sheet selection of `read_excel_basic` once the workbook is loaded: the target
     * sheet when there is one, else the first sheet; a workbook without sheets fails
     * (IndexError, reported as False) after the workbook is already stored.
     */
    method SelectSheet(wb: Workbook) returns (ok: bool)
      modifies this
      ensures workbook == wb
      ensures TargetSheet in wb.SheetNames() ==> ok && worksheet != null && worksheet in wb.sheets && worksheet.title == TargetSheet
      ensures TargetSheet !in wb.SheetNames() && wb.sheets != [] ==> ok && worksheet == wb.sheets[0]
      ensures wb.sheets == [] ==> !ok && worksheet == old(worksheet)
    {
      workbook := wb;
      match ColumnIndex(wb.SheetNames(), TargetSheet)
      case Some(k) =>
        worksheet := wb.sheets[k];
        return true;
      case None =>
        if wb.sheets == [] {
          return false;
        }
        worksheet := wb.sheets[0];
        return true;
    }

    /**
     * `switch_to_sheet`: without a workbook, or without a sheet of that name, False and
     * nothing changes; otherwise the worksheet becomes the sheet of that name.
     */
    method SwitchToSheet(name: string) returns (ok: bool)
      modifies this
      ensures workbook == old(workbook)
      ensures ok <==> workbook != null && name in workbook.SheetNames()
      ensures !ok ==> worksheet == old(worksheet)
      ensures ok ==> worksheet != null && worksheet in workbook.sheets && worksheet.title == name
    {
      if workbook == null {
        return false;
      }
      match ColumnIndex(workbook.SheetNames(), name)
      case None =>
        return false;
      case Some(k) =>
        worksheet := workbook.sheets[k];
        return true;
    }

    /**
     * `add_delivery_columns_to_df`: adds each delivery column that is missing, as None,
     * leaving the existing columns and their values as they were.
     */
    method AddDeliveryColumnsToDf(df: Frame) returns (r: Frame)
      requires WellFormed(df)
      ensures r == WithColumns(df, DeliveryColumns)
      ensures AppendsColumns(df, r, DeliveryColumns)
      ensures forall n :: n in DeliveryColumns ==> n in r.columns
    {
      r := AddMissingColumns(df, DeliveryColumns);
      WithColumnsOnlyAppends(df, DeliveryColumns);
    }

    /**
     * The table-building part of `filter_to_new_sheet_raw`, on the worksheet's grid: read
     * the sheet, find the option column, build the keyword mask, select, repair the
     * quantity, set the extra columns and add the delivery columns.
     */
    method BuildFilteredTable(g: Grid, keywords: seq<string>, mode: string, extra: seq<(string, Cell)>)
      returns (r: Result<Frame>)
      ensures r == FilteredTable(g, keywords, mode == "all", extra)
    {
      var df := RawFrame(g);
      if IsEmpty(df) {
        return Err(ValueError);
      }
      var optionCol := FindOptionColumn(df.columns);
      if optionCol.None? {
        return Err(KeyError);
      }
      var j := optionCol.value;
      var mask := KeywordMask(OptionTexts(df, j), keywords, mode);
      if mask.Err? {
        return Err(mask.error);
      }
      var filtered := Select(df, mask.value);
      assert filtered == KeywordFilter(df, j, keywords, mode == "all");
      filtered := FixQuantityColumn(filtered);
      ghost var fixed := filtered;
      for e := 0 to |extra|
        invariant WellFormed(filtered)
        invariant filtered == WithExtras(fixed, extra[..e])
      {
        assert extra[..e + 1][..e] == extra[..e];
        filtered := SetConstant(filtered, extra[e].0, extra[e].1);
      }
      assert extra[..|extra|] == extra;
      filtered := AddDeliveryColumnsToDf(filtered);
      return Ok(filtered);
    }

    /**
     * `filter_to_new_sheet_raw` up to the save: RuntimeError without a workbook or
     * worksheet; otherwise the table `FilteredTable` describes, written as a new last sheet
     * in place of any sheet of the same name. On an error the workbook is left as it was.
     */
    method FilterToNewSheetRaw(keywords: seq<string>, newSheetName: string, mode: string,
                               extra: seq<(string, Cell)>) returns (r: Result<Frame>)
      requires workbook != null ==> workbook.Valid()
      modifies workbook
      ensures workbook == null || worksheet == null ==> r == Err(RuntimeError)
      ensures workbook != null && worksheet != null ==>
        r == FilteredTable(old(worksheet.grid), keywords, mode == "all", extra)
      ensures r.Err? && workbook != null ==> workbook.sheets == old(workbook.sheets)
      ensures r.Ok? ==> workbook != null && workbook.Valid() && |workbook.sheets| >= 1
      ensures r.Ok? ==>
        var ws := workbook.sheets[|workbook.sheets| - 1];
        workbook.sheets == WithoutTitle(old(workbook.sheets), newSheetName) + [ws] &&
        fresh(ws) && ws.title == newSheetName && ws.grid == GridOfRows(SheetRows(r.value))
    {
      if workbook == null || worksheet == null {
        return Err(RuntimeError);
      }
      r := BuildFilteredTable(worksheet.grid, keywords, mode, extra);
      if r.Err? {
        return;
      }
      var ws := workbook.ReplaceSheet(newSheetName, SheetRows(r.value));
    }
  }
}
