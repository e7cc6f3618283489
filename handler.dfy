/**
 * The pandas-based handler: a loaded table `df`, the repairs applied to its date and
 * quantity columns, and the same option filtering and delivery columns as the openpyxl
 * handler. Its serial arithmetic is whole days only.
 */
module DfHandler {

  import opened Wrappers
  import opened Text
  import opened Calendar
  import opened TimeFormat
  import opened Cells
  import opened SerialCodec
  import opened Sheets
  import opened OptionFilter
  import PyxlHandler

  const DateColumns: seq<string> := ["주문기준일자", "주문시작시각"]

  // ----- _parse_date_prefix -----

  /** The stripped text starts with four digits, '-', two digits, '-', two digits. */
  predicate HasDatePrefix(t: string) {
    |t| >= 10 && AllDigits(t[..4]) && t[4] == '-' && AllDigits(t[5..7]) && t[7] == '-' && AllDigits(t[8..10])
  }

  /** The three numbers of a date prefix. */
  function PrefixDate(t: string): Date
    requires HasDatePrefix(t)
  {
    Date(Value(t[..4]), Value(t[5..7]), Value(t[8..10]))
  }

  /**
   * `_parse_date_prefix`: the leading "YYYY-MM-DD" of the stripped text as a midnight,
   * ignoring whatever follows; None without such a prefix or when it is not a calendar date.
   */
  function ParseDatePrefix(s: string): (r: Option<DateTime>)
    ensures r.Some? <==> HasDatePrefix(Strip(s)) && ValidDate(PrefixDate(Strip(s)))
    ensures r.Some? ==> ValidDateTime(r.value) && r.value == Midnight(PrefixDate(Strip(s)))
  {
    var t := Strip(s);
    if HasDatePrefix(t) && ValidDate(PrefixDate(t)) then Some(Midnight(PrefixDate(t))) else None
  }

  lemma DatePrefixOfDateText(d: Date)
    requires ValidDate(d)
    ensures |DateText(d)| == 10 && HasDatePrefix(DateText(d)) && PrefixDate(DateText(d)) == d
    ensures IsDigit(DateText(d)[0]) && IsDigit(DateText(d)[9])
  {
    var s := DateText(d);
    var y, m, dd := ZeroPad(d.year, 4), ZeroPad(d.month, 2), ZeroPad(d.day, 2);
    ZeroPadWidth(d.year, 4);
    ValueOfZeroPad(d.year, 4);
    TwoDigitFields(d.month);
    TwoDigitFields(d.day);
    assert s == y + "-" + m + "-" + dd;
    assert s[..4] == y && s[5..7] == m && s[8..10] == dd;
    assert s[0] == y[0] && s[9] == dd[1];
  }

  /** The date text of any date, followed by anything that does not end in whitespace, is read back as that date. */
  lemma ParseDatePrefixOfDateText(d: Date, rest: string)
    requires ValidDate(d)
    requires rest == [] || !IsSpace(rest[|rest| - 1])
    ensures ParseDatePrefix(DateText(d) + rest) == Some(Midnight(d))
  {
    var t := DateText(d);
    var s := t + rest;
    DatePrefixOfDateText(d);
    assert s[..4] == t[..4] && s[5..7] == t[5..7] && s[8..10] == t[8..10];
    assert s[4] == t[4] && s[7] == t[7];
    assert HasDatePrefix(s) && PrefixDate(s) == d;
    assert !IsSpace(s[0]) by {
      assert s[0] == t[0];
    }
    assert !IsSpace(s[|s| - 1]) by {
      if rest == [] {
        assert s[|s| - 1] == t[9];
      } else {
        assert s[|s| - 1] == rest[|rest| - 1];
      }
    }
    StripOfTrimmed(s);
  }

  /** A month that does not exist (a trimmed prefix whose month is past 12) gives None, not an error. */
  lemma InvalidMonthPrefix(t: string)
    requires HasDatePrefix(t) && !IsSpace(t[0]) && !IsSpace(t[|t| - 1])
    requires Value(t[5..7]) > 12
    ensures ParseDatePrefix(t) == None
  {
    StripOfTrimmed(t);
  }

  // ----- _excel_serial_from_datetime -----

  /**
   * `_excel_serial_from_datetime`: whole days since 1899-12-30, one fewer from 1900-01-01
   * up to 1900-03-01.
   */
  function ExcelSerialFromDatetime(t: DateTime): (n: int)
    requires ValidDateTime(t)
    ensures n == DayNumber(t.date) - EpochDay - (if InLeapBugWindow(t) then 1 else 0)
  {
    var serial := DaysSinceEpoch(t);
    if InLeapBugWindow(t) then serial - 1 else serial
  }

  /**
   * The whole-day serial is the integer part of the openpyxl handler's serial, and at
   * midnight the two handlers agree.
   */
  lemma ExcelSerialIsWholePart(t: DateTime)
    requires ValidDateTime(t)
    ensures ExcelSerialFromDatetime(t) == RawSerial(t).Floor
    ensures TimeOfDay(t) == 0 ==> PyxlHandler.FixQty(Stamp(t)) == Int(ExcelSerialFromDatetime(t))
  {
    var n := ExcelSerialFromDatetime(t);
    TimeOfDayBounds(t);
    var frac := TimeOfDay(t) as real / MicrosPerDay as real;
    assert 0.0 <= frac < 1.0;
    assert RawSerial(t) == n as real + frac;
    if TimeOfDay(t) == 0 {
      NearWholeOfFraction(n, 0);
      assert RawSerial(t) == n as real + 0 as real / MicrosPerDay as real;
    }
  }

  /** Outside the leap-bug window, the serial of a date converts back to that date's midnight. */
  lemma ExcelSerialRoundTrip(t: DateTime)
    requires ValidDateTime(t) && !InLeapBugWindow(t)
    ensures SerialToDateTime(ExcelSerialFromDatetime(t) as real) == Ok(Midnight(t.date))
  {
    var n := ExcelSerialFromDatetime(t);
    DayNumberBounds(t.date);
    SerialOfWholeDay(n);
    FromDayNumberOfDayNumber(t.date);
  }

  // ----- convert_excel_serial_to_date -----

  /** 1900-01-01, the base `convert_excel_serial_to_date` counts from. */
  const Base1900 := Midnight(Date(1900, 1, 1))

  /**
   * `datetime(1900, 1, 1) + timedelta(days=x - 2)`; OverflowError outside years 1..9999.
   */
  function From1900(x: real): (r: Result<DateTime>)
    ensures r.Ok? ==> ValidDateTime(r.value)
  {
    EpochDays();
    match AddMicros(Base1900, RoundHalfEven((x - 2.0) * MicrosPerDay as real))
    case None => Err(OverflowError)
    case Some(t) => Ok(t)
  }

  lemma {:induction false} RoundHalfEvenShift(x: real, n: int)
    requires n % 2 == 0
    ensures RoundHalfEven(x + n as real) == RoundHalfEven(x) + n
  {
    var f := x.Floor;
    assert (x + n as real).Floor == f + n;
    assert (f + n) % 2 == f % 2;
  }

  /** Counting from 1900-01-01 less two days is the serial codec's count from 1899-12-30. */
  lemma From1900IsSerialCodec(x: real)
    ensures From1900(x) == SerialToDateTime(x)
  {
    EpochDays();
    var k := RoundHalfEven((x - 2.0) * MicrosPerDay as real);
    FromBaseShift(x);
    assert Instant(Base1900) == EpochMicros + 2 * MicrosPerDay;
    var a := AddMicros(Base1900, k);
    var b := SerialToDateTime(x);
    assert a.Some? <==> b.Ok?;
    if a.Some? {
      InstantInjective(a.value, b.value);
    }
  }

  /** Two days earlier in the count is two days' microseconds fewer after rounding. */
  lemma FromBaseShift(x: real)
    ensures RoundHalfEven((x - 2.0) * MicrosPerDay as real) + 2 * MicrosPerDay == SerialMicros(x)
  {
    var m := (x - 2.0) * MicrosPerDay as real;
    assert x * MicrosPerDay as real == m + (2 * MicrosPerDay) as real;
    RoundHalfEvenShift(m, 2 * MicrosPerDay);
  }

  /**
   * `convert_excel_serial_to_date`: a falsy value gives "", a value float() rejects gives
   * its str() (NaN, which float() accepts but timedelta rejects, gives "nan"); otherwise
   * 1900-01-01 plus the serial less two days, printed with the time exactly when str() of
   * the value holds a '.'. OverflowError is not caught.
   */
  function ConvertExcelSerialToDate(v: Cell): (r: Result<string>)
    ensures !Truthy(v) ==> r == Ok("")
    ensures Truthy(v) && FloatOf(v).None? ==> r == Ok(Str(v))
    ensures Truthy(v) && FloatOf(v).Some? ==>
      r == SerialToStr(FloatOf(v).value, '.' in Str(v))
  {
    if !Truthy(v) then Ok("")
    else match FloatOf(v)
      case None => Ok(Str(v))
      case Some(x) =>
        From1900IsSerialCodec(x);
        match From1900(x)
        case Err(e) => Err(e)
        case Ok(t) => Ok(Strftime(t, '.' in Str(v)))
  }

  /** An int serial prints as a date only. */
  lemma ConvertIntSerial(n: int)
    requires n != 0
    ensures ConvertExcelSerialToDate(Int(n)) == SerialToStr(n as real, false)
  {
    PyxlHandler.IntTextShape(n);
    assert Str(Int(n)) == IntToString(n);
    assert FloatOf(Int(n)) == Some(n as real);
  }

  /** A float serial that `str()` writes in fixed notation prints as a date and time. */
  lemma ConvertFloatSerial(x: real)
    requires x != 0.0 && FixedNotation(x)
    ensures ConvertExcelSerialToDate(Float(x)) == SerialToStr(x, true)
  {
    assert '.' in Str(Float(x));
    assert FloatOf(Float(x)) == Some(x);
  }

  /**
   * `str(5e-05)` is "5e-05", without a point, so that serial, a few seconds after the
   * epoch, prints as a date only.
   */
  lemma ConvertTinySerial()
    ensures Str(Float(5.0 / 100000.0)) == "5e-05"
    ensures ConvertExcelSerialToDate(Float(5.0 / 100000.0)) == SerialToStr(5.0 / 100000.0, false)
  {
    var x := 5.0 / 100000.0;
    assert !FixedNotation(x);
    assert DownShift(x) == 5 by {
      assert DownShift(5.0) == 0;
      assert DownShift(0.5) == 1;
      assert DownShift(0.05) == 2;
      assert DownShift(0.005) == 3;
      assert DownShift(0.0005) == 4;
    }
    assert Pow10Real(5) == 100000.0 by {
      assert Pow10Real(1) == 10.0;
      assert Pow10Real(2) == 100.0;
    }
    assert x * Pow10Real(5) == 5.0;
    assert Micro6(5.0) == "000000";
    assert TrimZeros("000000") == "";
    assert NatToString(5) == "5";
    assert ZeroPad(5, 2) == "05";
    assert Str(Float(x)) == "5e-05";
    assert '.' !in Str(Float(x));
    assert FloatOf(Float(x)) == Some(x);
  }

  // ----- fix_numeric_column -----

  /**
   * `fix_numeric_column`: blanks become "", numbers become an int when whole, numeric
   * texts (stripped, separators removed) become numbers, date-times and date-prefixed texts
   * of a year up to 1901 become their whole-day serial, and later dates and other texts
   * are returned unchanged.
   */
  function FixNumericColumn(v: Cell): (r: Cell)
    ensures v.Null? || v == Text("") ==> r == Text("")
    ensures IsNumber(v) ==> IsNumber(r) && NumberValue(r) == NumberValue(v) && (r.Int? <==> IsWhole(NumberValue(v)))
    ensures v.NaN? ==> r == NaN
    ensures v.Stamp? && v.t.date.year <= 1901 ==> r == Int(ExcelSerialFromDatetime(v.t))
    ensures v.Stamp? && v.t.date.year > 1901 ==> r == v
    ensures v.Text? && v.s != "" ==>
      match ParseFloat(Remove(Strip(v.s), ','))
      case Some(x) => IsNumber(r) && NumberValue(r) == x
      case None =>
        if ParseDatePrefix(v.s).Some? && ParseDatePrefix(v.s).value.date.year <= 1901
        then r == Int(ExcelSerialFromDatetime(ParseDatePrefix(v.s).value))
        else r == v
  {
    match v
    case Null => Text("")
    case NaN => NaN
    case Int(_) => v
    case Float(x) => Number(x)
    case Stamp(t) => if t.date.year <= 1901 then Int(ExcelSerialFromDatetime(t)) else v
    case Text(s) =>
      if s == "" then Text("")
      else match ParseFloat(Remove(Strip(s), ','))
        case Some(x) => Number(x)
        case None =>
          match ParseDatePrefix(s)
          case Some(dt) => if dt.date.year <= 1901 then Int(ExcelSerialFromDatetime(dt)) else v
          case None => v
  }

  /**
   * A whole serial that a reader turned into a date of 1901 or earlier (outside the
   * leap-bug window) is restored to that serial.
   */
  lemma FixNumericRestoresSerial(d: Date)
    requires ValidDate(d) && d.year <= 1901 && !InLeapBugWindow(Midnight(d))
    ensures var r := FixNumericColumn(Stamp(Midnight(d)));
      r.Int? && SerialToDateTime(r.i as real) == Ok(Midnight(d))
  {
    ExcelSerialRoundTrip(Midnight(d));
  }

  /** Repairing a repaired value changes nothing. */
  lemma FixNumericIdempotent(v: Cell)
    ensures FixNumericColumn(FixNumericColumn(v)) == FixNumericColumn(v)
  {
    var r := FixNumericColumn(v);
    if r.Int? {
      assert IsWhole(r.i as real);
    } else if r.Float? {
      assert FixNumericColumn(r) == Number(r.x);
      if v.Float? {
        assert !IsWhole(v.x);
      } else if v.Text? {
        assert !IsWhole(r.x);
      }
    }
  }

  // ----- whole-column conversions -----

  /** `series.apply(convert_excel_serial_to_date)`: the first error in row order stops it. */
  function ConvertAll(cells: seq<Cell>): (r: Result<seq<Cell>>)
    ensures r.Ok? ==> |r.value| == |cells|
    ensures r.Ok? ==> forall i :: 0 <= i < |cells| ==>
      (ConvertExcelSerialToDate(cells[i]).Ok? && r.value[i] == Text(ConvertExcelSerialToDate(cells[i]).value))
    ensures r.Err? ==> exists i :: 0 <= i < |cells| && ConvertExcelSerialToDate(cells[i]) == Err(r.error)
  {
    ApplyAll(cells, ConvertExcelSerialToDate)
  }

  /** `series.apply(conv)` for a conversion to text that may raise. */
  function ApplyAll(cells: seq<Cell>, conv: Cell -> Result<string>): (r: Result<seq<Cell>>)
    ensures r.Ok? ==> |r.value| == |cells|
    ensures r.Ok? ==> forall i :: 0 <= i < |cells| ==> (conv(cells[i]).Ok? && r.value[i] == Text(conv(cells[i]).value))
    ensures r.Err? ==> exists i :: 0 <= i < |cells| && conv(cells[i]) == Err(r.error)
  {
    if cells == [] then Ok([])
    else match ApplyAll(cells[..|cells| - 1], conv)
      case Err(e) => Err(e)
      case Ok(init) =>
        match conv(cells[|cells| - 1])
        case Err(e) => Err(e)
        case Ok(s) => Ok(init + [Text(s)])
  }

  /** `df[col] = df[col].apply(convert_excel_serial_to_date)` when the column exists. */
  function ConvertDateColumn(f: Frame, name: string): (r: Result<Frame>)
    requires WellFormed(f)
    ensures r.Ok? ==> WellFormed(r.value) && r.value.columns == f.columns && r.value.index == f.index
  {
    match ColumnIndex(f.columns, name)
    case None => Ok(f)
    case Some(j) =>
      match ConvertAll(Column(f, j))
      case Err(e) => Err(e)
      case Ok(values) => Ok(SetColumn(f, name, values))
  }

  /** `df[col] = df[col].apply(fix_numeric_column)` when the column exists. */
  function FixNumericFrame(f: Frame, name: string): (r: Frame)
    requires WellFormed(f)
    ensures WellFormed(r) && r.columns == f.columns && r.index == f.index
  {
    match ColumnIndex(f.columns, name)
    case None => f
    case Some(j) => SetColumn(f, name, seq(|f.rows|, i requires 0 <= i < |f.rows| => FixNumericColumn(f.rows[i][j])))
  }

  /** Cells outside the named column are the same in both tables. */
  predicate SameOutside(f: Frame, r: Frame, names: seq<string>)
    requires WellFormed(f) && WellFormed(r) && r.columns == f.columns
  {
    |r.rows| == |f.rows| &&
    forall i, c :: 0 <= i < |f.rows| && 0 <= c < |f.columns| && f.columns[c] !in names ==>
      r.rows[i][c] == f.rows[i][c]
  }

  lemma ConvertDateColumnOutside(f: Frame, name: string, names: seq<string>)
    requires WellFormed(f) && name in names && ConvertDateColumn(f, name).Ok?
    ensures SameOutside(f, ConvertDateColumn(f, name).value, names)
  {
  }

  lemma FixNumericFrameOutside(f: Frame, name: string, names: seq<string>)
    requires WellFormed(f) && name in names
    ensures SameOutside(f, FixNumericFrame(f, name), names)
  {
  }

  // ----- the handler -----

  class ExcelHandler {
    var df: Option<Frame>

    /** A handler before `read_excel`: no table. */
    constructor ()
      ensures df == None
    {
      df := None;
    }

    /** `_find_option_col`: the first column whose name contains "옵션", None without a table. */
    function FindOptionCol(): (r: Option<string>)
      reads this
      ensures df.None? ==> r.None?
      ensures r.Some? ==> Contains(r.value, "옵션")
      ensures df.Some? && r.Some? ==> r.value in df.value.columns
      ensures df.Some? && r.None? ==> forall k :: 0 <= k < |df.value.columns| ==> !Contains(df.value.columns[k], "옵션")
    {
      if df.None? then None
      else match FindOptionColumn(df.value.columns)
        case None => None
        case Some(j) => Some(df.value.columns[j])
    }

    /**
     * `fix_data_types`: the two date columns go through `convert_excel_serial_to_date`,
     * then the quantity column through `fix_numeric_column`. An error stops it with the
     * columns converted so far kept; nothing happens without a table.
     */
    method FixDataTypes() returns (err: Option<Error>)
      requires df.Some? ==> WellFormed(df.value)
      modifies this
      ensures old(df).None? ==> df == old(df) && err.None?
      ensures old(df).Some? ==> df.Some? && WellFormed(df.value)
      ensures old(df).Some? ==> df.value.columns == old(df).value.columns && df.value.index == old(df).value.index
      ensures old(df).Some? ==> SameOutside(old(df).value, df.value, DateColumns + [PyxlHandler.QuantityColumn])
      ensures old(df).Some? && err.None? ==>
        var f := old(df).value;
        ConvertDateColumn(f, DateColumns[0]).Ok? &&
        ConvertDateColumn(ConvertDateColumn(f, DateColumns[0]).value, DateColumns[1]).Ok? &&
        df.value == FixNumericFrame(ConvertDateColumn(ConvertDateColumn(f, DateColumns[0]).value, DateColumns[1]).value,
                                    PyxlHandler.QuantityColumn)
    {
      if df.None? {
        return None;
      }
      var names := DateColumns + [PyxlHandler.QuantityColumn];
      ghost var f0 := df.value;
      for k := 0 to |DateColumns|
        invariant df.Some? && WellFormed(df.value)
        invariant df.value.columns == f0.columns && df.value.index == f0.index
        invariant SameOutside(f0, df.value, names)
        invariant k >= 1 ==> ConvertDateColumn(f0, DateColumns[0]).Ok?
        invariant k == 1 ==> df.value == ConvertDateColumn(f0, DateColumns[0]).value
        invariant k == 2 ==> ConvertDateColumn(ConvertDateColumn(f0, DateColumns[0]).value, DateColumns[1]).Ok?
        invariant k == 2 ==> df.value == ConvertDateColumn(ConvertDateColumn(f0, DateColumns[0]).value, DateColumns[1]).value
        invariant k == 0 ==> df.value == f0
      {
        var converted := ConvertDateColumn(df.value, DateColumns[k]);
        if converted.Err? {
          return Some(converted.error);
        }
        ConvertDateColumnOutside(df.value, DateColumns[k], names);
        df := Some(converted.value);
      }
      FixNumericFrameOutside(df.value, PyxlHandler.QuantityColumn, names);
      df := Some(FixNumericFrame(df.value, PyxlHandler.QuantityColumn));
      return None;
    }

    /**
     * `filter_by_option_keywords`: RuntimeError without a table, KeyError without an
     * option column (or without keywords), otherwise the rows the keep rule selects.
     */
    method FilterByOptionKeywords(keywords: seq<string>, mode: string) returns (r: Result<Frame>)
      requires df.Some? ==> WellFormed(df.value)
      ensures df.None? ==> r == Err(RuntimeError)
      ensures df.Some? && FindOptionColumn(df.value.columns).None? ==> r == Err(KeyError)
      ensures df.Some? && FindOptionColumn(df.value.columns).Some? && keywords == [] ==> r == Err(KeyError)
      ensures df.Some? && FindOptionColumn(df.value.columns).Some? && keywords != [] ==>
        r == Ok(KeywordFilter(df.value, FindOptionColumn(df.value.columns).value, keywords, mode == "all"))
    {
      if df.None? {
        return Err(RuntimeError);
      }
      var f := df.value;
      var optionCol := FindOptionColumn(f.columns);
      if optionCol.None? {
        return Err(KeyError);
      }
      var mask := KeywordMask(OptionTexts(f, optionCol.value), keywords, mode);
      if mask.Err? {
        return Err(mask.error);
      }
      return Ok(Select(f, mask.value));
    }

    /**
     * `add_delivery_columns`: False without a table; otherwise each missing delivery
     * column is added as None and the existing ones are left as they were.
     */
    method AddDeliveryColumns() returns (ok: bool)
      requires df.Some? ==> WellFormed(df.value)
      modifies this
      ensures ok <==> old(df).Some?
      ensures !ok ==> df == old(df)
      ensures ok ==> df == Some(WithColumns(old(df).value, PyxlHandler.DeliveryColumns))
      ensures ok ==> AppendsColumns(old(df).value, df.value, PyxlHandler.DeliveryColumns)
      ensures ok ==> forall n :: n in PyxlHandler.DeliveryColumns ==> n in df.value.columns
    {
      if df.None? {
        return false;
      }
      var r := AddMissingColumns(df.value, PyxlHandler.DeliveryColumns);
      WithColumnsOnlyAppends(df.value, PyxlHandler.DeliveryColumns);
      df := Some(r);
      return true;
    }
  }
}
