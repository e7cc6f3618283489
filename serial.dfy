/**
 * The spreadsheet day-serial codec of the openpyxl-based handler: a serial is a number
 * of days, integer part and fraction, counted from 1899-12-30 ("1900 date system").
 * The spreadsheet program wrongly treats 1900 as a leap year, so for dates from
 * 1900-01-01 to 1900-02-28 its serials are one greater than the true distance from the
 * epoch; the datetime-to-serial direction subtracts that day again.
 */
module SerialCodec {

  import opened Wrappers
  import opened Calendar
  import opened TimeFormat
  import opened Cells

  /** Day number of the epoch 1899-12-30. */
  const EpochDay := 693593
  /** Day numbers of 1900-01-01 and 1900-03-01, the bounds of the leap-bug window. */
  const LeapBugStartDay := 693595
  const LeapBugCutoffDay := 693654

  const EpochMicros := EpochDay * MicrosPerDay

  lemma EpochDays()
    ensures ValidDate(Date(1899, 12, 30)) && DayNumber(Date(1899, 12, 30)) == EpochDay
    ensures ValidDate(Date(1900, 1, 1)) && DayNumber(Date(1900, 1, 1)) == LeapBugStartDay
    ensures ValidDate(Date(1900, 3, 1)) && DayNumber(Date(1900, 3, 1)) == LeapBugCutoffDay
  {
  }

  /** Python's round-half-to-even of a real to an integer. */
  function RoundHalfEven(x: real): (r: int)
    ensures r as real - x <= 0.5 && x - r as real <= 0.5
    ensures IsWhole(x) ==> r == x.Floor
  {
    var f := x.Floor;
    var d := x - f as real;
    if d < 0.5 then f else if d > 0.5 then f + 1 else if f % 2 == 0 then f else f + 1
  }

  function Abs(x: real): real {
    if x < 0.0 then -x else x
  }

  /** The rounded value is at least as close to `x` as any other integer. */
  lemma RoundHalfEvenNearest(x: real, m: int)
    ensures Abs(x - RoundHalfEven(x) as real) <= Abs(x - m as real)
  {
    var f := x.Floor;
    var d := x - f as real;
    var r := RoundHalfEven(x);
    assert r == f || r == f + 1;
    assert r == f ==> Abs(x - r as real) == d && d <= 0.5;
    assert r == f + 1 ==> Abs(x - r as real) == 1.0 - d && d >= 0.5;
    if m <= f {
      assert Abs(x - m as real) >= d;
    } else {
      assert Abs(x - m as real) >= 1.0 - d;
    }
  }

  /** `timedelta(days=x)` in whole microseconds, rounded half to even. */
  function SerialMicros(x: real): int {
    RoundHalfEven(x * MicrosPerDay as real)
  }

  /**
   * `excel_serial_to_datetime`: the epoch plus `x` days; OverflowError when the result
   * falls outside years 1..9999.
   */
  function SerialToDateTime(x: real): (r: Result<DateTime>)
    ensures r.Ok? <==> 0 <= EpochMicros + SerialMicros(x) < InstantCount
    ensures r.Ok? ==> ValidDateTime(r.value) && Instant(r.value) == EpochMicros + SerialMicros(x)
    ensures r.Err? ==> r.error == OverflowError
  {
    var i := EpochMicros + SerialMicros(x);
    if 0 <= i < InstantCount then Ok(FromInstant(i)) else Err(OverflowError)
  }

  /** `excel_serial_to_str`: strftime of the converted date-time, with or without the clock. */
  function SerialToStr(x: real, withTime: bool): (r: Result<string>)
    ensures r.Err? <==> SerialToDateTime(x).Err?
    ensures r.Ok? ==> r.value == Strftime(SerialToDateTime(x).value, withTime)
  {
    match SerialToDateTime(x)
    case Err(e) => Err(e)
    case Ok(t) => Ok(Strftime(t, withTime))
  }

  /** The integer part of a serial is the day after the epoch, the fraction the time of day. */
  lemma SerialToDateTimeSplits(n: int, k: int)
    requires 0 <= k < MicrosPerDay
    requires 0 <= EpochDay + n < DayCount
    ensures SerialToDateTime(n as real + k as real / MicrosPerDay as real).Ok?
    ensures var t := SerialToDateTime(n as real + k as real / MicrosPerDay as real).value;
      DayNumber(t.date) == EpochDay + n && TimeOfDay(t) == k
  {
    var x := n as real + k as real / MicrosPerDay as real;
    assert x * MicrosPerDay as real == (n * MicrosPerDay + k) as real;
    assert SerialMicros(x) == n * MicrosPerDay + k;
    var t := SerialToDateTime(x).value;
    InstantBounds(t);
  }

  lemma DayNumber20250801()
    ensures ValidDate(Date(2025, 8, 1)) && DayNumber(Date(2025, 8, 1)) == EpochDay + 45870
  {
    assert DaysBeforeYear(2025) == 739251;
  }

  /** A whole serial is midnight of the day that many days after the epoch. */
  lemma SerialOfWholeDay(n: int)
    requires 0 <= EpochDay + n < DayCount
    ensures SerialToDateTime(n as real) == Ok(Midnight(FromDayNumber(EpochDay + n)))
  {
    SerialToDateTimeSplits(n, 0);
    assert n as real + 0 as real / MicrosPerDay as real == n as real;
    var t := SerialToDateTime(n as real).value;
    var d := FromDayNumber(EpochDay + n);
    DayNumberInjective(t.date, d);
    assert t == Midnight(d);
  }

  /** Serial 45870 is 2025-08-01. */
  lemma Serial45870()
    ensures SerialToDateTime(45870.0) == Ok(Midnight(Date(2025, 8, 1)))
  {
    SerialOfWholeDay(45870);
    DayNumber20250801();
    DayNumberInjective(FromDayNumber(EpochDay + 45870), Date(2025, 8, 1));
  }

  // ----- datetime to serial -----

  /** `datetime(1900, 1, 1) <= t < datetime(1900, 3, 1)`. */
  predicate InLeapBugWindow(t: DateTime)
    requires ValidDateTime(t)
  {
    LeapBugStartDay <= DayNumber(t.date) < LeapBugCutoffDay
  }

  /** Whole days since the epoch, as `(t - epoch).days` gives them. */
  function DaysSinceEpoch(t: DateTime): int
    requires ValidDateTime(t)
  {
    DayNumber(t.date) - EpochDay
  }

  /** The serial `_dt_to_excel_serial` computes before choosing int or float. */
  function RawSerial(t: DateTime): (s: real)
    requires ValidDateTime(t)
  {
    (DaysSinceEpoch(t) - (if InLeapBugWindow(t) then 1 else 0)) as real
      + TimeOfDay(t) as real / MicrosPerDay as real
  }

  /** `abs(serial - round(serial)) < 1e-9`. */
  predicate NearWhole(x: real) {
    Abs(x - RoundHalfEven(x) as real) < 1.0 / 1000000000.0
  }

  /** `_dt_to_excel_serial` as written: a near-whole serial is cut to an int by truncation. */
  function DtToSerialAsWritten(t: DateTime): (c: Cell)
    requires ValidDateTime(t)
    ensures c.Int? <==> NearWhole(RawSerial(t))
    ensures c.Float? ==> c.x == RawSerial(t)
  {
    var s := RawSerial(t);
    if NearWhole(s) then Int(Trunc(s)) else Float(s)
  }

  /** `_dt_to_excel_serial` with the near-whole serial replaced by its nearest integer. */
  function DtToSerial(t: DateTime): (c: Cell)
    requires ValidDateTime(t)
    ensures c.Int? <==> NearWhole(RawSerial(t))
    ensures c.Float? ==> c.x == RawSerial(t)
    ensures c.Int? ==> Abs(RawSerial(t) - c.i as real) < 1.0 / 1000000000.0
  {
    var s := RawSerial(t);
    if NearWhole(s) then Int(RoundHalfEven(s)) else Float(s)
  }

  lemma RawSerialMicros(t: DateTime)
    requires ValidDateTime(t)
    ensures RawSerial(t) * MicrosPerDay as real
      == (Instant(t) - EpochMicros - (if InLeapBugWindow(t) then MicrosPerDay else 0)) as real
  {
  }

  /** Outside the leap-bug window the serial converts back to the very same date-time. */
  lemma RawSerialRoundTrip(t: DateTime)
    requires ValidDateTime(t) && !InLeapBugWindow(t)
    ensures SerialToDateTime(RawSerial(t)) == Ok(t)
  {
    RawSerialMicros(t);
    assert SerialMicros(RawSerial(t)) == Instant(t) - EpochMicros;
    InstantBounds(t);
    InstantInjective(SerialToDateTime(RawSerial(t)).value, t);
  }

  /**
   * Inside the leap-bug window the serial is one less than the distance from the epoch,
   * and the reverse conversion does not add the day back: the round trip lands one day early.
   */
  lemma RawSerialLeapWindow(t: DateTime)
    requires ValidDateTime(t) && InLeapBugWindow(t)
    ensures RawSerial(t) == (DaysSinceEpoch(t) - 1) as real + TimeOfDay(t) as real / MicrosPerDay as real
    ensures SerialToDateTime(RawSerial(t)).Ok?
    ensures Instant(SerialToDateTime(RawSerial(t)).value) == Instant(t) - MicrosPerDay
    ensures SerialToDateTime(RawSerial(t)).value.date != t.date
  {
    RawSerialMicros(t);
    assert SerialMicros(RawSerial(t)) == Instant(t) - EpochMicros - MicrosPerDay;
    InstantBounds(t);
    var back := SerialToDateTime(RawSerial(t)).value;
    InstantBounds(back);
  }

  /** Distance of a serial from the nearest integer, when its fraction is `k` microseconds of a day. */
  lemma NearWholeOfFraction(m: int, k: int)
    requires 0 <= k < MicrosPerDay
    ensures NearWhole(m as real + k as real / MicrosPerDay as real) <==> k <= 86 || k >= MicrosPerDay - 86
    ensures k <= 86 ==> RoundHalfEven(m as real + k as real / MicrosPerDay as real) == m
    ensures k >= MicrosPerDay - 86 ==> RoundHalfEven(m as real + k as real / MicrosPerDay as real) == m + 1
  {
    var x := m as real + k as real / MicrosPerDay as real;
    RoundHalfEvenNearest(x, m);
    RoundHalfEvenNearest(x, m + 1);
  }

  /** On whole seconds the serial is an int exactly at midnight, and then it is the day count. */
  lemma DtToSerialWholeSeconds(t: DateTime)
    requires ValidDateTime(t) && t.micro == 0
    ensures DtToSerial(t).Int? <==> TimeOfDay(t) == 0
    ensures DtToSerial(t).Int? ==> DtToSerial(t).i == DaysSinceEpoch(t) - (if InLeapBugWindow(t) then 1 else 0)
    ensures DtToSerialAsWritten(t) == DtToSerial(t)
  {
    var m := DaysSinceEpoch(t) - (if InLeapBugWindow(t) then 1 else 0);
    var secs := (t.hour * 60 + t.minute) * 60 + t.second;
    assert 0 <= secs < 86400;
    assert TimeOfDay(t) == secs * MicrosPerSecond;
    assert TimeOfDay(t) == 0 || 86 < TimeOfDay(t) < MicrosPerDay - 86;
    NearWholeOfFraction(m, TimeOfDay(t));
    if TimeOfDay(t) == 0 {
      assert RawSerial(t) == m as real;
      assert Trunc(m as real) == m;
    }
  }

  /**
   * Outside the leap-bug window, converting the serial back lands within 86 microseconds
   * of the original date-time: exactly on it for a fractional serial, on the nearest
   * midnight for a near-whole one.
   */
  lemma DtToSerialNearlyInverse(t: DateTime)
    requires ValidDateTime(t) && !InLeapBugWindow(t)
    ensures var c := DtToSerial(t);
      var back := EpochMicros + SerialMicros(NumberValue(c));
      Instant(t) - 86 <= back <= Instant(t) + 86
    ensures DtToSerial(t).Float? ==> SerialToDateTime(DtToSerial(t).x) == Ok(t)
  {
    var m := DaysSinceEpoch(t);
    var k := TimeOfDay(t);
    TimeOfDayBounds(t);
    NearWholeOfFraction(m, k);
    RawSerialMicros(t);
    var c := DtToSerial(t);
    if c.Int? {
      assert c.i as real * MicrosPerDay as real == (c.i * MicrosPerDay) as real;
      assert SerialMicros(c.i as real) == c.i * MicrosPerDay;
    } else {
      RawSerialRoundTrip(t);
    }
  }

  /** 2025-08-01 23:59:59.999950, fifty microseconds before midnight. */
  const JustBeforeMidnight := DateTime(Date(2025, 8, 1), 23, 59, 59, 999950)

  /**
   * The truncating version sends a date-time fifty microseconds before midnight to serial
   * 45870, the midnight that began its day (`Serial45870`), almost a whole day away; the
   * corrected one gives the next midnight.
   */
  lemma DtToSerialAsWrittenTruncates()
    ensures ValidDateTime(JustBeforeMidnight) && !InLeapBugWindow(JustBeforeMidnight)
    ensures DtToSerialAsWritten(JustBeforeMidnight) == Int(45870)
    ensures Instant(JustBeforeMidnight) - Instant(Midnight(Date(2025, 8, 1))) == MicrosPerDay - 50
    ensures DtToSerial(JustBeforeMidnight) == Int(45871)
  {
    var t := JustBeforeMidnight;
    assert DaysSinceEpoch(t) == 45870;
    NearWholeOfFraction(45870, TimeOfDay(t));
  }
}
