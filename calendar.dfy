/**
 * The proleptic Gregorian calendar of Python's `datetime` module, restricted like it to the
 * years 1..9999, with every point in time counted exactly in microseconds.
 */
module Calendar {

  import opened Wrappers

  const MinYear := 1
  const MaxYear := 9999

  predicate IsLeapYear(y: int) {
    y % 4 == 0 && (y % 100 != 0 || y % 400 == 0)
  }

  function DaysInYear(y: int): int {
    if IsLeapYear(y) then 366 else 365
  }

  function DaysInMonth(y: int, m: int): int
    requires 1 <= m <= 12
  {
    if m == 2 then (if IsLeapYear(y) then 29 else 28)
    else if m == 4 || m == 6 || m == 9 || m == 11 then 30
    else 31
  }

  /** Days in the years before `y`, counted from 0001-01-01. */
  function DaysBeforeYear(y: int): int
    requires y >= 1
  {
    var p := y - 1;
    365 * p + p / 4 - p / 100 + p / 400
  }

  /** Days in the months of year `y` before month `m` (m == 13 gives the whole year). */
  function DaysBeforeMonth(y: int, m: int): int
    requires 1 <= m <= 13
  {
    [0, 0, 31, 59, 90, 120, 151, 181, 212, 243, 273, 304, 334, 365][m]
    + (if m > 2 && IsLeapYear(y) then 1 else 0)
  }

  datatype Date = Date(year: int, month: int, day: int)

  predicate ValidDate(d: Date) {
    MinYear <= d.year <= MaxYear && 1 <= d.month <= 12 && 1 <= d.day <= DaysInMonth(d.year, d.month)
  }

  /** `date.toordinal() - 1`: the number of days from 0001-01-01 to `d`. */
  function DayNumber(d: Date): int
    requires ValidDate(d)
  {
    DaysBeforeYear(d.year) + DaysBeforeMonth(d.year, d.month) + d.day - 1
  }

  /** The number of representable dates, 0001-01-01 .. 9999-12-31. */
  const DayCount := 3652059

  lemma DaysBeforeYearStep(y: int)
    requires y >= 1
    ensures DaysBeforeYear(y + 1) == DaysBeforeYear(y) + DaysInYear(y)
  {
    var p := y - 1;
    assert y / 4 == p / 4 + (if y % 4 == 0 then 1 else 0);
    assert y / 100 == p / 100 + (if y % 100 == 0 then 1 else 0);
    assert y / 400 == p / 400 + (if y % 400 == 0 then 1 else 0);
  }

  lemma DayCountValue()
    ensures DaysBeforeYear(MaxYear + 1) == DayCount
  {
  }

  lemma {:induction false} DaysBeforeYearMonotone(y1: int, y2: int)
    requires 1 <= y1 <= y2
    ensures DaysBeforeYear(y1) + 365 * (y2 - y1) <= DaysBeforeYear(y2)
    decreases y2 - y1
  {
    if y1 < y2 {
      DaysBeforeYearMonotone(y1, y2 - 1);
      DaysBeforeYearStep(y2 - 1);
    }
  }

  lemma DaysBeforeMonthStep(y: int, m: int)
    requires 1 <= m <= 12
    ensures DaysBeforeMonth(y, m + 1) == DaysBeforeMonth(y, m) + DaysInMonth(y, m)
    ensures DaysBeforeMonth(y, 13) == DaysInYear(y)
  {
  }

  lemma DaysBeforeMonthMonotone(y: int, m1: int, m2: int)
    requires 1 <= m1 <= m2 <= 13
    ensures DaysBeforeMonth(y, m1) + 28 * (m2 - m1) <= DaysBeforeMonth(y, m2)
  {
  }

  /** The year whose days contain day number `n`, searched upwards from `y`. */
  function FindYear(n: int, y: int): (r: int)
    requires 0 <= n < DayCount
    requires MinYear <= y <= MaxYear && DaysBeforeYear(y) <= n
    ensures y <= r <= MaxYear
    ensures DaysBeforeYear(r) <= n < DaysBeforeYear(r + 1)
    decreases MaxYear - y
  {
    if n < DaysBeforeYear(y + 1) then y
    else
      DayCountValue();
      FindYear(n, y + 1)
  }

  /** The month of year `y` that contains day `doy` (0-based) of that year, searched upwards from `m`. */
  function FindMonth(y: int, doy: int, m: int): (r: int)
    requires 0 <= doy < DaysInYear(y)
    requires 1 <= m <= 12 && DaysBeforeMonth(y, m) <= doy
    ensures m <= r <= 12
    ensures DaysBeforeMonth(y, r) <= doy < DaysBeforeMonth(y, r + 1)
    decreases 12 - m
  {
    DaysBeforeMonthStep(y, m);
    if doy < DaysBeforeMonth(y, m + 1) then m else FindMonth(y, doy, m + 1)
  }

  /** `date.fromordinal(n + 1)`: the inverse of DayNumber. */
  function FromDayNumber(n: int): (d: Date)
    requires 0 <= n < DayCount
    ensures ValidDate(d) && DayNumber(d) == n
  {
    var y0 := n / 366 + 1;
    DaysBeforeYearMonotone(1, y0);
    var y := FindYear(n, y0);
    DaysBeforeYearStep(y);
    var doy := n - DaysBeforeYear(y);
    var m := FindMonth(y, doy, 1);
    DaysBeforeMonthStep(y, m);
    Date(y, m, doy - DaysBeforeMonth(y, m) + 1)
  }

  /** Every valid date lies inside its own year's and month's span of day numbers. */
  lemma DayNumberBounds(d: Date)
    requires ValidDate(d)
    ensures DaysBeforeYear(d.year) <= DayNumber(d) < DaysBeforeYear(d.year + 1)
    ensures 0 <= DayNumber(d) < DayCount
  {
    DaysBeforeMonthStep(d.year, d.month);
    DaysBeforeMonthMonotone(d.year, d.month + 1, 13);
    DaysBeforeYearStep(d.year);
    DaysBeforeYearMonotone(1, d.year);
    DaysBeforeYearMonotone(d.year + 1, MaxYear + 1);
    DayCountValue();
  }

  lemma {:induction false} DayNumberInjective(d1: Date, d2: Date)
    requires ValidDate(d1) && ValidDate(d2)
    requires DayNumber(d1) == DayNumber(d2)
    ensures d1 == d2
  {
    DayNumberBounds(d1);
    DayNumberBounds(d2);
    if d1.year < d2.year {
      DaysBeforeYearMonotone(d1.year + 1, d2.year);
    } else if d2.year < d1.year {
      DaysBeforeYearMonotone(d2.year + 1, d1.year);
    }
    assert d1.year == d2.year;
    DaysBeforeMonthStep(d1.year, d1.month);
    DaysBeforeMonthStep(d2.year, d2.month);
    if d1.month < d2.month {
      DaysBeforeMonthMonotone(d1.year, d1.month + 1, d2.month);
    } else if d2.month < d1.month {
      DaysBeforeMonthMonotone(d1.year, d2.month + 1, d1.month);
    }
  }

  /** Day numbers and dates are in one-to-one correspondence. */
  lemma FromDayNumberOfDayNumber(d: Date)
    requires ValidDate(d)
    ensures 0 <= DayNumber(d) < DayCount
    ensures FromDayNumber(DayNumber(d)) == d
  {
    DayNumberBounds(d);
    DayNumberInjective(FromDayNumber(DayNumber(d)), d);
  }

  // ----- date-times -----

  datatype DateTime = DateTime(date: Date, hour: int, minute: int, second: int, micro: int)

  predicate ValidDateTime(t: DateTime) {
    ValidDate(t.date) && 0 <= t.hour < 24 && 0 <= t.minute < 60 && 0 <= t.second < 60 && 0 <= t.micro < 1000000
  }

  /** A date-time Python can represent. */
  type Moment = t: DateTime | ValidDateTime(t) witness DateTime(Date(1, 1, 1), 0, 0, 0, 0)

  const MicrosPerSecond := 1000000
  const MicrosPerDay := 86400000000

  /** Microseconds since midnight. */
  function TimeOfDay(t: DateTime): int {
    ((t.hour * 60 + t.minute) * 60 + t.second) * MicrosPerSecond + t.micro
  }

  lemma TimeOfDayBounds(t: DateTime)
    requires ValidDateTime(t)
    ensures 0 <= TimeOfDay(t) < MicrosPerDay
  {
  }

  /** Microseconds since 0001-01-01 00:00:00. */
  function Instant(t: DateTime): int
    requires ValidDateTime(t)
  {
    DayNumber(t.date) * MicrosPerDay + TimeOfDay(t)
  }

  const InstantCount := DayCount * MicrosPerDay

  lemma InstantBounds(t: DateTime)
    requires ValidDateTime(t)
    ensures 0 <= Instant(t) < InstantCount
    ensures Instant(t) / MicrosPerDay == DayNumber(t.date)
    ensures Instant(t) % MicrosPerDay == TimeOfDay(t)
  {
    DayNumberBounds(t.date);
    TimeOfDayBounds(t);
  }

  /** The date-time at microsecond `i` after 0001-01-01 00:00:00. */
  function FromInstant(i: int): (t: DateTime)
    requires 0 <= i < InstantCount
    ensures ValidDateTime(t) && Instant(t) == i
  {
    var day := i / MicrosPerDay;
    var tod := i % MicrosPerDay;
    var secs := tod / MicrosPerSecond;
    var mins := secs / 60;
    DateTime(FromDayNumber(day), mins / 60, mins % 60, secs % 60, tod % MicrosPerSecond)
  }

  lemma {:induction false} InstantInjective(t1: DateTime, t2: DateTime)
    requires ValidDateTime(t1) && ValidDateTime(t2)
    requires Instant(t1) == Instant(t2)
    ensures t1 == t2
  {
    InstantBounds(t1);
    InstantBounds(t2);
    DayNumberInjective(t1.date, t2.date);
  }

  /** Instants and date-times are in one-to-one correspondence. */
  lemma FromInstantOfInstant(t: DateTime)
    requires ValidDateTime(t)
    ensures 0 <= Instant(t) < InstantCount
    ensures FromInstant(Instant(t)) == t
  {
    InstantBounds(t);
    InstantInjective(FromInstant(Instant(t)), t);
  }

  function Midnight(d: Date): DateTime {
    DateTime(d, 0, 0, 0, 0)
  }

  /**
   * `t + timedelta(microseconds=delta)`; None where Python raises OverflowError
   * because the result falls outside years 1..9999.
   */
  function AddMicros(t: DateTime, delta: int): (r: Option<DateTime>)
    requires ValidDateTime(t)
    ensures r.Some? <==> 0 <= Instant(t) + delta < InstantCount
    ensures r.Some? ==> ValidDateTime(r.value) && Instant(r.value) == Instant(t) + delta
  {
    var i := Instant(t) + delta;
    if 0 <= i < InstantCount then Some(FromInstant(i)) else None
  }
}
