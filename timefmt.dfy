/**
 * `datetime.strftime` and `datetime.strptime` for the two formats the system uses,
 * "%Y-%m-%d %H:%M:%S" and "%Y-%m-%d", and `str()` of a date-time.
 *
 * strptime turns each directive into a regular expression: %Y is exactly four digits,
 * %m is `1[0-2]|0[1-9]|[1-9]`, %d is `3[01]|[12]\d|0[1-9]|[1-9]| [1-9]`, %H is
 * `2[0-3]|[0-1]\d|\d`, %M is `[0-5]\d|\d`, %S is `6[0-1]|[0-5]\d|\d`, and a blank in the
 * format matches one or more whitespace characters; the match must cover the whole
 * string, and the fields must then form a valid date-time.
 */
module TimeFormat {

  import opened Wrappers
  import opened Text
  import opened Calendar

  // ----- strftime -----

  function DateText(d: Date): string
    requires ValidDate(d)
  {
    ZeroPad(d.year, 4) + "-" + ZeroPad(d.month, 2) + "-" + ZeroPad(d.day, 2)
  }

  function ClockText(t: DateTime): string
    requires ValidDateTime(t)
  {
    ZeroPad(t.hour, 2) + ":" + ZeroPad(t.minute, 2) + ":" + ZeroPad(t.second, 2)
  }

  /** `t.strftime("%Y-%m-%d %H:%M:%S" if withTime else "%Y-%m-%d")`. */
  function Strftime(t: DateTime, withTime: bool): string
    requires ValidDateTime(t)
  {
    if withTime then DateText(t.date) + " " + ClockText(t) else DateText(t.date)
  }

  /** `str(t)`: the ISO form with a blank separator, microseconds only when non-zero. */
  function IsoText(t: DateTime): string
    requires ValidDateTime(t)
  {
    DateText(t.date) + " " + ClockText(t) + (if t.micro != 0 then "." + ZeroPad(t.micro, 6) else "")
  }

  // ----- strptime field patterns -----

  predicate MonthToken(s: string) {
    (|s| == 1 && '1' <= s[0] <= '9') ||
    (|s| == 2 && ((s[0] == '1' && '0' <= s[1] <= '2') || (s[0] == '0' && '1' <= s[1] <= '9')))
  }

  predicate DayToken(s: string) {
    (|s| == 1 && '1' <= s[0] <= '9') ||
    (|s| == 2 && ((s[0] == '3' && '0' <= s[1] <= '1') || ('1' <= s[0] <= '2' && IsDigit(s[1])) ||
                  (s[0] == '0' && '1' <= s[1] <= '9') || (s[0] == ' ' && '1' <= s[1] <= '9')))
  }

  predicate HourToken(s: string) {
    (|s| == 1 && IsDigit(s[0])) ||
    (|s| == 2 && ((s[0] == '2' && '0' <= s[1] <= '3') || ('0' <= s[0] <= '1' && IsDigit(s[1]))))
  }

  predicate MinuteToken(s: string) {
    (|s| == 1 && IsDigit(s[0])) || (|s| == 2 && '0' <= s[0] <= '5' && IsDigit(s[1]))
  }

  predicate SecondToken(s: string) {
    (|s| == 1 && IsDigit(s[0])) ||
    (|s| == 2 && ((s[0] == '6' && '0' <= s[1] <= '1') || ('0' <= s[0] <= '5' && IsDigit(s[1]))))
  }

  /** The value of a day token; " 7" is 7. */
  function DayValue(s: string): nat
    requires DayToken(s)
  {
    if s[0] == ' ' then DigitValue(s[1]) else Value(s)
  }

  /** Where the %d field starting at `i` ends: a digit run, or a blank and a digit run. */
  function DayEnd(s: string, i: nat): (e: nat)
    requires i <= |s|
    ensures i <= e <= |s|
  {
    if i < |s| && s[i] == ' ' then i + 1 + DigitRun(s, i + 1) else i + DigitRun(s, i)
  }

  datatype Ymd = Ymd(year: int, month: int, day: int, end: nat)

  /** Matches "%Y-%m-%d" at the start of `s`, giving the fields and where the match ends. */
  function ScanYmd(s: string): (r: Option<Ymd>)
    ensures r.Some? ==> r.value.end <= |s|
  {
    if |s| < 5 || !AllDigits(s[..4]) || s[4] != '-' then None
    else
      var me := 5 + DigitRun(s, 5);
      if me >= |s| || s[me] != '-' || !MonthToken(s[5..me]) then None
      else
        var de := DayEnd(s, me + 1);
        if !DayToken(s[me + 1..de]) then None
        else Some(Ymd(Value(s[..4]), Value(s[5..me]), DayValue(s[me + 1..de]), de))
  }

  /** The datetime constructor's range check, ValueError (None) when it fails. */
  function Build(y: int, mo: int, d: int, h: int, mi: int, sec: int): (r: Option<DateTime>)
    ensures r.Some? <==> ValidDateTime(DateTime(Date(y, mo, d), h, mi, sec, 0))
    ensures r.Some? ==> r.value == DateTime(Date(y, mo, d), h, mi, sec, 0)
  {
    var t := DateTime(Date(y, mo, d), h, mi, sec, 0);
    if ValidDateTime(t) then Some(t) else None
  }

  /** `datetime.strptime(s, "%Y-%m-%d")`; None where it raises ValueError. */
  function StrptimeDate(s: string): (r: Option<DateTime>)
    ensures r.Some? ==> ValidDateTime(r.value) && r.value == Midnight(r.value.date)
  {
    match ScanYmd(s)
    case None => None
    case Some(f) => if f.end == |s| then Build(f.year, f.month, f.day, 0, 0, 0) else None
  }

  datatype Hms = Hms(hour: int, minute: int, second: int)

  /** Matches "%H:%M:%S" from position `i` to the end of `s`. */
  function ScanClock(s: string, i: nat): Option<Hms>
    requires i <= |s|
  {
    var he := i + DigitRun(s, i);
    if he >= |s| || s[he] != ':' || !HourToken(s[i..he]) then None
    else
      var me := he + 1 + DigitRun(s, he + 1);
      if me >= |s| || s[me] != ':' || !MinuteToken(s[he + 1..me]) then None
      else if !SecondToken(s[me + 1..]) then None
      else Some(Hms(Value(s[i..he]), Value(s[he + 1..me]), Value(s[me + 1..])))
  }

  /** `datetime.strptime(s, "%Y-%m-%d %H:%M:%S")`; None where it raises ValueError. */
  function StrptimeDateTime(s: string): (r: Option<DateTime>)
    ensures r.Some? ==> ValidDateTime(r.value) && r.value.micro == 0
  {
    match ScanYmd(s)
    case None => None
    case Some(f) =>
      var ws := SpaceRun(s, f.end);
      if ws == 0 then None
      else
        match ScanClock(s, f.end + ws)
        case None => None
        case Some(c) => Build(f.year, f.month, f.day, c.hour, c.minute, c.second)
  }

  // ----- round trips: strptime reads back what strftime writes -----

  lemma TwoDigitFields(n: nat)
    requires n < 100
    ensures |ZeroPad(n, 2)| == 2 && Value(ZeroPad(n, 2)) == n
    ensures 1 <= n <= 12 ==> MonthToken(ZeroPad(n, 2))
    ensures 1 <= n <= 31 ==> DayToken(ZeroPad(n, 2)) && DayValue(ZeroPad(n, 2)) == n
    ensures n < 24 ==> HourToken(ZeroPad(n, 2))
    ensures n < 60 ==> MinuteToken(ZeroPad(n, 2)) && SecondToken(ZeroPad(n, 2))
  {
    ZeroPadTwo(n);
    ValueOfZeroPad(n, 2);
  }

  lemma ScanYmdOfFields(s: string)
    requires |s| >= 10 && AllDigits(s[..4]) && s[4] == '-' && s[7] == '-'
    requires AllDigits(s[5..7]) && MonthToken(s[5..7])
    requires AllDigits(s[8..10]) && DayToken(s[8..10])
    requires |s| == 10 || !IsDigit(s[10])
    ensures ScanYmd(s) == Some(Ymd(Value(s[..4]), Value(s[5..7]), DayValue(s[8..10]), 10))
  {
    DigitRunOfDigits(s, 5, 2);
    DigitRunOfDigits(s, 8, 2);
    assert s[8] != ' ' by {
      assert s[8] == s[8..10][0];
    }
  }

  lemma ScanYmdOfDateText(d: Date, rest: string)
    requires ValidDate(d)
    requires rest == [] || !IsDigit(rest[0])
    ensures |DateText(d)| == 10
    ensures ScanYmd(DateText(d) + rest) == Some(Ymd(d.year, d.month, d.day, 10))
  {
    ZeroPadWidth(d.year, 4);
    ValueOfZeroPad(d.year, 4);
    TwoDigitFields(d.month);
    TwoDigitFields(d.day);
    DateTextSlices(d, rest);
    ScanYmdOfFields(DateText(d) + rest);
  }

  /** Where the fields of a date's text lie when more text follows it. */
  lemma DateTextSlices(d: Date, rest: string)
    requires ValidDate(d)
    ensures var s := DateText(d) + rest;
      |DateText(d)| == 10 && |s| == 10 + |rest| &&
      s[..4] == ZeroPad(d.year, 4) && s[4] == '-' && s[5..7] == ZeroPad(d.month, 2) && s[7] == '-' &&
      s[8..10] == ZeroPad(d.day, 2) && (|s| == 10 || s[10] == rest[0])
  {
    DateTextOwnSlices(d);
    PrefixSlices(DateText(d), rest);
  }

  lemma DateTextOwnSlices(d: Date)
    requires ValidDate(d)
    ensures var a := DateText(d);
      |a| == 10 && a[..4] == ZeroPad(d.year, 4) && a[4] == '-' && a[5..7] == ZeroPad(d.month, 2) &&
      a[7] == '-' && a[8..10] == ZeroPad(d.day, 2)
  {
    ZeroPadWidth(d.year, 4);
    TwoDigitFields(d.month);
    TwoDigitFields(d.day);
    FieldSlices(ZeroPad(d.year, 4), ZeroPad(d.month, 2), ZeroPad(d.day, 2), "-");
  }

  /** Where the three fields of "a-b-c" or "a:b:c" sit, for two-character `b` and `c`. */
  lemma FieldSlices(a: string, b: string, c: string, sep: string)
    requires |b| == 2 && |c| == 2 && |sep| == 1
    ensures var s := a + sep + b + sep + c; var n := |a|;
      |s| == n + 6 && s[..n] == a && s[n] == sep[0] && s[n + 1..n + 3] == b && s[n + 3] == sep[0] &&
      s[n + 4..] == c && s[n + 4..n + 6] == c
  {
    var s := a + sep + b + sep + c;
    var n := |a|;
    assert s[..n] == a;
    assert s[n + 1..n + 3] == b;
    assert s[n + 4..] == c;
  }

  /** The slices of the first ten characters are unchanged by appending text. */
  lemma PrefixSlices(a: string, rest: string)
    requires |a| == 10
    ensures var s := a + rest;
      |s| == 10 + |rest| && s[..4] == a[..4] && s[4] == a[4] && s[5..7] == a[5..7] && s[7] == a[7] &&
      s[8..10] == a[8..10] && (|s| == 10 || s[10] == rest[0])
  {
    var s := a + rest;
    assert s[..4] == a[..4];
    assert s[5..7] == a[5..7];
    assert s[8..10] == a[8..10];
  }

  /** Parsing the date-only text of a date gives back its midnight. */
  lemma StrptimeDateOfStrftime(t: DateTime)
    requires ValidDateTime(t)
    ensures StrptimeDate(Strftime(t, false)) == Some(Midnight(t.date))
  {
    ScanYmdOfDateText(t.date, []);
    assert DateText(t.date) + [] == DateText(t.date);
  }

  lemma ScanClockOfClockText(t: DateTime, s: string, i: nat)
    requires ValidDateTime(t)
    requires i <= |s| && s[i..] == ClockText(t)
    ensures ScanClock(s, i) == Some(Hms(t.hour, t.minute, t.second))
  {
    TwoDigitFields(t.hour);
    TwoDigitFields(t.minute);
    TwoDigitFields(t.second);
    ClockTextOwnSlices(t);
    SuffixSlices(s, i, ClockText(t));
    ScanClockOfFields(s, i);
  }

  lemma ScanClockOfFields(s: string, i: nat)
    requires |s| == i + 8 && s[i + 2] == ':' && s[i + 5] == ':'
    requires AllDigits(s[i..i + 2]) && HourToken(s[i..i + 2])
    requires AllDigits(s[i + 3..i + 5]) && MinuteToken(s[i + 3..i + 5])
    requires SecondToken(s[i + 6..])
    ensures ScanClock(s, i) == Some(Hms(Value(s[i..i + 2]), Value(s[i + 3..i + 5]), Value(s[i + 6..])))
  {
    DigitRunOfDigits(s, i, 2);
    DigitRunOfDigits(s, i + 3, 2);
  }

  lemma ClockTextOwnSlices(t: DateTime)
    requires ValidDateTime(t)
    ensures var c := ClockText(t);
      |c| == 8 && c[..2] == ZeroPad(t.hour, 2) && c[2] == ':' && c[3..5] == ZeroPad(t.minute, 2) &&
      c[5] == ':' && c[6..] == ZeroPad(t.second, 2)
  {
    TwoDigitFields(t.hour);
    TwoDigitFields(t.minute);
    TwoDigitFields(t.second);
    FieldSlices(ZeroPad(t.hour, 2), ZeroPad(t.minute, 2), ZeroPad(t.second, 2), ":");
  }

  /** The slices of an eight-character tail of `s`, read off the tail itself. */
  lemma SuffixSlices(s: string, i: nat, c: string)
    requires i <= |s| && s[i..] == c && |c| == 8
    ensures |s| == i + 8 && s[i..i + 2] == c[..2] && s[i + 2] == c[2] && s[i + 3..i + 5] == c[3..5] &&
      s[i + 5] == c[5] && s[i + 6..] == c[6..]
  {
    assert s[i..i + 2] == c[..2];
    assert s[i + 2] == c[2] && s[i + 5] == c[5];
    assert s[i + 3..i + 5] == c[3..5];
    assert s[i + 6..] == c[6..];
  }

  lemma StrptimeDateTimeOfFields(s: string, f: Ymd, c: Hms)
    requires ScanYmd(s) == Some(f) && f.end < |s| && s[f.end] == ' '
    requires f.end + 1 < |s| && !IsSpace(s[f.end + 1])
    requires ScanClock(s, f.end + 1) == Some(c)
    ensures StrptimeDateTime(s) == Build(f.year, f.month, f.day, c.hour, c.minute, c.second)
  {
    SpaceRunOne(s, f.end);
  }

  /** One blank followed by a non-blank is a space run of length one. */
  lemma SpaceRunOne(s: string, i: nat)
    requires i + 1 < |s| && s[i] == ' ' && !IsSpace(s[i + 1])
    ensures SpaceRun(s, i) == 1
  {
    assert IsSpace(s[i]);
    assert SpaceRun(s, i + 1) == 0;
  }

  lemma ClockTextStart(t: DateTime)
    requires ValidDateTime(t)
    ensures |ClockText(t)| == 8 && IsDigit(ClockText(t)[0])
  {
    TwoDigitFields(t.hour);
    TwoDigitFields(t.minute);
    TwoDigitFields(t.second);
  }

  /** Parsing the full text of a date-time gives it back, less its microseconds. */
  lemma StrptimeDateTimeOfStrftime(t: DateTime)
    requires ValidDateTime(t)
    ensures StrptimeDateTime(Strftime(t, true)) == Some(t.(micro := 0))
  {
    var s := Strftime(t, true);
    var f := Ymd(t.date.year, t.date.month, t.date.day, 10);
    StrftimeScansDate(t);
    StrftimeScansClock(t);
    StrptimeDateTimeOfFields(s, f, Hms(t.hour, t.minute, t.second));
  }

  lemma StrftimeScansDate(t: DateTime)
    requires ValidDateTime(t)
    ensures ScanYmd(Strftime(t, true)) == Some(Ymd(t.date.year, t.date.month, t.date.day, 10))
  {
    var c := ClockText(t);
    ScanYmdOfDateText(t.date, " " + c);
    assert Strftime(t, true) == DateText(t.date) + (" " + c);
  }

  lemma StrftimeScansClock(t: DateTime)
    requires ValidDateTime(t)
    ensures |Strftime(t, true)| == 19 && Strftime(t, true)[10] == ' ' && !IsSpace(Strftime(t, true)[11])
    ensures ScanClock(Strftime(t, true), 11) == Some(Hms(t.hour, t.minute, t.second))
  {
    var c := ClockText(t);
    var s := DateText(t.date) + (" " + c);
    assert Strftime(t, true) == s;
    DateTextOwnSlices(t.date);
    ClockTextStart(t);
    SpaceJoin(DateText(t.date), c);
    ScanClockOfClockText(t, s, 11);
  }

  /** A ten-character date text, a space and a clock text: where each part sits. */
  lemma SpaceJoin(a: string, c: string)
    requires |a| == 10 && |c| == 8
    ensures var s := a + (" " + c); |s| == 19 && s[10] == ' ' && s[11..] == c && s[11] == c[0]
  {
    var s := a + (" " + c);
    assert s[11..] == c;
  }
}
