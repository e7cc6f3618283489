/**
 * Spreadsheet cell values as the handlers see them, with the few Python operations the
 * handlers apply to them: truthiness, `pd.isna`, `str()`, dictionary-key equality and
 * `float()` of a text.
 */
module Cells {

  import opened Wrappers
  import opened Text
  import opened Calendar
  import opened TimeFormat

  /**
   * A cell value. `Null` is Python's None (an empty openpyxl cell), `NaN` is the float
   * pandas uses for a missing value, `Float` holds a finite float exactly (every finite
   * double is a rational number), `Stamp` is a datetime.
   */
  datatype Cell =
    | Null
    | NaN
    | Int(i: int)
    | Float(x: real)
    | Stamp(t: Moment)
    | Text(s: string)

  /** `bool(c)`: None, zero and the empty string are false; NaN is true. */
  predicate Truthy(c: Cell) {
    match c
    case Null => false
    case NaN => true
    case Int(i) => i != 0
    case Float(x) => x != 0.0
    case Stamp(_) => true
    case Text(s) => s != ""
  }

  /** `pd.isna(c)` for a single value. */
  predicate IsNa(c: Cell) {
    c.Null? || c.NaN?
  }

  predicate IsNumber(c: Cell) {
    c.Int? || c.Float?
  }

  /** The value of a finite number cell as a real. */
  function NumberValue(c: Cell): real
    requires IsNumber(c)
  {
    if c.Int? then c.i as real else c.x
  }

  predicate IsWhole(x: real) {
    x == x.Floor as real
  }

  /** Python's `int(x) if x.is_integer() else x` on a finite float. */
  function Number(x: real): (c: Cell)
    ensures IsNumber(c) && NumberValue(c) == x
    ensures c.Int? <==> IsWhole(x)
  {
    if IsWhole(x) then Int(x.Floor) else Float(x)
  }

  /** int() of a real: truncation toward zero. */
  function Trunc(x: real): (n: int)
    ensures x >= 0.0 ==> n == x.Floor
    ensures x < 0.0 ==> n == -((-x).Floor)
  {
    if x >= 0.0 then x.Floor else -((-x).Floor)
  }

  /** Six decimal places of the fractional part of a non-negative real. */
  function Micro6(x: real): string
    requires x >= 0.0
  {
    var f: nat := ((x - x.Floor as real) * 1000000.0).Floor;
    ZeroPad(f, 6)
  }

  /**
   * `str(x)` of a finite float: whole values in fixed notation as "45870.0", other values
   * in fixed notation with digits after a point, and values below 1e-4 or from 1e16 on
   * in exponent notation, as `repr` chooses.
   */
  function FloatText(x: real): (s: string)
    ensures FixedNotation(x) && IsWhole(x) ==> s == IntToString(x.Floor) + ".0"
    ensures FixedNotation(x) ==> '.' in s
    ensures !FixedNotation(x) ==> 'e' in s
  {
    if !FixedNotation(x) then SciText(x)
    else if IsWhole(x) then IntToString(x.Floor) + ".0"
    else if x < 0.0 then "-" + NatToString((-x).Floor) + "." + Micro6(-x)
    else NatToString(x.Floor) + "." + Micro6(x)
  }

  /** Python's `repr` of a float uses fixed notation for zero and for magnitudes in [1e-4, 1e16). */
  predicate FixedNotation(x: real) {
    var a := if x < 0.0 then -x else x;
    a == 0.0 || (1.0 / 10000.0 <= a && a < 10000000000000000.0)
  }

  /** How many times a positive real below 1 must be multiplied by ten to reach 1. */
  function DownShift(x: real): (k: nat)
    requires 0.0 < x
    decreases if x < 1.0 then (1.0 / x).Floor else 0
  {
    if x >= 1.0 then 0
    else
      DownShiftDecreases(x);
      1 + DownShift(10.0 * x)
  }

  lemma DownShiftDecreases(x: real)
    requires 0.0 < x < 1.0
    ensures 10.0 * x < 1.0 ==> (1.0 / (10.0 * x)).Floor < (1.0 / x).Floor
    ensures (1.0 / x).Floor >= 1
  {
    var y := 1.0 / x;
    assert y * x == 1.0;
    assert y > 1.0;
    if 10.0 * x < 1.0 {
      assert 1.0 / (10.0 * x) == y / 10.0;
      assert y / 10.0 <= y - 1.0;
    }
  }

  /** How many times a real of at least 10 must be divided by ten to fall below 10. */
  function UpShift(x: real): (k: nat)
    requires x >= 1.0
    decreases x.Floor
  {
    if x < 10.0 then 0 else 1 + UpShift(x / 10.0)
  }

  /** A text with its trailing '0's removed. */
  function TrimZeros(s: string): (r: string)
    ensures |r| <= |s| && r == s[..|r|]
    ensures r == "" || r[|r| - 1] != '0'
  {
    if |s| > 0 && s[|s| - 1] == '0' then TrimZeros(s[..|s| - 1]) else s
  }

  /**
   * Exponent notation "d.ddde-05" / "de+16": the mantissa in [1, 10) with at most six
   * fraction digits and without trailing zeros (where `repr` prints the shortest digits
   * that read back), then the signed exponent of at least two digits.
   */
  function SciText(x: real): (s: string)
    requires x != 0.0
    ensures 'e' in s
  {
    var a := if x < 0.0 then -x else x;
    var e: int := if a < 1.0 then -(DownShift(a) as int) else UpShift(a);
    var m := if e < 0 then a * Pow10Real(-e) else a / Pow10Real(e);
    var digits := TrimZeros(Micro6(m));
    var head := (if x < 0.0 then "-" else "") + NatToString(m.Floor) + (if digits == "" then "" else "." + digits);
    var tail := (if e < 0 then "-" else "+") + ZeroPad(if e < 0 then -e else e, 2);
    assert (head + "e" + tail)[|head|] == 'e';
    head + "e" + tail
  }

  /** `str(c)`. */
  function Str(c: Cell): string {
    match c
    case Null => "None"
    case NaN => "nan"
    case Int(i) => IntToString(i)
    case Float(x) => FloatText(x)
    case Stamp(t) => IsoText(t)
    case Text(s) => s
  }

  /** `fillna("").astype(str)` of one value: a missing value reads as the empty string. */
  function TextOrBlank(c: Cell): (s: string)
    ensures IsNa(c) ==> s == ""
    ensures c.Text? ==> s == c.s
  {
    if IsNa(c) then "" else Str(c)
  }

  /** `a == b` on values used as dictionary keys: numbers compare by value. */
  predicate PyEq(a: Cell, b: Cell) {
    if IsNumber(a) && IsNumber(b) then NumberValue(a) == NumberValue(b)
    else !a.NaN? && a == b
  }

  lemma PyEqIsEquivalence(a: Cell, b: Cell, c: Cell)
    ensures !a.NaN? ==> PyEq(a, a)
    ensures PyEq(a, b) ==> PyEq(b, a)
    ensures PyEq(a, b) && PyEq(b, c) ==> PyEq(a, c)
  {
  }

  // ----- float() of a text -----

  function Pow10Real(e: int): (r: real)
    ensures r > 0.0
    decreases if e < 0 then -e else e
  {
    if e == 0 then 1.0
    else if e > 0 then 10.0 * Pow10Real(e - 1)
    else Pow10Real(e + 1) / 10.0
  }

  /** Where an optional sign starting at `i` ends, and whether it was a minus. */
  function SignAt(t: string, i: nat): (r: (bool, nat))
    requires i <= |t|
    ensures i <= r.1 <= i + 1 && r.1 <= |t|
  {
    if i < |t| && (t[i] == '+' || t[i] == '-') then (t[i] == '-', i + 1) else (false, i)
  }

  /** The exponent suffix "e[+-]ddd" starting at `k`, which must run to the end. */
  function ExponentAt(t: string, k: nat): Option<int>
    requires k <= |t|
  {
    if k == |t| then Some(0)
    else if t[k] != 'e' && t[k] != 'E' then None
    else
      var (neg, j) := SignAt(t, k + 1);
      var n := DigitRun(t, j);
      if n == 0 || j + n != |t| then None
      else Some(if neg then -(Value(t[j..j + n]) as int) else Value(t[j..j + n]))
  }

  /** A mantissa of `m` with `b` fraction digits, scaled by the exponent when there is one. */
  function Scaled(m: nat, b: nat, e: Option<int>): Option<real> {
    match e
    case None => None
    case Some(e) => Some(m as real * Pow10Real(e - b))
  }

  /** An unsigned decimal literal from `i` to the end of `t`: digits, an optional point, an optional exponent. */
  function ParseUnsigned(t: string, i: nat): Option<real>
    requires i <= |t|
  {
    var a := DigitRun(t, i);
    if i + a < |t| && t[i + a] == '.' then
      var b := DigitRun(t, i + a + 1);
      if a + b == 0 then None
      else Scaled(Value(t[i..i + a]) * Pow10(b) + Value(t[i + a + 1..i + a + 1 + b]), b, ExponentAt(t, i + a + 1 + b))
    else if a == 0 then None
    else Scaled(Value(t[i..i + a]), 0, ExponentAt(t, i + a))
  }

  /**
   * `float(s)` for a text: surrounding whitespace is ignored, then an optional sign,
   * digits with an optional decimal point (at least one digit), and an optional exponent.
   */
  function ParseFloat(s: string): Option<real> {
    ParseSigned(Strip(s))
  }

  function ParseSigned(t: string): Option<real> {
    var sign := SignAt(t, 0);
    match ParseUnsigned(t, sign.1)
    case None => None
    case Some(v) => Some(if sign.0 then -v else v)
  }

  /** `float(v)`: numbers convert, texts are parsed; None where it raises. */
  function FloatOf(v: Cell): Option<real> {
    match v
    case Int(i) => Some(i as real)
    case Float(x) => Some(x)
    case Text(s) => ParseFloat(s)
    case _ => None
  }

  lemma ParseUnsignedOfDigits(t: string, i: nat)
    requires i < |t| && AllDigits(t[i..])
    ensures ParseUnsigned(t, i) == Some(Value(t[i..]) as real)
  {
    DigitRunOfDigits(t, i, |t| - i);
    assert t[i..i + (|t| - i)] == t[i..];
    assert Pow10Real(0) == 1.0;
  }

  lemma ParseSignedOfInteger(t: string, neg: bool, i: nat)
    requires SignAt(t, 0) == (neg, i) && i < |t| && AllDigits(t[i..])
    ensures ParseSigned(t) == Some(if neg then -(Value(t[i..]) as real) else Value(t[i..]) as real)
  {
    ParseUnsignedOfDigits(t, i);
  }

  /** float() reads back the decimal text of every int. */
  lemma ParseFloatOfIntToString(n: int)
    ensures ParseFloat(IntToString(n)) == Some(n as real)
  {
    if n < 0 {
      ParseFloatOfNegativeInt(n);
    } else {
      var d := NatToString(n);
      ValueOfNatToString(n);
      ParseFloatOfNatural(d);
    }
  }

  lemma ParseFloatOfNegativeInt(n: int)
    requires n < 0
    ensures ParseFloat("-" + NatToString(-n)) == Some(n as real)
  {
    ValueOfNatToString(-n);
    NegativeIntValue(n, NatToString(-n));
  }

  lemma NegativeIntValue(n: int, d: string)
    requires n < 0 && |d| >= 1 && AllDigits(d) && Value(d) == -n
    ensures ParseFloat("-" + d) == Some(n as real)
  {
    ParseFloatOfNegative(d);
  }

  lemma ParseFloatOfNegative(d: string)
    requires |d| >= 1 && AllDigits(d)
    ensures ParseFloat("-" + d) == Some(-(Value(d) as real))
  {
    NegativeText("-" + d, d);
  }

  lemma NegativeText(t: string, d: string)
    requires |d| >= 1 && AllDigits(d) && t == "-" + d
    ensures ParseFloat(t) == Some(-(Value(d) as real))
  {
    assert t[0] == '-' && !IsSpace(t[0]);
    assert SignAt(t, 0) == (true, 1);
    assert t[1..] == d;
    ParseFloatOfSignedDigits(t, true, 1);
  }

  lemma ParseFloatOfNatural(d: string)
    requires |d| >= 1 && AllDigits(d)
    ensures ParseFloat(d) == Some(Value(d) as real)
  {
    assert d[0..] == d && IsDigit(d[0]);
    ParseFloatOfSignedDigits(d, false, 0);
  }

  /** float() of an optional sign followed by digits only. */
  lemma ParseFloatOfSignedDigits(t: string, neg: bool, i: nat)
    requires SignAt(t, 0) == (neg, i) && i < |t| && AllDigits(t[i..]) && !IsSpace(t[0])
    ensures ParseFloat(t) == Some(if neg then -(Value(t[i..]) as real) else Value(t[i..]) as real)
  {
    assert t[|t| - 1] == t[i..][|t| - 1 - i];
    StripOfTrimmed(t);
    ParseSignedOfInteger(t, neg, i);
  }
}
