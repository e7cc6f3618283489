/**
 * The extractor's phone normalisation: the digits of the number are regrouped as
 * 010-XXXX-XXXX (eleven digits starting 010) or 01X-XXX-XXXX (ten digits starting 01);
 * anything else, and the empty text, comes back as it was given.
 */
module Phone {

  import opened Text

  /** The hyphenated layout of a digit string: d[..3] + "-" + d[3..mid] + "-" + d[mid..]. */
  function Grouped(d: string, mid: nat): (r: string)
    requires 3 <= mid <= |d|
    ensures |r| == |d| + 2 && r[3] == '-' && r[mid + 1] == '-'
  {
    d[..3] + "-" + d[3..mid] + "-" + d[mid..]
  }

  /** `_normalize_phone`. */
  function NormalizePhone(phone: string): (r: string)
    ensures phone == "" ==> r == ""
    ensures var d := Digits(phone);
      if |d| == 11 && StartsWith(d, "010") then r == Grouped(d, 7)
      else if |d| == 10 && StartsWith(d, "01") then r == Grouped(d, 6)
      else r == phone
  {
    if phone == "" then phone
    else
      var d := Digits(phone);
      if |d| == 11 && StartsWith(d, "010") then Grouped(d, 7)
      else if |d| == 10 && StartsWith(d, "01") then Grouped(d, 6)
      else phone
  }

  /** Regrouping keeps the digits: two hyphens are added and nothing else. */
  lemma GroupedDigits(d: string, mid: nat)
    requires 3 <= mid <= |d| && AllDigits(d)
    ensures Digits(Grouped(d, mid)) == d
  {
    var a, b, c := d[..3], d[3..mid], d[mid..];
    DigitsOfConcat(a + "-" + b + "-", c);
    DigitsOfConcat(a + "-" + b, "-");
    DigitsOfConcat(a + "-", b);
    DigitsOfConcat(a, "-");
    DigitsOfDigits(a);
    DigitsOfDigits(b);
    DigitsOfDigits(c);
    assert Digits("-") == [];
    assert a + b + c == d;
  }

  /** Normalisation never changes the digits of a number. */
  lemma NormalizeKeepsDigits(phone: string)
    ensures Digits(NormalizePhone(phone)) == Digits(phone)
  {
    var d := Digits(phone);
    if phone != "" && ((|d| == 11 && StartsWith(d, "010")) || (|d| == 10 && StartsWith(d, "01"))) {
      GroupedDigits(d, if |d| == 11 then 7 else 6);
    }
  }

  /** Normalising a normalised number changes nothing. */
  lemma NormalizeIdempotent(phone: string)
    ensures NormalizePhone(NormalizePhone(phone)) == NormalizePhone(phone)
  {
    var r := NormalizePhone(phone);
    NormalizeKeepsDigits(phone);
    var d := Digits(phone);
    if phone != "" && ((|d| == 11 && StartsWith(d, "010")) || (|d| == 10 && StartsWith(d, "01"))) {
      GroupedDigits(d, if |d| == 11 then 7 else 6);
      assert Digits(r) == d;
    }
  }

  /** A normalised mobile number consists of digits and hyphens only, ten or eleven digits. */
  lemma NormalizedShape(phone: string)
    requires var d := Digits(phone); (|d| == 11 && StartsWith(d, "010")) || (|d| == 10 && StartsWith(d, "01"))
    ensures var r := NormalizePhone(phone);
      (forall i :: 0 <= i < |r| ==> IsDigit(r[i]) || r[i] == '-') &&
      r[..3] == Digits(phone)[..3] && 10 <= |Digits(r)| <= 11 &&
      IsDigit(r[0]) && IsDigit(r[|r| - 1])
  {
    var d := Digits(phone);
    assert phone != "";
    NormalizeKeepsDigits(phone);
    GroupedShape(d, if |d| == 11 then 7 else 6);
  }

  /** A regrouped digit string holds digits and the two hyphens, and starts and ends with a digit. */
  lemma GroupedShape(d: string, mid: nat)
    requires 3 <= mid < |d| && AllDigits(d)
    ensures var r := Grouped(d, mid);
      (forall i :: 0 <= i < |r| ==> IsDigit(r[i]) || r[i] == '-') &&
      r[..3] == d[..3] && IsDigit(r[0]) && IsDigit(r[|r| - 1])
  {
    var r := Grouped(d, mid);
    forall i | 0 <= i < |r| ensures IsDigit(r[i]) || r[i] == '-' {
      if i < 3 { assert r[i] == d[i]; }
      else if i == 3 || i == mid + 1 {}
      else if i < mid + 1 { assert r[i] == d[i - 1]; }
      else { assert r[i] == d[i - 2]; }
    }
    assert r[|r| - 1] == d[|d| - 1];
  }
}
