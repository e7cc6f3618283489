/**
 * The value-level parts of the order matcher: the receipt and customer records, the
 * validators, the receipt timestamp parser, the three per-row checks (calendar date,
 * time within ten seconds, product name similarity), the per-row cascade that turns a
 * row into a trace entry and possibly a candidate, the stable ordering of candidates by
 * score, and the item description written into the sheet.
 */
module Matching {

  import opened Wrappers
  import opened Text
  import opened Calendar
  import opened TimeFormat
  import opened Cells
  import opened SerialCodec
  import opened Similarity
  import opened Sheets
  import opened Phone

  // ----- receipt and customer records -----

  /** A field of a JSON record: the key is missing, it holds null, or it holds a value. */
  datatype Field<+T> = Missing | Nil | Val(v: T)

  /** A string field that Python finds truthy: present, not null, not empty. */
  predicate Given(f: Field<string>) {
    f.Val? && f.v != ""
  }

  /** One receipt line: `name`, `quantity` and `options`, each nullable. */
  datatype Item = Item(name: Field<string>, quantity: Field<int>, options: Field<string>)

  /** The receipt record: `approved_at` and the list of items. */
  datatype Receipt = Receipt(approvedAt: Field<string>, items: Field<seq<Item>>)

  /** The customer record: name, phone and address. */
  datatype Customer = Customer(name: Field<string>, phone: Field<string>, address: Field<string>)

  // ----- the receipt timestamp -----

  /**
   * `parse_receipt_datetime`: "%Y-%m-%d %H:%M:%S", falling back to "%Y-%m-%d";
   * ValueError when neither matches.
   */
  function ParseReceiptDatetime(s: string): (r: Result<DateTime>)
    ensures r.Ok? <==> StrptimeDateTime(s).Some? || StrptimeDate(s).Some?
    ensures r.Ok? ==> ValidDateTime(r.value)
    ensures StrptimeDateTime(s).Some? ==> r == Ok(StrptimeDateTime(s).value)
    ensures StrptimeDateTime(s).None? && StrptimeDate(s).Some? ==> r == Ok(StrptimeDate(s).value)
    ensures r.Err? ==> r.error == ValueError
  {
    match StrptimeDateTime(s)
    case Some(t) => Ok(t)
    case None =>
      match StrptimeDate(s)
      case Some(t) => Ok(t)
      case None => Err(ValueError)
  }

  /** A full timestamp text parses back to its date-time, less the microseconds. */
  lemma ParseFullTimestamp(t: DateTime)
    requires ValidDateTime(t)
    ensures ParseReceiptDatetime(Strftime(t, true)) == Ok(t.(micro := 0))
  {
    StrptimeDateTimeOfStrftime(t);
  }

  /** A date-only text fails the full format and parses through the fallback as midnight. */
  lemma ParseDateOnly(t: DateTime)
    requires ValidDateTime(t)
    ensures ParseReceiptDatetime(Strftime(t, false)) == Ok(Midnight(t.date))
  {
    var s := Strftime(t, false);
    ScanYmdOfDateText(t.date, []);
    assert DateText(t.date) + [] == s;
    assert SpaceRun(s, |s|) == 0;
    StrptimeDateOfStrftime(t);
  }

  // ----- the per-row checks -----

  /**
   * The date-time a row's cell denotes: a timestamp as it is, anything else through
   * `float()` and the serial conversion; an error where either raises.
   */
  function CellDateTime(c: Cell): (r: Result<DateTime>)
    ensures c.Stamp? ==> r == Ok(c.t)
    ensures !c.Stamp? && FloatOf(c).Some? ==> r == SerialToDateTime(FloatOf(c).value)
    ensures r.Ok? ==> ValidDateTime(r.value)
  {
    if c.Stamp? then Ok(c.t)
    else match FloatOf(c)
      case None => Err(ValueError)
      case Some(x) => SerialToDateTime(x)
  }

  /** `match_date`: the receipt's calendar date equals the row's; false where a conversion fails. */
  predicate MatchDate(receipt: string, order: Cell) {
    var rt := ParseReceiptDatetime(receipt);
    var ot := CellDateTime(order);
    rt.Ok? && ot.Ok? && rt.value.date == ot.value.date
  }

  /** `self.time_tolerance_seconds`. */
  const ToleranceSeconds := 10

  /** The distance between two date-times in microseconds. */
  function Distance(a: DateTime, b: DateTime): (d: nat)
    requires ValidDateTime(a) && ValidDateTime(b)
    ensures d == 0 <==> a == b
    ensures d == if Instant(a) <= Instant(b) then Instant(b) - Instant(a) else Instant(a) - Instant(b)
  {
    if Instant(a) == Instant(b) then InstantInjective(a, b); 0
    else if Instant(a) < Instant(b) then Instant(b) - Instant(a) else Instant(a) - Instant(b)
  }

  /**
   * `match_time`: the receipt and the row are at most ten seconds apart, the boundary
   * included; false where a conversion fails.
   */
  predicate MatchTime(receipt: string, order: Cell) {
    var rt := ParseReceiptDatetime(receipt);
    var ot := CellDateTime(order);
    rt.Ok? && ot.Ok? && Distance(rt.value, ot.value) <= ToleranceSeconds * MicrosPerSecond
  }

  /** A whole-number serial cell matches the receipt's date exactly when it counts that day. */
  lemma MatchDateOfSerial(t: DateTime, n: int)
    requires ValidDateTime(t) && 0 <= EpochDay + n < DayCount
    ensures MatchDate(Strftime(t, true), Int(n)) <==> DayNumber(t.date) == EpochDay + n
  {
    var s := Strftime(t, true);
    var d := FromDayNumber(EpochDay + n);
    assert ParseReceiptDatetime(s) == Ok(t.(micro := 0)) by {
      ParseFullTimestamp(t);
    }
    assert CellDateTime(Int(n)) == Ok(Midnight(d)) by {
      assert FloatOf(Int(n)) == Some(n as real);
      SerialOfWholeDay(n);
    }
    assert MatchDate(s, Int(n)) <==> t.date == d;
    if DayNumber(t.date) == EpochDay + n {
      DayNumberInjective(t.date, d);
    }
  }

  /** A cell converting to midnight of a day matches exactly the receipts of that day. */
  lemma MatchDateOfMidnight(t: DateTime, cell: Cell, d: Date)
    requires ValidDateTime(t) && CellDateTime(cell) == Ok(Midnight(d))
    ensures MatchDate(Strftime(t, true), cell) <==> t.date == d
  {
    ParseFullTimestamp(t);
  }

  /** Serial 45870 matches any receipt of 2025-08-01. */
  lemma MatchDate45870(t: DateTime)
    requires ValidDateTime(t) && t.date == Date(2025, 8, 1)
    ensures MatchDate(Strftime(t, true), Float(45870.0))
  {
    Serial45870();
    MatchDateOfFloat(t, 45870.0, t.date);
  }

  lemma MatchDateOfFloat(t: DateTime, x: real, d: Date)
    requires ValidDateTime(t) && SerialToDateTime(x) == Ok(Midnight(d)) && t.date == d
    ensures MatchDate(Strftime(t, true), Float(x))
  {
    assert FloatOf(Float(x)) == Some(x);
    MatchDateOfMidnight(t, Float(x), d);
  }

  /**
   * A row holding the serial of the receipt's own moment (outside the 1900 leap-bug
   * window) passes both the date and the time check.
   */
  lemma MatchOwnSerial(t: DateTime)
    requires ValidDateTime(t) && t.micro == 0 && !InLeapBugWindow(t)
    ensures MatchDate(Strftime(t, true), Float(RawSerial(t)))
    ensures MatchTime(Strftime(t, true), Float(RawSerial(t)))
  {
    var x := RawSerial(t);
    RawSerialRoundTrip(t);
    assert FloatOf(Float(x)) == Some(x);
    MatchSameMoment(t, Float(x));
  }

  /** A cell converting to the receipt's own moment passes both checks. */
  lemma MatchSameMoment(t: DateTime, cell: Cell)
    requires ValidDateTime(t) && t.micro == 0 && CellDateTime(cell) == Ok(t)
    ensures MatchDate(Strftime(t, true), cell) && MatchTime(Strftime(t, true), cell)
  {
    ParseFullTimestamp(t);
    assert t.(micro := 0) == t;
    assert Distance(t, t) == 0;
  }

  /** For a timestamp cell the time check is exactly the ten-second window, both ends included. */
  lemma MatchTimeWindow(t: DateTime, o: Moment)
    requires ValidDateTime(t) && t.micro == 0
    ensures MatchTime(Strftime(t, true), Stamp(o))
      <==> -10 * MicrosPerSecond <= Instant(o) - Instant(t) <= 10 * MicrosPerSecond
  {
    ParseFullTimestamp(t);
    assert t.(micro := 0) == t;
  }

  // ----- product names -----

  /** `name.lower().replace(' ', '')`. */
  function Clean(s: string): (r: string)
    ensures |r| <= |s|
  {
    Remove(Lower(s), ' ')
  }

  /**
   * `match_product_name`: (False, 0.0) when either name is falsy; otherwise the
   * similarity of the cleaned names and whether it reaches 0.75. A truthy product cell
   * that is not a text has no `lower()`: AttributeError.
   */
  function MatchProductName(receiptName: Field<string>, order: Cell): (r: Result<(bool, real)>)
    ensures !Given(receiptName) || !Truthy(order) ==> r == Ok((false, 0.0))
    ensures Given(receiptName) && Truthy(order) && !order.Text? ==> r == Err(AttributeError)
    ensures r.Ok? ==> 0.0 <= r.value.1 <= 1.0 && (r.value.0 <==> r.value.1 >= 0.75)
    ensures Given(receiptName) && order.Text? && order.s != "" ==>
      r == Ok((Ratio(Clean(receiptName.v), Clean(order.s)) >= 0.75, Ratio(Clean(receiptName.v), Clean(order.s))))
  {
    if !Given(receiptName) || !Truthy(order) then Ok((false, 0.0))
    else if !order.Text? then Err(AttributeError)
    else
      var sim := Ratio(Clean(receiptName.v), Clean(order.s));
      Ok((sim >= 0.75, sim))
  }

  /** Names that differ only in ASCII case and blanks match with similarity 1. */
  lemma MatchSameCleanName(a: string, b: string)
    requires a != "" && b != "" && Clean(a) == Clean(b)
    ensures MatchProductName(Val(a), Text(b)) == Ok((true, 1.0))
  {
    RatioSelf(Clean(a));
  }

  lemma LowerOfNoUpper(s: string)
    requires forall i :: 0 <= i < |s| ==> !('A' <= s[i] <= 'Z')
    ensures Lower(s) == s
  {
  }

  /** A name with no upper-case ASCII letter and no blank is its own cleaned form. */
  lemma CleanOfPlain(s: string)
    requires forall i :: 0 <= i < |s| ==> !('A' <= s[i] <= 'Z') && s[i] != ' '
    ensures Clean(s) == s
  {
    LowerOfNoUpper(s);
    RemoveAbsent(s, ' ');
  }

  /**
   * A receipt name with a parenthesised suffix does not match the bare order name: 13 and 6
   * characters can share at most 6, and 12/19 is below 0.75.
   */
  lemma SuffixedNameDoesNotMatch()
    ensures MatchProductName(Val("주이패턴이불(냉감나일론)"), Text("주이패턴이불")).value.0 == false
  {
    var a, b := "주이패턴이불(냉감나일론)", "주이패턴이불";
    assert |a| == 13 && |b| == 6;
    PlainNamesOfDifferentLength(a, b);
  }

  /** Plain names (no capitals, no blanks) whose lengths are too far apart never match. */
  lemma PlainNamesOfDifferentLength(a: string, b: string)
    requires a != "" && b != ""
    requires forall i :: 0 <= i < |a| ==> !('A' <= a[i] <= 'Z') && a[i] != ' '
    requires forall i :: 0 <= i < |b| ==> !('A' <= b[i] <= 'Z') && b[i] != ' '
    requires 8 * (if |a| < |b| then |a| else |b|) < 3 * (|a| + |b|)
    ensures MatchProductName(Val(a), Text(b)).value.0 == false
  {
    CleanOfPlain(a);
    CleanOfPlain(b);
    RatioLengthBound(a, b);
  }

  /** `0.3 + 0.3 + 0.4 * similarity`. */
  function Score(similarity: real): (s: real)
    requires 0.0 <= similarity <= 1.0
    ensures 0.6 <= s <= 1.0
    ensures similarity >= 0.75 ==> 0.9 <= s
  {
    0.3 + 0.3 + 0.4 * similarity
  }

  // ----- validators -----

  /**
   * `validate_receipt_data`: `approved_at` a non-empty string in one of the two formats,
   * and a non-empty item list whose first item has a non-empty name.
   */
  predicate ValidateReceiptData(r: Receipt) {
    Given(r.approvedAt) && ParseReceiptDatetime(r.approvedAt.v).Ok? &&
    r.items.Val? && r.items.v != [] && Given(r.items.v[0].name)
  }

  /** A receipt stamped with a full timestamp is valid exactly when its first item is named. */
  lemma ValidReceiptOfTimestamp(t: DateTime, items: seq<Item>)
    requires ValidDateTime(t)
    ensures ValidateReceiptData(Receipt(Val(Strftime(t, true)), Val(items)))
      <==> items != [] && Given(items[0].name)
  {
    ParseFullTimestamp(t);
    StrftimeScansClock(t);
  }

  /** A non-blank string: present, not empty, and not all whitespace. */
  predicate NonBlank(f: Field<string>) {
    Given(f) && Strip(f.v) != ""
  }

  /** `re.match(r'^[\d\-]+$', p)` and a digit count from 10 to 11. */
  predicate PhoneAccepted(p: string) {
    p != [] && (forall i :: 0 <= i < |p| ==> IsDigit(p[i]) || p[i] == '-') &&
    10 <= |Digits(p)| <= 11
  }

  /**
   * `validate_customer_info`: name, phone and address are non-blank strings, and the
   * stripped phone holds only digits and hyphens with 10 or 11 digits.
   */
  predicate ValidateCustomerInfo(c: Customer) {
    NonBlank(c.name) && NonBlank(c.phone) && NonBlank(c.address) && PhoneAccepted(Strip(c.phone.v))
  }

  /** The extractor's normalised mobile numbers pass the customer validator's phone test. */
  lemma NormalizedPhoneAccepted(phone: string, name: string, address: string)
    requires var d := Digits(phone); (|d| == 11 && StartsWith(d, "010")) || (|d| == 10 && StartsWith(d, "01"))
    requires Strip(name) != "" && Strip(address) != ""
    ensures ValidateCustomerInfo(Customer(Val(name), Val(NormalizePhone(phone)), Val(address)))
  {
    var r := NormalizePhone(phone);
    NormalizedShape(phone);
    PhoneAcceptedOfShape(r);
    var c := Customer(Val(name), Val(r), Val(address));
    assert NonBlank(c.name) && NonBlank(c.address);
    assert Strip(c.phone.v) == r && NonBlank(c.phone);
  }

  /** Digits and hyphens, starting and ending with a digit, with 10 or 11 digits, pass as they are. */
  lemma PhoneAcceptedOfShape(r: string)
    requires r != [] && IsDigit(r[0]) && IsDigit(r[|r| - 1])
    requires forall i :: 0 <= i < |r| ==> IsDigit(r[i]) || r[i] == '-'
    requires 10 <= |Digits(r)| <= 11
    ensures Strip(r) == r && PhoneAccepted(r)
  {
    assert PhoneAccepted(r);
    StripOfTrimmed(r);
  }

  /** A phone with a character other than a digit, a hyphen or surrounding blanks is refused. */
  lemma PhoneWithLetterRefused(c: Customer, k: nat)
    requires c.phone.Val? && k < |Strip(c.phone.v)|
    requires var p := Strip(c.phone.v); !IsDigit(p[k]) && p[k] != '-'
    ensures !ValidateCustomerInfo(c)
  {
  }

  // ----- the item description -----

  /** `item.get('options', '') or ''`. */
  function OptionText(it: Item): string {
    if it.options.Val? then it.options.v else ""
  }

  /** An item whose options ask for parcel delivery. */
  predicate IsDelivery(it: Item) {
    Contains(OptionText(it), "채널추가무료배송") || Contains(OptionText(it), "택배요청")
  }

  /** The delivery items, in their order on the receipt. */
  function DeliveryItems(items: seq<Item>): (ds: seq<Item>)
    ensures forall k :: 0 <= k < |ds| ==> IsDelivery(ds[k])
  {
    Pick(items, Positions(seq(|items|, i requires 0 <= i < |items| => IsDelivery(items[i]))))
  }

  /** The delivery items are exactly the items that ask for delivery, kept in order. */
  lemma DeliveryItemsSubsequence(items: seq<Item>)
    ensures exists ps: seq<nat> ::
      Increasing(ps) && (forall k :: 0 <= k < |ps| ==> ps[k] < |items|) &&
      DeliveryItems(items) == Pick(items, ps) &&
      forall i :: 0 <= i < |items| ==> (i in ps <==> IsDelivery(items[i]))
  {
    var mask := seq(|items|, i requires 0 <= i < |items| => IsDelivery(items[i]));
    var ps := Positions(mask);
    forall i | 0 <= i < |items|
      ensures i in ps <==> IsDelivery(items[i])
    {
      if i in ps {
        var k :| 0 <= k < |ps| && ps[k] == i;
      }
    }
  }

  /** `item.get('quantity', 1)`: 1 when missing, None (no number) when null. */
  function Quantity(it: Item): Option<int> {
    match it.quantity
    case Missing => Some(1)
    case Nil => None
    case Val(q) => Some(q)
  }

  /** `sum(...)` of the quantities: TypeError when one of them is null. */
  function TotalQuantity(ds: seq<Item>): (r: Result<int>)
    ensures r.Err? <==> exists k :: 0 <= k < |ds| && ds[k].quantity.Nil?
    ensures r.Err? ==> r.error == TypeError
  {
    if ds == [] then Ok(0)
    else
      var last := ds[|ds| - 1];
      match TotalQuantity(ds[..|ds| - 1])
      case Err(e) => Err(e)
      case Ok(n) =>
        match Quantity(last)
        case None => Err(TypeError)
        case Some(q) => Ok(n + q)
  }

  /** `f"{name}"`: a missing name reads "", a null one "None". */
  function NameText(it: Item): string {
    match it.name
    case Missing => ""
    case Nil => "None"
    case Val(s) => s
  }

  /** One item in the description: the bare name for quantity 1, else "name q개". */
  function ItemText(it: Item, q: int): string {
    if q == 1 then NameText(it) else NameText(it) + " " + IntToString(q) + "개"
  }

  /** The text of each delivery item, for items whose quantities are all numbers. */
  function ItemTexts(ds: seq<Item>): (ts: seq<string>)
    requires forall k :: 0 <= k < |ds| ==> Quantity(ds[k]).Some?
    ensures |ts| == |ds| && forall k :: 0 <= k < |ds| ==> ts[k] == ItemText(ds[k], Quantity(ds[k]).value)
  {
    seq(|ds|, k requires 0 <= k < |ds| => ItemText(ds[k], Quantity(ds[k]).value))
  }

  /**
   * `format_items_for_description`: "" without delivery items, else "총N개) " with the
   * total quantity, followed by the delivery items' texts joined by "/".
   */
  function FormatItemsForDescription(items: seq<Item>): (r: Result<string>)
    ensures DeliveryItems(items) == [] ==> r == Ok("")
    ensures r.Err? <==> exists k :: 0 <= k < |DeliveryItems(items)| && DeliveryItems(items)[k].quantity.Nil?
    ensures r.Err? ==> r.error == TypeError
    ensures r.Ok? && DeliveryItems(items) != [] ==>
      StartsWith(r.value, "총" + IntToString(TotalQuantity(DeliveryItems(items)).value) + "개) ")
    ensures r.Ok? && DeliveryItems(items) != [] ==>
      r.value == "총" + IntToString(TotalQuantity(DeliveryItems(items)).value) + "개) " +
        Join(ItemTexts(DeliveryItems(items)), "/")
  {
    if items == [] then Ok("")
    else
      var ds := DeliveryItems(items);
      if ds == [] then Ok("")
      else match TotalQuantity(ds)
        case Err(e) => Err(e)
        case Ok(total) =>
          var prefix := "총" + IntToString(total) + "개) ";
          var s := prefix + Join(ItemTexts(ds), "/");
          assert s[..|prefix|] == prefix;
          Ok(s)
  }

  /** A single delivery item of quantity 1 is described as "총1개) " and its bare name. */
  lemma FormatSingleItem(it: Item, others: seq<Item>)
    requires IsDelivery(it) && it.quantity != Nil && Quantity(it) == Some(1)
    requires forall k :: 0 <= k < |others| ==> !IsDelivery(others[k])
    ensures FormatItemsForDescription([it] + others) == Ok("총1개) " + NameText(it))
  {
    var items := [it] + others;
    assert DeliveryItems(items) == [it] by {
      OnlyFirstDelivers(it, others);
    }
    assert TotalQuantity([it]) == Ok(1) by {
      assert [it][..0] == [];
    }
    assert IntToString(1) == "1";
    assert ItemTexts([it]) == [NameText(it)];
    assert Join([NameText(it)], "/") == NameText(it);
    assert "총" + "1" + "개) " == "총1개) ";
  }

  /**
   * A receipt whose delivery items are two items is described by their total and their
   * two texts, separated by "/": "총3개) A/B 2개" for A of quantity 1 and B of quantity 2.
   */
  lemma FormatTwoItems(items: seq<Item>, a: Item, b: Item)
    requires DeliveryItems(items) == [a, b] && a.quantity != Nil && b.quantity != Nil
    ensures FormatItemsForDescription(items) == Ok("총" + IntToString(Quantity(a).value + Quantity(b).value) + "개) " +
      (ItemText(a, Quantity(a).value) + "/" + ItemText(b, Quantity(b).value)))
  {
    PairTotal(a, b);
    PairTexts(a, b);
    FormatOfDeliveries(items, [a, b], Quantity(a).value + Quantity(b).value);
  }

  lemma FormatOfDeliveries(items: seq<Item>, ds: seq<Item>, total: int)
    requires DeliveryItems(items) == ds && ds != [] && TotalQuantity(ds) == Ok(total)
    ensures forall k :: 0 <= k < |ds| ==> Quantity(ds[k]).Some?
    ensures FormatItemsForDescription(items) == Ok("총" + IntToString(total) + "개) " + Join(ItemTexts(ds), "/"))
  {
    QuantitiesPresent(ds, total);
    var r := FormatItemsForDescription(items);
    assert r.Ok?;
  }

  /** A total that sums without error has a number for every item. */
  lemma QuantitiesPresent(ds: seq<Item>, total: int)
    requires TotalQuantity(ds) == Ok(total)
    ensures forall k :: 0 <= k < |ds| ==> Quantity(ds[k]).Some?
  {
    forall k | 0 <= k < |ds|
      ensures Quantity(ds[k]).Some?
    {
      assert !ds[k].quantity.Nil?;
    }
  }

  lemma PairTexts(a: Item, b: Item)
    requires a.quantity != Nil && b.quantity != Nil
    ensures Join(ItemTexts([a, b]), "/") == ItemText(a, Quantity(a).value) + "/" + ItemText(b, Quantity(b).value)
  {
    var ts := ItemTexts([a, b]);
    assert ts == [ItemText(a, Quantity(a).value), ItemText(b, Quantity(b).value)];
    JoinPair(ts, "/");
  }

  /** Two items that both ask for delivery are the receipt's delivery items. */
  lemma BothDeliver(a: Item, b: Item)
    requires IsDelivery(a) && IsDelivery(b)
    ensures DeliveryItems([a, b]) == [a, b]
  {
    var items := [a, b];
    var mask := seq(|items|, i requires 0 <= i < |items| => IsDelivery(items[i]));
    assert mask == [true, true];
    assert mask[..1] == [true] && mask[..1][..0] == [];
    assert Positions(mask) == [0, 1];
  }

  lemma PairTotal(a: Item, b: Item)
    requires a.quantity != Nil && b.quantity != Nil
    ensures TotalQuantity([a, b]) == Ok(Quantity(a).value + Quantity(b).value)
  {
    assert [a, b][..1] == [a] && [a][..0] == [];
    assert TotalQuantity([a]) == Ok(Quantity(a).value);
  }

  lemma JoinPair(ts: seq<string>, sep: string)
    requires |ts| == 2
    ensures Join(ts, sep) == ts[0] + sep + ts[1]
  {
    assert ts[1..] == [ts[1]];
  }

  lemma OnlyFirstDelivers(it: Item, others: seq<Item>)
    requires IsDelivery(it)
    requires forall k :: 0 <= k < |others| ==> !IsDelivery(others[k])
    ensures DeliveryItems([it] + others) == [it]
  {
    var items := [it] + others;
    var mask := seq(|items|, i requires 0 <= i < |items| => IsDelivery(items[i]));
    PositionsOfFirst(mask, |mask|);
    assert mask[..|mask|] == mask;
  }

  /** A mask that is true only at 0 selects position 0 alone. */
  lemma {:induction false} PositionsOfFirst(mask: seq<bool>, n: nat)
    requires 1 <= n <= |mask| && mask[0]
    requires forall i :: 1 <= i < |mask| ==> !mask[i]
    ensures Positions(mask[..n]) == [0]
  {
    if n > 1 {
      PositionsOfFirst(mask, n - 1);
      assert mask[..n][..n - 1] == mask[..n - 1];
    } else {
      assert mask[..1][..0] == [];
    }
  }

  // ----- the per-row cascade -----

  /** Why a row was not taken, as the trace records it. */
  datatype Skip =
    | NotSkipped
    | MissingValue
    | DateMismatch
    | TimeMismatch
    | ProductMismatch(similarity: real)

  /** One entry of `all_attempts`. */
  datatype Attempt = Attempt(
    index: int, product: Cell,
    dateMatch: bool, timeMatch: bool, productMatch: bool,
    similarity: Option<real>, skip: Skip, score: Option<real>)

  /** One entry of the candidate list; `option` is the row's "옵션" value, "" without the column. */
  datatype Candidate = Candidate(
    index: int, score: real, similarity: real,
    date: Cell, time: Cell, product: Cell, option: Cell)

  /** What one row leaves behind: its trace entry and, when it passed every check, a candidate. */
  datatype Outcome = Outcome(attempt: Attempt, candidate: Option<Candidate>)

  /**
   * The body of the row loop of `find_matching_orders`: the missing-value guard, then the
   * date, the time and the product checks in that order. Only the product check can raise.
   */
  function Examine(receiptDt: string, receiptName: Field<string>, index: int,
                   date: Cell, time: Cell, product: Cell, option: Cell): (r: Result<Outcome>)
    ensures r.Ok? ==> var a := r.value.attempt;
      a.index == index && a.product == product &&
      (a.timeMatch ==> a.dateMatch) && (a.productMatch ==> a.timeMatch) &&
      (a.productMatch <==> r.value.candidate.Some?) &&
      (a.skip == NotSkipped <==> a.productMatch)
    ensures r.Ok? && r.value.candidate.Some? ==>
      !IsNa(date) && !IsNa(time) && !IsNa(product) &&
      MatchDate(receiptDt, date) && MatchTime(receiptDt, time) &&
      MatchProductName(receiptName, product) == Ok((true, r.value.candidate.value.similarity)) &&
      r.value.candidate.value.index == index &&
      0.9 <= r.value.candidate.value.score <= 1.0 &&
      r.value.candidate.value.score == Score(r.value.candidate.value.similarity)
    ensures r.Err? ==>
      !IsNa(date) && !IsNa(time) && !IsNa(product) &&
      MatchDate(receiptDt, date) && MatchTime(receiptDt, time) &&
      MatchProductName(receiptName, product).Err?
    ensures (!IsNa(date) && !IsNa(time) && !IsNa(product) &&
             MatchDate(receiptDt, date) && MatchTime(receiptDt, time) &&
             MatchProductName(receiptName, product).Ok? && MatchProductName(receiptName, product).value.0)
      ==> r.Ok? && r.value.candidate.Some?
  {
    var blank := Attempt(index, product, false, false, false, None, NotSkipped, None);
    if IsNa(date) || IsNa(time) || IsNa(product) then
      Ok(Outcome(blank.(skip := MissingValue), None))
    else if !MatchDate(receiptDt, date) then
      Ok(Outcome(blank.(skip := DateMismatch), None))
    else if !MatchTime(receiptDt, time) then
      Ok(Outcome(blank.(dateMatch := true, skip := TimeMismatch), None))
    else match MatchProductName(receiptName, product)
      case Err(e) => Err(e)
      case Ok((matched, sim)) =>
        var tried := blank.(dateMatch := true, timeMatch := true, productMatch := matched, similarity := Some(sim));
        if matched then
          var score := Score(sim);
          Ok(Outcome(tried.(score := Some(score)), Some(Candidate(index, score, sim, date, time, product, option))))
        else
          Ok(Outcome(tried.(skip := ProductMismatch(sim)), None))
  }

  // ----- ordering the candidates -----

  /** Non-increasing scores. */
  predicate SortedByScore(cs: seq<Candidate>) {
    forall i, j :: 0 <= i < j < |cs| ==> cs[i].score >= cs[j].score
  }

  /** The candidates with a given score, in their order. */
  function WithScore(cs: seq<Candidate>, v: real): seq<Candidate> {
    if cs == [] then []
    else WithScore(cs[..|cs| - 1], v) + (if cs[|cs| - 1].score == v then [cs[|cs| - 1]] else [])
  }

  /** Places `c` after every candidate scoring at least as much. */
  function Insert(cs: seq<Candidate>, c: Candidate): (r: seq<Candidate>)
    ensures multiset(r) == multiset(cs) + multiset{c}
  {
    if cs == [] || cs[|cs| - 1].score >= c.score then cs + [c]
    else
      var init, last := cs[..|cs| - 1], cs[|cs| - 1];
      assert cs == init + [last];
      Insert(init, c) + [last]
  }

  /** Inserting into a list sorted by score keeps it sorted. */
  lemma {:induction false} InsertSorted(cs: seq<Candidate>, c: Candidate)
    requires SortedByScore(cs)
    ensures SortedByScore(Insert(cs, c))
    decreases |cs|
  {
    if cs != [] && cs[|cs| - 1].score < c.score {
      var init, last := cs[..|cs| - 1], cs[|cs| - 1];
      InsertSorted(init, c);
      var r := Insert(init, c);
      forall k | 0 <= k < |r|
        ensures r[k].score >= last.score
      {
        assert r[k] in multiset(r);
        if r[k] != c {
          assert r[k] in multiset(init);
          var m :| 0 <= m < |init| && init[m] == r[k];
          assert cs[m] == r[k];
        }
      }
      assert Insert(cs, c) == r + [last];
    }
  }

  /**
   * `list.sort(key=score, reverse=True)`: a stable sort, so candidates with equal scores
   * keep their order.
   */
  function SortByScore(cs: seq<Candidate>): (r: seq<Candidate>)
    ensures multiset(r) == multiset(cs)
    ensures SortedByScore(r)
  {
    if cs == [] then []
    else
      assert cs == cs[..|cs| - 1] + [cs[|cs| - 1]];
      var sorted := SortByScore(cs[..|cs| - 1]);
      InsertSorted(sorted, cs[|cs| - 1]);
      Insert(sorted, cs[|cs| - 1])
  }

  lemma {:induction false} WithScoreConcat(a: seq<Candidate>, b: seq<Candidate>, v: real)
    ensures WithScore(a + b, v) == WithScore(a, v) + WithScore(b, v)
    decreases |b|
  {
    if b == [] {
      assert a + b == a;
    } else {
      var binit := b[..|b| - 1];
      assert (a + b)[..|a + b| - 1] == a + binit;
      WithScoreConcat(a, binit, v);
    }
  }

  lemma WithScoreSingle(c: Candidate, v: real)
    ensures WithScore([c], v) == if c.score == v then [c] else []
  {
    assert [c][..0] == [];
  }

  lemma {:induction false} WithScoreInsert(cs: seq<Candidate>, c: Candidate, v: real)
    ensures WithScore(Insert(cs, c), v) == WithScore(cs, v) + WithScore([c], v)
    decreases |cs|
  {
    if cs == [] || cs[|cs| - 1].score >= c.score {
      WithScoreConcat(cs, [c], v);
    } else {
      var init, last := cs[..|cs| - 1], cs[|cs| - 1];
      var inserted := Insert(init, c);
      var wc := WithScore([c], v);
      var wl := WithScore([last], v);
      WithScoreSingle(c, v);
      WithScoreSingle(last, v);
      calc {
        WithScore(Insert(cs, c), v);
        { assert Insert(cs, c) == inserted + [last];
          assert (inserted + [last])[..|inserted|] == inserted; }
        WithScore(inserted, v) + wl;
        { WithScoreInsert(init, c, v); }
        WithScore(init, v) + wc + wl;
        { assert wc == [] || wl == []; }
        WithScore(init, v) + wl + wc;
        WithScore(cs, v) + wc;
      }
    }
  }

  /** The sort is stable: for every score, the candidates with that score keep their order. */
  lemma {:induction false} SortByScoreStable(cs: seq<Candidate>, v: real)
    ensures WithScore(SortByScore(cs), v) == WithScore(cs, v)
    decreases |cs|
  {
    if cs != [] {
      var init, last := cs[..|cs| - 1], cs[|cs| - 1];
      var sortedInit := SortByScore(init);
      calc {
        WithScore(SortByScore(cs), v);
        { assert SortByScore(cs) == Insert(sortedInit, last); }
        WithScore(Insert(sortedInit, last), v);
        { WithScoreInsert(sortedInit, last, v); }
        WithScore(sortedInit, v) + WithScore([last], v);
        { SortByScoreStable(init, v); }
        WithScore(init, v) + WithScore([last], v);
        { WithScoreSingle(last, v); }
        WithScore(cs, v);
      }
    }
  }
}
