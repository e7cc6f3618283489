/**
 * The order matcher: the row scan of `find_matching_orders` with its trace and counters,
 * the `OrderMatcher` class whose methods scan a table, group matched rows by order time and
 * write the customer details into its handler's worksheet, the status decision of
 * `match_order`, and the display conversion of the date columns before saving.
 */
module Matcher {

  import opened Wrappers
  import opened Cells
  import opened Sheets
  import opened OptionFilter
  import opened PyxlHandler
  import opened Matching
  import opened Writer

  const ProductColumn := "상품명"
  const OptionColumn := "옵션"

  // ----- the row scan of find_matching_orders -----

  /** `row[name]`: KeyError when the table has no such column. */
  function RowValue(f: Frame, i: nat, name: string): Result<Cell>
    requires WellFormed(f) && i < |f.rows|
  {
    match ColumnIndex(f.columns, name)
    case None => Err(KeyError)
    case Some(j) => Ok(f.rows[i][j])
  }

  /** `row.get('옵션', '')`. */
  function OptionValue(f: Frame, i: nat): Cell
    requires WellFormed(f) && i < |f.rows|
  {
    match ColumnIndex(f.columns, OptionColumn)
    case None => Text("")
    case Some(j) => f.rows[i][j]
  }

  /** The loop body for row `i`: read the three cells, then run the cascade on them. */
  function ExamineRow(f: Frame, dt: string, name: Field<string>, i: nat): Result<Outcome>
    requires WellFormed(f) && i < |f.rows|
  {
    match RowValue(f, i, DateColumn)
    case Err(e) => Err(e)
    case Ok(d) =>
      match RowValue(f, i, TimeColumn)
      case Err(e) => Err(e)
      case Ok(t) =>
        match RowValue(f, i, ProductColumn)
        case Err(e) => Err(e)
        case Ok(p) => Examine(dt, name, f.index[i], d, t, p, OptionValue(f, i))
  }

  /** The counters, the trace and the candidates the row loop has built so far. */
  datatype Tally = Tally(
    checked: nat, datePass: nat, timePass: nat, productPass: nat,
    attempts: seq<Attempt>, found: seq<Candidate>)

  /** One more row: the counters of the checks it passed go up, its trace entry and candidate are appended. */
  function Count(t: Tally, o: Outcome): Tally {
    Tally(
      t.checked + 1,
      t.datePass + (if o.attempt.dateMatch then 1 else 0),
      t.timePass + (if o.attempt.timeMatch then 1 else 0),
      t.productPass + (if o.attempt.productMatch then 1 else 0),
      t.attempts + [o.attempt],
      t.found + (if o.candidate.Some? then [o.candidate.value] else []))
  }

  /** The outcome of every row of the table, in row order. */
  function Outcomes(f: Frame, dt: string, name: Field<string>): (os: seq<Result<Outcome>>)
    requires WellFormed(f)
    ensures |os| == |f.rows| && forall i :: 0 <= i < |os| ==> os[i] == ExamineRow(f, dt, name, i)
  {
    seq(|f.rows|, i requires 0 <= i < |f.rows| => ExamineRow(f, dt, name, i))
  }

  /** The row loop over a sequence of row outcomes; the first row that raises ends it. */
  function Tallied(os: seq<Result<Outcome>>): Result<Tally> {
    if os == [] then Ok(Tally(0, 0, 0, 0, [], []))
    else
      match Tallied(os[..|os| - 1])
      case Err(e) => Err(e)
      case Ok(t) =>
        match os[|os| - 1]
        case Err(e) => Err(e)
        case Ok(o) => Ok(Count(t, o))
  }

  /** What the cascade guarantees of one outcome: each check is reached only past the one before. */
  predicate Coherent(o: Outcome) {
    (o.attempt.timeMatch ==> o.attempt.dateMatch) &&
    (o.attempt.productMatch ==> o.attempt.timeMatch) &&
    (o.attempt.productMatch <==> o.candidate.Some?)
  }

  lemma ExamineRowCoherent(f: Frame, dt: string, name: Field<string>, i: nat)
    requires WellFormed(f) && i < |f.rows| && ExamineRow(f, dt, name, i).Ok?
    ensures Coherent(ExamineRow(f, dt, name, i).value)
    ensures ExamineRow(f, dt, name, i).value.candidate.Some? ==>
      ExamineRow(f, dt, name, i).value.candidate.value.index == f.index[i]
  {
  }

  /** The loop raises exactly when one of its rows raises, and then with the error of the first such row. */
  lemma TalliedOk(os: seq<Result<Outcome>>)
    ensures Tallied(os).Ok? <==> forall i :: 0 <= i < |os| ==> os[i].Ok?
    ensures Tallied(os).Err? ==>
      exists i :: 0 <= i < |os| && os[i].Err? && os[i].error == Tallied(os).error && forall j :: 0 <= j < i ==> os[j].Ok?
  {
    TalliedOkIff(os);
    TalliedFirstErr(os);
  }

  lemma {:induction false} TalliedOkIff(os: seq<Result<Outcome>>)
    ensures Tallied(os).Ok? <==> forall i :: 0 <= i < |os| ==> os[i].Ok?
  {
    if os != [] {
      var init := os[..|os| - 1];
      TalliedOkIff(init);
      assert forall j :: 0 <= j < |os| - 1 ==> os[j] == init[j];
    }
  }

  lemma {:induction false} TalliedFirstErr(os: seq<Result<Outcome>>)
    ensures Tallied(os).Err? ==>
      exists i :: 0 <= i < |os| && os[i].Err? && os[i].error == Tallied(os).error && forall j :: 0 <= j < i ==> os[j].Ok?
  {
    if os != [] {
      var init := os[..|os| - 1];
      TalliedFirstErr(init);
      TalliedOkIff(init);
      if Tallied(init).Err? {
        var i :| 0 <= i < |init| && init[i].Err? && init[i].error == Tallied(init).error &&
          forall j :: 0 <= j < i ==> init[j].Ok?;
        assert Tallied(os) == Tallied(init);
        FirstErrAt(os, init, i);
      } else if os[|os| - 1].Err? {
        assert Tallied(os) == Err(os[|os| - 1].error);
        FirstErrAt(os, init, |os| - 1);
      }
    }
  }

  /** Row `i` of `os` is an error and the rows before it, which lie in `init`, are not. */
  lemma FirstErrAt(os: seq<Result<Outcome>>, init: seq<Result<Outcome>>, i: nat)
    requires os != [] && init == os[..|os| - 1] && i < |os| && os[i].Err?
    requires forall j :: 0 <= j < i && j < |init| ==> init[j].Ok?
    requires i == |os| - 1 ==> forall j :: 0 <= j < |init| ==> init[j].Ok?
    ensures exists k :: 0 <= k < |os| && os[k].Err? && os[k].error == os[i].error && forall j :: 0 <= j < k ==> os[j].Ok?
  {
    assert forall j :: 0 <= j < i ==> os[j] == init[j];
  }

  /** One more row of the loop. */
  lemma TalliedStep(os: seq<Result<Outcome>>, i: nat, t: Tally)
    requires i < |os| && Tallied(os[..i]) == Ok(t)
    ensures os[i].Err? ==> Tallied(os[..i + 1]) == Err(os[i].error)
    ensures os[i].Ok? ==> Tallied(os[..i + 1]) == Ok(Count(t, os[i].value))
  {
    assert os[..i + 1][..i] == os[..i];
  }

  /** Once the loop has raised, later rows do not change the error. */
  lemma {:induction false} TalliedStaysErr(os: seq<Result<Outcome>>, m: nat)
    requires m <= |os| && Tallied(os[..m]).Err?
    ensures Tallied(os) == Tallied(os[..m])
    decreases |os|
  {
    if |os| > m {
      assert os[..|os| - 1][..m] == os[..m];
      TalliedStaysErr(os[..|os| - 1], m);
    } else {
      assert os[..m] == os;
    }
  }

  /**
   * The counters: every row is checked and traced once, and each check is passed by at most
   * as many rows as the check before it, the last one by exactly the candidates.
   */
  lemma {:induction false} TalliedCounts(os: seq<Result<Outcome>>)
    requires Tallied(os).Ok? && forall i :: 0 <= i < |os| && os[i].Ok? ==> Coherent(os[i].value)
    ensures var t := Tallied(os).value;
      t.checked == |os| && |t.attempts| == |os| &&
      |os| >= t.datePass >= t.timePass >= t.productPass && t.productPass == |t.found|
  {
    if os != [] {
      TalliedCounts(os[..|os| - 1]);
    }
  }

  /** The trace holds the entry of every row, in row order. */
  lemma {:induction false} TalliedTrace(os: seq<Result<Outcome>>)
    requires Tallied(os).Ok?
    ensures |Tallied(os).value.attempts| == |os|
    ensures forall i :: 0 <= i < |os| ==> os[i].Ok? && Tallied(os).value.attempts[i] == os[i].value.attempt
  {
    if os != [] {
      TalliedTrace(os[..|os| - 1]);
      TalliedOk(os);
    }
  }

  /** Row `i` passed every check with candidate `c`. */
  predicate Passed(os: seq<Result<Outcome>>, i: int, c: Candidate) {
    0 <= i < |os| && os[i].Ok? && os[i].value.candidate == Some(c)
  }

  /** The candidates are exactly the candidates of the rows that passed every check. */
  lemma {:induction false} TalliedFound(os: seq<Result<Outcome>>)
    requires Tallied(os).Ok?
    ensures forall c :: c in Tallied(os).value.found ==> exists i :: Passed(os, i, c)
    ensures forall i, c :: Passed(os, i, c) ==> c in Tallied(os).value.found
  {
    if os != [] {
      var init := os[..|os| - 1];
      TalliedFound(init);
      TalliedOk(os);
      var found := Tallied(os).value.found;
      var o := os[|os| - 1].value;
      assert found == Tallied(init).value.found + (if o.candidate.Some? then [o.candidate.value] else []);
      forall c | c in found ensures exists i :: Passed(os, i, c) {
        if c in Tallied(init).value.found {
          var i :| Passed(init, i, c);
          assert Passed(os, i, c);
        } else {
          assert Passed(os, |os| - 1, c);
        }
      }
      forall i, c | Passed(os, i, c) && i < |init| ensures Passed(init, i, c) {}
    }
  }

  /** Index labels in increasing order. */
  predicate IndexIncreasing(index: seq<int>) {
    forall i, j :: 0 <= i < j < |index| ==> index[i] < index[j]
  }

  function Labels(cs: seq<Candidate>): (ls: seq<int>)
    ensures |ls| == |cs| && forall k :: 0 <= k < |cs| ==> ls[k] == cs[k].index
  {
    seq(|cs|, k requires 0 <= k < |cs| => cs[k].index)
  }

  /** Candidates carrying the labels of their rows, on increasing labels, come in increasing label order. */
  lemma {:induction false} TalliedRowOrder(os: seq<Result<Outcome>>, index: seq<int>)
    requires Tallied(os).Ok? && |index| == |os| && IndexIncreasing(index)
    requires forall i :: 0 <= i < |os| && os[i].Ok? && os[i].value.candidate.Some? ==>
      os[i].value.candidate.value.index == index[i]
    ensures IndexIncreasing(Labels(Tallied(os).value.found))
    ensures forall c :: c in Tallied(os).value.found ==> exists i :: 0 <= i < |os| && c.index == index[i]
  {
    if os != [] {
      var n := |os|;
      TalliedRowOrder(os[..n - 1], index[..n - 1]);
      TalliedOk(os);
      var t := Tallied(os[..n - 1]).value;
      var o := os[n - 1].value;
      if o.candidate.Some? {
        var c := o.candidate.value;
        forall k | 0 <= k < |t.found|
          ensures t.found[k].index < c.index
        {
          assert t.found[k] in t.found;
        }
        assert Labels(t.found + [c]) == Labels(t.found) + [c.index];
      }
    }
  }

  /** The candidates of one score are exactly the candidates of the list with that score. */
  lemma {:induction false} WithScoreMembers(cs: seq<Candidate>, v: real)
    ensures forall c :: c in WithScore(cs, v) <==> c in cs && c.score == v
  {
    if cs != [] {
      var init := cs[..|cs| - 1];
      WithScoreMembers(init, v);
      assert cs == init + [cs[|cs| - 1]];
    }
  }

  /** Keeping only the candidates of one score keeps labels in increasing order. */
  lemma {:induction false} WithScoreIncreasing(cs: seq<Candidate>, v: real)
    requires IndexIncreasing(Labels(cs))
    ensures IndexIncreasing(Labels(WithScore(cs, v)))
  {
    if cs != [] {
      var init, last := cs[..|cs| - 1], cs[|cs| - 1];
      assert Labels(init) == Labels(cs)[..|cs| - 1];
      WithScoreIncreasing(init, v);
      WithScoreMembers(init, v);
      if last.score == v {
        var w := WithScore(init, v);
        forall k | 0 <= k < |w| ensures w[k].index < last.index {
          assert w[k] in init;
          var p :| 0 <= p < |init| && init[p] == w[k];
          assert Labels(cs)[p] < Labels(cs)[|cs| - 1];
        }
        assert Labels(w + [last]) == Labels(w) + [last.index];
      }
    }
  }

  /** In a score-sorted list, the first candidate is the first among those with the top score. */
  lemma WithScoreHead(cs: seq<Candidate>)
    requires cs != [] && SortedByScore(cs)
    ensures WithScore(cs, cs[0].score) != [] && WithScore(cs, cs[0].score)[0] == cs[0]
  {
    var v := cs[0].score;
    WithScoreConcat([cs[0]], cs[1..], v);
    assert [cs[0]] + cs[1..] == cs;
    assert WithScore([cs[0]], v) == [cs[0]] by {
      assert [cs[0]][..0] == [];
    }
  }

  // ----- find_matching_orders -----

  const ReceiptInfoMissing := "영수증 정보 부족: 시간 또는 상품 정보 없음"

  /** The debug dictionary: counters, failure reasons, the trace, and the receipt's time and first product name. */
  datatype Debug = Debug(
    totalRows: nat, checkedRows: nat, datePass: nat, timePass: nat, productPass: nat,
    failedReasons: seq<string>, attempts: seq<Attempt>, receiptInfo: Option<(string, Field<string>)>)

  /** A receipt the scan starts from: a truthy `approved_at` and a non-empty item list. */
  predicate Searchable(r: Receipt) {
    Given(r.approvedAt) && r.items.Val? && r.items.v != []
  }

  /** The outcome of each row of `f` for the receipt's time and first product name. */
  function ReceiptOutcomes(r: Receipt, f: Frame): (os: seq<Result<Outcome>>)
    requires WellFormed(f) && Searchable(r)
    ensures |os| == |f.rows|
  {
    Outcomes(f, r.approvedAt.v, r.items.v[0].name)
  }

  /**
   * `find_matching_orders`: without a receipt time or items, no candidates and the reason in
   * the debug record; otherwise the row loop, then the candidates sorted by score. An error
   * in a row propagates.
   */
  function FindMatches(r: Receipt, f: Frame): (res: Result<(seq<Candidate>, Debug)>)
    requires WellFormed(f)
    ensures res.Ok? ==> SortedByScore(res.value.0) && res.value.1.totalRows == |f.rows|
    ensures !Searchable(r) ==>
      (res.Ok? && res.value.0 == [] && res.value.1.checkedRows == 0 &&
       res.value.1.attempts == [] && res.value.1.failedReasons == [ReceiptInfoMissing])
  {
    if !Searchable(r) then Ok(([], Debug(|f.rows|, 0, 0, 0, 0, [ReceiptInfoMissing], [], None)))
    else
      match Tallied(ReceiptOutcomes(r, f))
      case Err(e) => Err(e)
      case Ok(t) =>
        Ok((SortByScore(t.found),
            Debug(|f.rows|, t.checked, t.datePass, t.timePass, t.productPass, [], t.attempts,
                  Some((r.approvedAt.v, r.items.v[0].name)))))
  }

  /** The scan raises exactly when a row raises, with the error of the first row that does. */
  lemma FindMatchesRaises(r: Receipt, f: Frame)
    requires WellFormed(f) && Searchable(r)
    ensures var dt, name := r.approvedAt.v, r.items.v[0].name;
      (FindMatches(r, f).Err? <==> exists i :: 0 <= i < |f.rows| && ExamineRow(f, dt, name, i).Err?) &&
      (FindMatches(r, f).Err? ==>
         exists i :: (0 <= i < |f.rows| && ExamineRow(f, dt, name, i) == Err(FindMatches(r, f).error) &&
                      forall j :: 0 <= j < i ==> ExamineRow(f, dt, name, j).Ok?))
  {
    TalliedOk(ReceiptOutcomes(r, f));
  }

  /**
   * The debug record of a completed scan: every row checked and traced in row order, each
   * counter at most the one before it, the product counter equal to the number of candidates.
   */
  lemma FindMatchesDebug(r: Receipt, f: Frame)
    requires WellFormed(f) && Searchable(r) && FindMatches(r, f).Ok?
    ensures var (cs, d) := FindMatches(r, f).value;
      var dt, name := r.approvedAt.v, r.items.v[0].name;
      d.checkedRows == d.totalRows == |d.attempts| == |f.rows| &&
      d.totalRows >= d.datePass >= d.timePass >= d.productPass == |cs| &&
      d.failedReasons == [] && d.receiptInfo == Some((dt, name)) &&
      forall i :: 0 <= i < |f.rows| ==>
        (ExamineRow(f, dt, name, i).Ok? && d.attempts[i] == ExamineRow(f, dt, name, i).value.attempt)
  {
    var os := ReceiptOutcomes(r, f);
    forall i | 0 <= i < |os| && os[i].Ok? ensures Coherent(os[i].value) {
      ExamineRowCoherent(f, r.approvedAt.v, r.items.v[0].name, i);
    }
    TalliedCounts(os);
    TalliedTrace(os);
    var t := Tallied(os).value;
    assert |SortByScore(t.found)| == |t.found| by {
      assert |multiset(SortByScore(t.found))| == |multiset(t.found)|;
    }
  }

  /**
   * Row `i` has the date, time and product columns, no missing value among those cells, and
   * passes the date, the time and the product checks.
   */
  predicate RowMatches(f: Frame, dt: string, name: Field<string>, i: nat)
    requires WellFormed(f) && i < |f.rows|
  {
    RowValue(f, i, DateColumn).Ok? && RowValue(f, i, TimeColumn).Ok? && RowValue(f, i, ProductColumn).Ok? &&
    var d, t, p := RowValue(f, i, DateColumn).value, RowValue(f, i, TimeColumn).value, RowValue(f, i, ProductColumn).value;
    !IsNa(d) && !IsNa(t) && !IsNa(p) && MatchDate(dt, d) && MatchTime(dt, t) &&
    MatchProductName(name, p).Ok? && MatchProductName(name, p).value.0
  }

  /**
   * A row yields a candidate exactly when it matches, and the candidate carries the row's
   * label, its cells, its similarity and a score of at least 0.9.
   */
  lemma RowCandidate(f: Frame, dt: string, name: Field<string>, i: nat)
    requires WellFormed(f) && i < |f.rows|
    ensures (exists c :: Passed(Outcomes(f, dt, name), i, c)) <==> RowMatches(f, dt, name, i)
    ensures forall c :: Passed(Outcomes(f, dt, name), i, c) ==>
      c.index == f.index[i] && c.option == OptionValue(f, i) &&
      Ok(c.date) == RowValue(f, i, DateColumn) && Ok(c.time) == RowValue(f, i, TimeColumn) &&
      Ok(c.product) == RowValue(f, i, ProductColumn) &&
      MatchProductName(name, c.product) == Ok((true, c.similarity)) &&
      c.score == Score(c.similarity) && 0.9 <= c.score <= 1.0
  {
    var o := ExamineRow(f, dt, name, i);
    if RowMatches(f, dt, name, i) {
      assert Passed(Outcomes(f, dt, name), i, o.value.candidate.value);
    }
  }

  /** The candidates are exactly those of the rows that passed every check, sorted by score. */
  lemma FindMatchesCandidates(r: Receipt, f: Frame)
    requires WellFormed(f) && Searchable(r) && FindMatches(r, f).Ok?
    ensures var cs := FindMatches(r, f).value.0;
      forall c :: c in cs <==> exists i :: 0 <= i < |f.rows| && Passed(ReceiptOutcomes(r, f), i, c)
  {
    var os := ReceiptOutcomes(r, f);
    TalliedFound(os);
    var found := Tallied(os).value.found;
    forall c ensures c in SortByScore(found) <==> c in found {
      assert c in SortByScore(found) <==> c in multiset(SortByScore(found));
    }
  }

  /**
   * With increasing index labels, candidates of equal score keep the order of their rows:
   * the stable sort of `find_matching_orders`.
   */
  lemma FindMatchesTies(r: Receipt, f: Frame, v: real)
    requires WellFormed(f) && Searchable(r) && FindMatches(r, f).Ok? && IndexIncreasing(f.index)
    ensures IndexIncreasing(Labels(WithScore(FindMatches(r, f).value.0, v)))
  {
    var os := ReceiptOutcomes(r, f);
    forall i | 0 <= i < |os| && os[i].Ok? && os[i].value.candidate.Some?
      ensures os[i].value.candidate.value.index == f.index[i]
    {
      ExamineRowCoherent(f, r.approvedAt.v, r.items.v[0].name, i);
    }
    TalliedRowOrder(os, f.index);
    var found := Tallied(os).value.found;
    SortByScoreStable(found, v);
    WithScoreIncreasing(found, v);
  }

  // ----- the grouping loop -----

  /** Once the grouping loop has raised, later labels do not change the error. */
  lemma {:induction false} CollectStaysErr(ts: seq<Result<Option<Cell>>>, indices: seq<int>, m: nat, n: nat)
    requires m <= n <= |indices| == |ts| && Collect(ts, indices, m).Err?
    ensures Collect(ts, indices, n) == Collect(ts, indices, m)
    decreases n
  {
    if n > m {
      CollectStaysErr(ts, indices, m, n - 1);
    }
  }

  /** `for key in groups: groups[key].sort()`. */
  method SortEachGroup(groups: seq<Group>) returns (sorted: seq<Group>)
    ensures sorted == seq(|groups|, k requires 0 <= k < |groups| => SortedGroup(groups[k]))
  {
    sorted := [];
    for k := 0 to |groups|
      invariant |sorted| == k
      invariant forall j :: 0 <= j < k ==> sorted[j] == SortedGroup(groups[j])
    {
      sorted := sorted + [SortedGroup(groups[k])];
    }
  }

  // ----- writing customer details -----

  /** One guarded `ws.cell(row, col, value)`: only when the column was found and the value is truthy. */
  method WriteIfGiven(sheet: Worksheet, row: int, m: map<string, int>, name: string, value: Field<string>)
    requires row >= 1 && forall s :: s in m ==> m[s] >= 1
    modifies sheet
    ensures Placeable(WriteIf(row, m, name, value))
    ensures sheet.grid == ApplyWrites(old(sheet.grid), WriteIf(row, m, name, value))
  {
    if name in m && Given(value) {
      sheet.SetCell(row, m[name], Text(value.v));
    }
  }

  /** One more group of the group loop. */
  lemma GroupWritesStep(gs: seq<Group>, k: nat, m: map<string, int>, c: Customer, t: string)
    requires k < |gs|
    ensures GroupWrites(gs[..k + 1], m, c, t) == GroupWrites(gs[..k], m, c, t) + GroupRow(gs[k], m, c, t)
    ensures Written(gs[..k + 1]) == Written(gs[..k]) + if gs[k].members == [] then 0 else 1
  {
    assert gs[..k + 1][..k] == gs[..k];
    assert gs[..k + 1][k] == gs[k];
  }

  /** What one turn of the group loop adds: the next group's row, after those before it. */
  lemma GroupLoopStep(g: Grid, gs: seq<Group>, k: nat, m: map<string, int>, c: Customer, t: string)
    requires k < |gs| && Placeable(GroupWrites(gs[..k], m, c, t)) && Placeable(GroupRow(gs[k], m, c, t))
    ensures Placeable(GroupWrites(gs[..k + 1], m, c, t))
    ensures ApplyWrites(g, GroupWrites(gs[..k + 1], m, c, t))
      == ApplyWrites(ApplyWrites(g, GroupWrites(gs[..k], m, c, t)), GroupRow(gs[k], m, c, t))
    ensures Written(gs[..k + 1]) == Written(gs[..k]) + if gs[k].members == [] then 0 else 1
  {
    GroupWritesStep(gs, k, m, c, t);
    ApplyWritesAppend(g, GroupWrites(gs[..k], m, c, t), GroupRow(gs[k], m, c, t));
  }

  /** The five guarded writes of one group's first row. */
  method WriteCustomerRow(sheet: Worksheet, row: int, m: map<string, int>, c: Customer, itemsText: string)
    requires row >= 1 && forall s :: s in m ==> m[s] >= 1
    modifies sheet
    ensures Placeable(RowWrites(row, m, c, itemsText))
    ensures sheet.grid == ApplyWrites(old(sheet.grid), RowWrites(row, m, c, itemsText))
  {
    ghost var g := sheet.grid;
    var items := if itemsText == "" then Missing else Val(itemsText);
    ghost var w1, w2, w3, w4, w5 := WriteIf(row, m, NameColumn, c.name), WriteIf(row, m, PhoneColumn, c.phone),
      WriteIf(row, m, MobileColumn, c.phone), WriteIf(row, m, AddressColumn, c.address), WriteIf(row, m, ItemsColumn, items);
    WriteIfGiven(sheet, row, m, NameColumn, c.name);
    WriteIfGiven(sheet, row, m, PhoneColumn, c.phone);
    ApplyWritesAppend(g, w1, w2);
    WriteIfGiven(sheet, row, m, MobileColumn, c.phone);
    ApplyWritesAppend(g, w1 + w2, w3);
    WriteIfGiven(sheet, row, m, AddressColumn, c.address);
    ApplyWritesAppend(g, w1 + w2 + w3, w4);
    WriteIfGiven(sheet, row, m, ItemsColumn, items);
    ApplyWritesAppend(g, w1 + w2 + w3 + w4, w5);
  }

  /**
   * The header loop of `update_customer_info` and of the display conversion: each of the
   * `names` found in row 1 mapped to the last column holding it.
   */
  method HeaderColumns(sheet: Worksheet, names: seq<string>) returns (m: map<string, int>)
    ensures m == HeaderMap(sheet.grid, names, MaxColumn(sheet.grid))
  {
    m := map[];
    for col := 1 to MaxColumn(sheet.grid) + 1
      invariant m == HeaderMap(sheet.grid, names, col - 1)
    {
      var v := Get(sheet.grid, 1, col);
      if v.Text? && v.s in names {
        m := m[v.s := col];
      }
    }
  }

  /** One turn of the group loop: a non-empty group gets its first row written. */
  method WriteGroup(sheet: Worksheet, group: Group, m: map<string, int>, c: Customer, itemsText: string)
    requires (group.members != [] ==> group.members[0] >= 0) && forall s :: s in m ==> m[s] >= 1
    modifies sheet
    ensures Placeable(GroupRow(group, m, c, itemsText))
    ensures sheet.grid == ApplyWrites(old(sheet.grid), GroupRow(group, m, c, itemsText))
  {
    if group.members != [] {
      WriteCustomerRow(sheet, group.members[0] + 2, m, c, itemsText);
      assert GroupRow(group, m, c, itemsText) == RowWrites(group.members[0] + 2, m, c, itemsText);
    } else {
      assert GroupRow(group, m, c, itemsText) == [];
    }
  }

  /** The group loop of `update_customer_info`: the writes at the first row of each non-empty group. */
  method WriteGroups(sheet: Worksheet, gs: seq<Group>, m: map<string, int>, c: Customer, itemsText: string)
    returns (count: nat)
    requires RowsOfLabels(gs) && forall s :: s in m ==> m[s] >= 1
    modifies sheet
    ensures Placeable(GroupWrites(gs, m, c, itemsText))
    ensures sheet.grid == ApplyWrites(old(sheet.grid), GroupWrites(gs, m, c, itemsText))
    ensures count == Written(gs)
  {
    ghost var g := sheet.grid;
    count := 0;
    for k := 0 to |gs|
      invariant Placeable(GroupWrites(gs[..k], m, c, itemsText))
      invariant sheet.grid == ApplyWrites(g, GroupWrites(gs[..k], m, c, itemsText))
      invariant count == Written(gs[..k])
    {
      WriteGroup(sheet, gs[k], m, c, itemsText);
      GroupLoopStep(g, gs, k, m, c, itemsText);
      if gs[k].members != [] {
        count := count + 1;
      }
    }
    assert gs[..|gs|] == gs;
  }


  // ----- match_order -----

  /** Why `match_order` answers with status 'error'. */
  datatype Failure =
    | InvalidReceipt
    | InvalidCustomer
    | NoWorksheet
    | NoOptionColumn
    | Raised(error: Error)

  /** The statuses of `match_order`'s result dictionary, with the fields each carries. */
  datatype MatchResult =
    | Failed(reason: Failure)
    | NoOrders
    | NoMatch(debug: Debug, approvedAt: Field<string>, product: Field<string>)
    | Success(matched: Candidate, updated: nat, multiple: Option<nat>, debug: Debug)

  /** `receipt_data.get('items', [{}])[0].get('name', '')` when the items are truthy, else "". */
  function ReceiptProduct(r: Receipt): (p: Field<string>)
    ensures r.items.Val? && r.items.v != [] && !r.items.v[0].name.Missing? ==> p == r.items.v[0].name
    ensures !(r.items.Val? && r.items.v != []) || r.items.v[0].name.Missing? ==> p == Val("")
  {
    if r.items.Val? && r.items.v != [] && !r.items.v[0].name.Missing? then r.items.v[0].name else Val("")
  }

  /** Whether row `i` of a table holds one of the delivery keywords in its option column `j`. */
  predicate DeliveryRow(f: Frame, j: nat, i: nat)
    requires WellFormed(f) && j < |f.columns| && i < |f.rows|
  {
    KeepRow(TextOrBlank(f.rows[i][j]), DeliveryKeywords, false)
  }

  /**
   * `order_df[mask]` for the pattern "택배요청|채널추가무료배송" on the option column, or None
   * when no column name contains "옵션".
   */
  function DeliveryOrders(f: Frame): (r: Option<Frame>)
    requires WellFormed(f)
    ensures r.None? <==> FindOptionColumn(f.columns).None?
    ensures r.Some? ==> WellFormed(r.value)
  {
    match FindOptionColumn(f.columns)
    case None => None
    case Some(j) => Some(KeywordFilter(f, j, DeliveryKeywords, false))
  }

  /** The delivery orders are empty exactly when no row of the table is a delivery order. */
  lemma DeliveryOrdersEmpty(f: Frame)
    requires WellFormed(f) && DeliveryOrders(f).Some?
    ensures DeliveryOrders(f).value == KeywordFilter(f, FindOptionColumn(f.columns).value, DeliveryKeywords, false)
    ensures IsEmpty(DeliveryOrders(f).value) <==>
      forall i :: 0 <= i < |f.rows| ==> !DeliveryRow(f, FindOptionColumn(f.columns).value, i)
  {
    var j := FindOptionColumn(f.columns).value;
    var kw := DeliveryKeywords;
    KeywordFilterEmpty(f, j, kw, false);
    assert forall i :: 0 <= i < |f.rows| ==> DeliveryRow(f, j, i) == KeepRow(TextOrBlank(f.rows[i][j]), kw, false);
  }

  /** The delivery orders keep their rows' labels: increasing labels stay increasing. */
  lemma DeliveryOrdersIncreasing(f: Frame)
    requires WellFormed(f) && DeliveryOrders(f).Some? && IndexIncreasing(f.index)
    ensures IndexIncreasing(DeliveryOrders(f).value.index)
  {
    var j := FindOptionColumn(f.columns).value;
    KeywordFilterSubsequence(f, j, DeliveryKeywords, false);
    var kept := KeywordFilter(f, j, DeliveryKeywords, false);
    var ps: seq<nat> :| Increasing(ps) && (forall k :: 0 <= k < |ps| ==> ps[k] < |f.rows|) &&
      kept.rows == Pick(f.rows, ps) && kept.index == Pick(f.index, ps);
    PickIncreasing(f.index, ps);
  }

  /** Picking increasing positions out of an increasing index keeps it increasing. */
  lemma PickIncreasing(index: seq<int>, ps: seq<nat>)
    requires IndexIncreasing(index) && Increasing(ps)
    requires forall k :: 0 <= k < |ps| ==> ps[k] < |index|
    ensures IndexIncreasing(Pick(index, ps))
  {
    var r := Pick(index, ps);
    forall k, l | 0 <= k < l < |r| ensures r[k] < r[l] {
      assert ps[k] < ps[l];
    }
  }

  /** What `match_order` answers once the delivery orders have been searched. */
  function Answer(r: Receipt, c: Customer, g: Grid, found: Result<(seq<Candidate>, Debug)>): (d: (MatchResult, seq<Write>))
    ensures Placeable(d.1) && (!d.0.Success? ==> d.1 == [])
    ensures !d.0.NoOrders? && (d.0.Failed? ==> d.0.reason.Raised?)
    ensures found.Err? ==> d.0 == Failed(Raised(found.error))
    ensures d.0.NoMatch? <==> found.Ok? && found.value.0 == []
    ensures d.0.Success? ==>
      found.Ok? && found.value.0 != [] && d.0.matched == found.value.0[0] &&
      UpdatePlan(g, [d.0.matched.index], c, Some(r)) == Ok((d.1, d.0.updated))
  {
    match found
    case Err(e) => (Failed(Raised(e)), [])
    case Ok(res) =>
      var cs := res.0;
      if cs == [] then (NoMatch(res.1, r.approvedAt, ReceiptProduct(r)), [])
      else
        match UpdatePlan(g, [cs[0].index], c, Some(r))
        case Err(e) => (Failed(Raised(e)), [])
        case Ok(plan) => (Success(cs[0], plan.1, if |cs| > 1 then Some(|cs|) else None, res.1), plan.0)
  }

  /**
   * `match_order` as a function of the receipt, the customer and the worksheet's cells (None
   * when no worksheet is loaded): the result and the cell writes it makes. The checks come in
   * the source's order, and only a successful match writes.
   */
  function Decide(r: Receipt, c: Customer, sheet: Option<Grid>): (d: (MatchResult, seq<Write>))
    ensures Placeable(d.1)
    ensures !d.0.Success? ==> d.1 == []
    ensures !ValidateReceiptData(r) ==> d.0 == Failed(InvalidReceipt)
    ensures ValidateReceiptData(r) && !ValidateCustomerInfo(c) ==> d.0 == Failed(InvalidCustomer)
    ensures ValidateReceiptData(r) && ValidateCustomerInfo(c) && sheet.None? ==> d.0 == Failed(NoWorksheet)
  {
    if !ValidateReceiptData(r) then (Failed(InvalidReceipt), [])
    else if !ValidateCustomerInfo(c) then (Failed(InvalidCustomer), [])
    else if sheet.None? then (Failed(NoWorksheet), [])
    else
      match DeliveryOrders(RawFrame(sheet.value))
      case None => (Failed(NoOptionColumn), [])
      case Some(f) =>
        if IsEmpty(f) then (NoOrders, [])
        else Answer(r, c, sheet.value, FindMatches(r, f))
  }

  /** Once the inputs are valid, the decision on a loaded sheet is the search of its delivery orders. */
  lemma DecideSearches(r: Receipt, c: Customer, g: Grid)
    requires ValidateReceiptData(r) && ValidateCustomerInfo(c)
    ensures var f := RawFrame(g);
      Decide(r, c, Some(g)) ==
        if DeliveryOrders(f).None? then (Failed(NoOptionColumn), [])
        else if IsEmpty(DeliveryOrders(f).value) then (NoOrders, [])
        else Answer(r, c, g, FindMatches(r, DeliveryOrders(f).value))
  {
  }

  /** 'no_orders' exactly when the inputs are valid, there is an option column, and no row of the sheet is a delivery order. */
  lemma DecideNoOrders(r: Receipt, c: Customer, g: Grid)
    ensures Decide(r, c, Some(g)).0 == NoOrders <==>
      ValidateReceiptData(r) && ValidateCustomerInfo(c) &&
      var f := RawFrame(g);
      FindOptionColumn(f.columns).Some? &&
      forall i :: 0 <= i < |f.rows| ==> !DeliveryRow(f, FindOptionColumn(f.columns).value, i)
  {
    if ValidateReceiptData(r) && ValidateCustomerInfo(c) {
      DecideSearches(r, c, g);
      var f := RawFrame(g);
      if DeliveryOrders(f).Some? {
        DeliveryOrdersEmpty(f);
      }
    }
  }

  /** A row passing all three checks leaves a candidate. */
  lemma MatchingRowFound(r: Receipt, f: Frame, i: nat)
    requires WellFormed(f) && Searchable(r) && FindMatches(r, f).Ok? && i < |f.rows|
    requires RowMatches(f, r.approvedAt.v, r.items.v[0].name, i)
    ensures FindMatches(r, f).value.0 != []
  {
    var dt, name := r.approvedAt.v, r.items.v[0].name;
    var os := ReceiptOutcomes(r, f);
    assert os == Outcomes(f, dt, name);
    RowCandidate(f, dt, name, i);
    var d :| Passed(os, i, d);
    FindMatchesCandidates(r, f);
    assert d in FindMatches(r, f).value.0;
  }

  /** A search that finds no candidate: no row passes all three checks. */
  lemma NoCandidates(r: Receipt, f: Frame)
    requires WellFormed(f) && Searchable(r) && FindMatches(r, f).Ok? && FindMatches(r, f).value.0 == []
    ensures forall i :: 0 <= i < |f.rows| ==> !RowMatches(f, r.approvedAt.v, r.items.v[0].name, i)
  {
    forall i | 0 <= i < |f.rows| ensures !RowMatches(f, r.approvedAt.v, r.items.v[0].name, i) {
      if RowMatches(f, r.approvedAt.v, r.items.v[0].name, i) {
        MatchingRowFound(r, f, i);
      }
    }
  }

  /** 'no_match' exactly when the search of the delivery orders finds no row passing all three checks. */
  lemma DecideNoMatch(r: Receipt, c: Customer, g: Grid)
    requires Decide(r, c, Some(g)).0.NoMatch?
    ensures ValidateReceiptData(r) && DeliveryOrders(RawFrame(g)).Some?
    ensures var f := DeliveryOrders(RawFrame(g)).value;
      forall i :: 0 <= i < |f.rows| ==> !RowMatches(f, r.approvedAt.v, r.items.v[0].name, i)
  {
    DecideSearches(r, c, g);
    NoCandidates(r, DeliveryOrders(RawFrame(g)).value);
  }

  /**
   * The first of a search's candidates passed all three checks, no candidate scores higher,
   * and it comes first among the rows with its score.
   */
  lemma BestCandidate(r: Receipt, f: Frame)
    requires WellFormed(f) && Searchable(r) && IndexIncreasing(f.index)
    requires FindMatches(r, f).Ok? && FindMatches(r, f).value.0 != []
    ensures var os := ReceiptOutcomes(r, f);
      var top := FindMatches(r, f).value.0[0];
      (exists i :: 0 <= i < |f.rows| && Passed(os, i, top)) &&
      forall i, d :: Passed(os, i, d) ==> d.score <= top.score && (d.score == top.score ==> top.index <= d.index)
  {
    var os := ReceiptOutcomes(r, f);
    var cs := FindMatches(r, f).value.0;
    var top := cs[0];
    FindMatchesCandidates(r, f);
    var v := top.score;
    FindMatchesTies(r, f, v);
    WithScoreHead(cs);
    WithScoreMembers(cs, v);
    var w := WithScore(cs, v);
    assert top in cs;
    forall i, d | Passed(os, i, d)
      ensures d.score <= v && (d.score == v ==> top.index <= d.index)
    {
      assert d in cs;
      var k :| 0 <= k < |cs| && cs[k] == d;
      if d.score == v {
        assert d in w;
        var l :| 0 <= l < |w| && w[l] == d;
        if l > 0 {
          assert Labels(w)[0] < Labels(w)[l];
        }
      }
    }
  }

  /**
   * A success writes at the best candidate among the sheet's delivery orders: it passed all
   * three checks, no candidate scores higher, it is the earliest row with its score, and the
   * writes are those of `update_customer_info` for its label alone, which go to customer
   * columns of data rows and count exactly one group: the matched row passed the time check,
   * so its order time is present and files it.
   */
  lemma DecideSuccess(r: Receipt, c: Customer, g: Grid)
    requires Bounded(g) && Decide(r, c, Some(g)).0.Success?
    ensures DeliveryOrders(RawFrame(g)).Some? && ValidateReceiptData(r)
    ensures var res := Decide(r, c, Some(g)).0;
      var f := DeliveryOrders(RawFrame(g)).value;
      var os := ReceiptOutcomes(r, f);
      (exists i :: 0 <= i < |f.rows| && Passed(os, i, res.matched)) &&
      forall i, d :: Passed(os, i, d) ==>
        d.score <= res.matched.score && (d.score == res.matched.score ==> res.matched.index <= d.index)
    ensures var res := Decide(r, c, Some(g)).0;
      var ws := Decide(r, c, Some(g)).1;
      UpdatePlan(g, [res.matched.index], c, Some(r)) == Ok((ws, res.updated)) && res.updated == 1 &&
      forall k :: 0 <= k < |ws| ==> 2 <= ws[k].row <= g.rows && CustomerHeader(g, ws[k].col)
  {
    DecideSearches(r, c, g);
    var raw := RawFrame(g);
    var f := DeliveryOrders(raw).value;
    assert IndexIncreasing(raw.index);
    DeliveryOrdersIncreasing(raw);
    BestCandidate(r, f);
    var res := Decide(r, c, Some(g)).0;
    var i :| 0 <= i < |f.rows| && Passed(ReceiptOutcomes(r, f), i, res.matched);
    RowCandidate(f, r.approvedAt.v, r.items.v[0].name, i);
    DeliveryRowTime(raw, f, i);
    UpdatePlanTargets(g, [res.matched.index], c, Some(r));
    GroupsOfOneLabel(raw, res.matched.index);
  }

  /**
   * A delivery row whose order time passes the time check: looking its label up in the
   * whole table gives that same time, present.
   */
  lemma DeliveryRowTime(raw: Frame, f: Frame, i: nat)
    requires WellFormed(raw) && IndexIncreasing(raw.index) && DeliveryOrders(raw) == Some(f) && i < |f.rows|
    requires RowValue(f, i, TimeColumn).Ok? && !IsNa(RowValue(f, i, TimeColumn).value) &&
      CellDateTime(RowValue(f, i, TimeColumn).value).Ok?
    ensures TimeAt(raw, f.index[i]) == Ok(Some(RowValue(f, i, TimeColumn).value))
  {
    var j := FindOptionColumn(raw.columns).value;
    assert f == KeywordFilter(raw, j, DeliveryKeywords, false);
    var p := KeptRowPosition(raw, j, DeliveryKeywords, false, i);
    PickedRowTime(raw, f, p, i);
  }

  /** Row `i` of the filtered table is some row `p` of the table, with its label. */
  lemma KeptRowPosition(raw: Frame, j: nat, keywords: seq<string>, all: bool, i: nat) returns (p: nat)
    requires WellFormed(raw) && j < |raw.columns| && i < |KeywordFilter(raw, j, keywords, all).rows|
    ensures p < |raw.rows| && KeywordFilter(raw, j, keywords, all).rows[i] == raw.rows[p]
    ensures KeywordFilter(raw, j, keywords, all).index[i] == raw.index[p]
  {
    var ps := Positions(KeepMask(OptionTexts(raw, j), keywords, all));
    p := ps[i];
  }

  /** Row `i` of a selection is row `p` of the table: its label finds row `p` and its time there. */
  lemma PickedRowTime(raw: Frame, f: Frame, p: nat, i: nat)
    requires WellFormed(raw) && IndexIncreasing(raw.index) && WellFormed(f) && f.columns == raw.columns
    requires p < |raw.rows| && i < |f.rows| && f.rows[i] == raw.rows[p] && f.index[i] == raw.index[p]
    requires RowValue(f, i, TimeColumn).Ok? && !IsNa(RowValue(f, i, TimeColumn).value) &&
      CellDateTime(RowValue(f, i, TimeColumn).value).Ok?
    ensures TimeAt(raw, f.index[i]) == Ok(Some(RowValue(f, i, TimeColumn).value))
  {
    var q := LabelPosition(raw.index, raw.index[p]).value;
    assert raw.index[q] == raw.index[p];
  }

  // ----- convert_date_columns_for_display -----

  /**
   * One date cell of the display loop: a truthy number in the column called `s` becomes the
   * text of its serial date; a cell whose conversion raises keeps its value.
   */
  method ConvertCell(sheet: Worksheet, ghost g: Grid, m: map<string, int>, row: int, s: string)
    requires row >= 1 && forall t :: t in m ==> m[t] >= 1
    requires s in m ==> Get(sheet.grid, row, m[s]) == Get(g, row, m[s])
    modifies sheet
    ensures Placeable(CellDisplay(g, m, row, s, DisplayCell))
    ensures sheet.grid == ApplyWrites(old(sheet.grid), CellDisplay(g, m, row, s, DisplayCell))
  {
    if s in m {
      var shown := DisplayCell(Get(sheet.grid, row, m[s]), s == TimeColumn);
      if shown.Some? {
        sheet.SetCell(row, m[s], shown.value);
      }
    }
  }

  /** A cell no write goes to keeps its value. */
  lemma Unwritten(g: Grid, ws: seq<Write>, r: int, c: int)
    requires Placeable(ws) && forall k :: 0 <= k < |ws| ==> (ws[k].row, ws[k].col) != (r, c)
    ensures Get(ApplyWrites(g, ws), r, c) == Get(g, r, c)
  {
    GetApplyWrites(g, ws, r, c);
    LastWriteSome(ws, r, c);
  }

  /** One row of the display loop: its date cell, then its time cell. */
  method ConvertRow(sheet: Worksheet, ghost g: Grid, m: map<string, int>, row: int)
    requires row >= 1 && forall t :: t in m ==> m[t] >= 1
    requires DateColumn in m && TimeColumn in m ==> m[DateColumn] != m[TimeColumn]
    requires forall t :: t in m ==> Get(sheet.grid, row, m[t]) == Get(g, row, m[t])
    modifies sheet
    ensures Placeable(RowDisplay(g, m, row, DisplayCell))
    ensures sheet.grid == ApplyWrites(old(sheet.grid), RowDisplay(g, m, row, DisplayCell))
  {
    ghost var h := sheet.grid;
    ghost var date := CellDisplay(g, m, row, DateColumn, DisplayCell);
    ghost var time := CellDisplay(g, m, row, TimeColumn, DisplayCell);
    ConvertCell(sheet, g, m, row, DateColumn);
    if TimeColumn in m {
      Unwritten(h, date, row, m[TimeColumn]);
    }
    ConvertCell(sheet, g, m, row, TimeColumn);
    ApplyWritesAppend(h, date, time);
  }

  /**
   * `convert_date_columns_for_display`: the date columns found in row 1, then every data row's
   * cells in them converted in place, row by row; the sheet ends as the display writes make it.
   */
  method ConvertDateColumnsForDisplay(sheet: Worksheet)
    modifies sheet
    ensures sheet.grid == ApplyWrites(old(sheet.grid), DisplayWrites(old(sheet.grid)))
  {
    ghost var g := sheet.grid;
    var m := HeaderColumns(sheet, DisplayColumns);
    assert m == DateHeaders(g);
    DistinctDateColumns(g);
    for row := 2 to MaxRow(sheet.grid) + 1
      invariant Placeable(DisplayRows(g, m, row, DisplayCell))
      invariant sheet.grid == ApplyWrites(g, DisplayRows(g, m, row, DisplayCell))
    {
      ghost var done := DisplayRows(g, m, row, DisplayCell);
      forall t | t in m ensures Get(sheet.grid, row, m[t]) == Get(g, row, m[t]) {
        Unwritten(g, done, row, m[t]);
      }
      ConvertRow(sheet, g, m, row);
      ApplyWritesAppend(g, done, RowDisplay(g, m, row, DisplayCell));
    }
  }

  // ----- the matcher -----

  class OrderMatcher {
    const handler: ExcelHandlerPyXL
    /** The time tolerance, fixed at 10 seconds. */
    const timeToleranceSeconds: int

    constructor (handler: ExcelHandlerPyXL)
      ensures this.handler == handler && timeToleranceSeconds == ToleranceSeconds
    {
      this.handler := handler;
      timeToleranceSeconds := ToleranceSeconds;
    }

    /**
     * `find_matching_orders`: the row loop with its counters, trace and candidates, then the
     * stable sort by descending score.
     */
    method FindMatchingOrders(receipt: Receipt, orders: Frame) returns (r: Result<(seq<Candidate>, Debug)>)
      requires WellFormed(orders)
      ensures r == FindMatches(receipt, orders)
    {
      if !Searchable(receipt) {
        return Ok(([], Debug(|orders.rows|, 0, 0, 0, 0, [ReceiptInfoMissing], [], None)));
      }
      var dt, name := receipt.approvedAt.v, receipt.items.v[0].name;
      ghost var os := ReceiptOutcomes(receipt, orders);
      var t := Tally(0, 0, 0, 0, [], []);
      for i := 0 to |orders.rows|
        invariant Tallied(os[..i]) == Ok(t)
      {
        var o := ExamineRow(orders, dt, name, i);
        assert os[i] == o;
        TalliedStep(os, i, t);
        if o.Err? {
          TalliedStaysErr(os, i + 1);
          return Err(o.error);
        }
        t := Count(t, o.value);
      }
      assert os[..|os|] == os;
      var matching := SortByScore(t.found);
      return Ok((matching, Debug(|orders.rows|, t.checked, t.datePass, t.timePass, t.productPass, [], t.attempts, Some((dt, name)))));
    }

    /**
     * `group_by_order_time`: each label filed under its row's order time, labels without a
     * time skipped, then each group's labels sorted.
     */
    method GroupByOrderTime(orders: Frame, indices: seq<int>) returns (r: Result<seq<Group>>)
      requires WellFormed(orders)
      ensures r == GroupsOf(orders, indices)
    {
      ghost var ts := TimesOf(orders, indices);
      var groups: seq<Group> := [];
      for n := 0 to |indices|
        invariant Collect(ts, indices, n) == Ok(groups)
      {
        var t := TimeAt(orders, indices[n]);
        assert t == ts[n];
        if t.Err? {
          CollectStaysErr(ts, indices, n + 1, |indices|);
          return Err(t.error);
        }
        if t.value.Some? {
          groups := FileUnder(groups, t.value.value, indices[n]);
        }
      }
      var sorted := SortEachGroup(groups);
      assert Collect(ts, indices, |indices|) == Ok(groups);
      return Ok(sorted);
    }

    /**
     * `update_customer_info`: without a worksheet, 0; otherwise the groups of the matched
     * labels, the customer header columns and the item description, then the writes at the
     * first row of each group. An error in the grouping or the description leaves the sheet
     * as it was.
     */
    method UpdateCustomerInfo(indices: seq<int>, c: Customer, receipt: Option<Receipt>) returns (r: Result<nat>)
      modifies handler.worksheet
      ensures handler.worksheet == null ==> r == Ok(0)
      ensures handler.worksheet != null ==>
        var plan := UpdatePlan(old(handler.worksheet.grid), indices, c, receipt);
        (plan.Err? ==> r == Err(plan.error) && handler.worksheet.grid == old(handler.worksheet.grid)) &&
        (plan.Ok? ==> r == Ok(plan.value.1) && handler.worksheet.grid == ApplyWrites(old(handler.worksheet.grid), plan.value.0))
    {
      var sheet := handler.worksheet;
      if sheet == null {
        return Ok(0);
      }
      ghost var g := sheet.grid;
      var groups := GroupByOrderTime(RawFrame(sheet.grid), indices);
      if groups.Err? {
        return Err(groups.error);
      }
      var mapping := HeaderColumns(sheet, CustomerColumns);
      var itemsText := "";
      if receipt.Some? && receipt.value.items.Val? && receipt.value.items.v != [] {
        var t := FormatItemsForDescription(receipt.value.items.v);
        if t.Err? {
          return Err(t.error);
        }
        itemsText := t.value;
      }
      assert ItemsText(receipt) == Ok(itemsText);
      LabelsAreRows(g, indices);
      var count := WriteGroups(sheet, groups.value, mapping, c, itemsText);
      return Ok(count);
    }

    /**
     * `match_order`: validate the inputs, keep the delivery orders of the worksheet, search
     * them, and write the customer details at the best candidate's row.
     */
    method MatchOrder(receipt: Receipt, c: Customer) returns (res: MatchResult)
      modifies handler.worksheet
      ensures handler.worksheet == null ==> res == Decide(receipt, c, None).0
      ensures handler.worksheet != null ==>
        var d := Decide(receipt, c, Some(old(handler.worksheet.grid)));
        res == d.0 && handler.worksheet.grid == ApplyWrites(old(handler.worksheet.grid), d.1)
    {
      if !ValidateReceiptData(receipt) {
        return Failed(InvalidReceipt);
      }
      if !ValidateCustomerInfo(c) {
        return Failed(InvalidCustomer);
      }
      var sheet := handler.worksheet;
      if sheet == null {
        return Failed(NoWorksheet);
      }
      var orders := RawFrame(sheet.grid);
      var optionCol := FindOptionColumn(orders.columns);
      if optionCol.None? {
        return Failed(NoOptionColumn);
      }
      var filtered := KeywordFilter(orders, optionCol.value, DeliveryKeywords, false);
      assert DeliveryOrders(orders) == Some(filtered);
      DecideSearches(receipt, c, sheet.grid);
      if IsEmpty(filtered) {
        return NoOrders;
      }
      res := SearchAndRecord(receipt, c, filtered);
    }

    /**
     * The tail of `match_order` once the delivery orders are known: search them, and on a
     * match write the customer details at the best candidate's row.
     */
    method SearchAndRecord(receipt: Receipt, c: Customer, filtered: Frame) returns (res: MatchResult)
      requires handler.worksheet != null && WellFormed(filtered)
      modifies handler.worksheet
      ensures var d := Answer(receipt, c, old(handler.worksheet.grid), FindMatches(receipt, filtered));
        res == d.0 && handler.worksheet.grid == ApplyWrites(old(handler.worksheet.grid), d.1)
    {
      var found := FindMatchingOrders(receipt, filtered);
      if found.Err? {
        return Failed(Raised(found.error));
      }
      var cs, debug := found.value.0, found.value.1;
      if cs == [] {
        return NoMatch(debug, receipt.approvedAt, ReceiptProduct(receipt));
      }
      var updated := UpdateCustomerInfo([cs[0].index], c, Some(receipt));
      if updated.Err? {
        return Failed(Raised(updated.error));
      }
      return Success(cs[0], updated.value, if |cs| > 1 then Some(|cs|) else None, debug);
    }
  }
}
