/**
 * What the matcher's writer does to a worksheet, as values: batches of cell writes and
 * the grid they leave, the header lookup by name, the grouping of matched rows by their
 * order time, the customer details written at the first row of each group, and the
 * display conversion of the date columns before saving.
 */
module Writer {

  import opened Wrappers
  import opened Text
  import opened Calendar
  import opened TimeFormat
  import opened Cells
  import opened SerialCodec
  import opened Sheets
  import opened Matching

  // ----- batches of cell writes -----

  /** `ws.cell(row, col, value)`. */
  datatype Write = Write(row: int, col: int, value: Cell)

  predicate Placeable(ws: seq<Write>) {
    forall k :: 0 <= k < |ws| ==> ws[k].row >= 1 && ws[k].col >= 1
  }

  /** The grid after the writes, one after the other. */
  function ApplyWrites(g: Grid, ws: seq<Write>): Grid
    requires Placeable(ws)
  {
    if ws == [] then g
    else
      var w := ws[|ws| - 1];
      Put(ApplyWrites(g, ws[..|ws| - 1]), w.row, w.col, w.value)
  }

  /** The value of the last write to (r, c), if any. */
  function LastWrite(ws: seq<Write>, r: int, c: int): Option<Cell> {
    if ws == [] then None
    else if (ws[|ws| - 1].row, ws[|ws| - 1].col) == (r, c) then Some(ws[|ws| - 1].value)
    else LastWrite(ws[..|ws| - 1], r, c)
  }

  /** A cell is written exactly when some write goes to it. */
  lemma {:induction false} LastWriteSome(ws: seq<Write>, r: int, c: int)
    ensures LastWrite(ws, r, c).None? <==> forall k :: 0 <= k < |ws| ==> (ws[k].row, ws[k].col) != (r, c)
  {
    if ws != [] {
      LastWriteSome(ws[..|ws| - 1], r, c);
      assert forall k :: 0 <= k < |ws| - 1 ==> ws[..|ws| - 1][k] == ws[k];
    }
  }

  /** Every cell reads the last value written to it, or its old value when it was not written. */
  lemma {:induction false} ApplyWritesCells(g: Grid, ws: seq<Write>)
    requires Placeable(ws)
    ensures forall key :: key in ApplyWrites(g, ws).cells <==> key in g.cells || LastWrite(ws, key.0, key.1).Some?
    ensures forall key :: key in ApplyWrites(g, ws).cells ==>
      ApplyWrites(g, ws).cells[key] == if LastWrite(ws, key.0, key.1).Some? then LastWrite(ws, key.0, key.1).value else g.cells[key]
  {
    if ws != [] {
      ApplyWritesCells(g, ws[..|ws| - 1]);
    }
  }

  lemma GetApplyWrites(g: Grid, ws: seq<Write>, r: int, c: int)
    requires Placeable(ws)
    ensures Get(ApplyWrites(g, ws), r, c) == if LastWrite(ws, r, c).Some? then LastWrite(ws, r, c).value else Get(g, r, c)
  {
    ApplyWritesCells(g, ws);
  }

  /** The cells of a grid all lie inside its extent, as in every openpyxl sheet. */
  predicate Bounded(g: Grid) {
    forall key :: key in g.cells ==> 1 <= key.0 <= g.rows && 1 <= key.1 <= g.cols
  }

  /** Writes inside the extent of a grid. */
  predicate Inside(ws: seq<Write>, g: Grid) {
    forall k :: 0 <= k < |ws| ==> 1 <= ws[k].row <= g.rows && 1 <= ws[k].col <= g.cols
  }

  lemma {:induction false} ApplyWritesExtent(g: Grid, ws: seq<Write>)
    requires Inside(ws, g)
    ensures Placeable(ws)
    ensures ApplyWrites(g, ws).rows == g.rows && ApplyWrites(g, ws).cols == g.cols
  {
    if ws != [] {
      assert Inside(ws[..|ws| - 1], g);
      ApplyWritesExtent(g, ws[..|ws| - 1]);
    }
  }

  /** Writes inside the extent keep a grid bounded, and applying them twice is applying them once. */
  lemma ApplyWritesTwice(g: Grid, ws: seq<Write>)
    requires Bounded(g) && Inside(ws, g)
    ensures Placeable(ws)
    ensures Bounded(ApplyWrites(g, ws)) && Inside(ws, ApplyWrites(g, ws))
    ensures ApplyWrites(ApplyWrites(g, ws), ws) == ApplyWrites(g, ws)
  {
    ApplyWritesExtent(g, ws);
    var h := ApplyWrites(g, ws);
    ApplyWritesCells(g, ws);
    forall key | key in h.cells
      ensures 1 <= key.0 <= h.rows && 1 <= key.1 <= h.cols
    {
      LastWriteSome(ws, key.0, key.1);
    }
    ApplyWritesExtent(h, ws);
    var h2 := ApplyWrites(h, ws);
    ApplyWritesCells(g, ws);
    ApplyWritesCells(h, ws);
    assert h2.cells == h.cells;
  }

  /** A batch followed by another is their concatenation. */
  lemma {:induction false} ApplyWritesAppend(g: Grid, a: seq<Write>, b: seq<Write>)
    requires Placeable(a) && Placeable(b)
    ensures Placeable(a + b)
    ensures ApplyWrites(g, a + b) == ApplyWrites(ApplyWrites(g, a), b)
    decreases |b|
  {
    if b == [] {
      assert a + b == a;
    } else {
      assert (a + b)[..|a + b| - 1] == a + b[..|b| - 1];
      ApplyWritesAppend(g, a, b[..|b| - 1]);
    }
  }

  // ----- finding columns by their header -----

  /**
   * The header loop `for c in 1..max_column: if value in names: mapping[value] = c` over the
   * first `n` columns: each name maps to the last column whose header cell holds it.
   */
  function HeaderMap(g: Grid, names: seq<string>, n: nat): (m: map<string, int>)
    ensures forall s :: s in m ==> s in names && 1 <= m[s] <= n && Get(g, 1, m[s]) == Text(s)
  {
    if n == 0 then map[]
    else
      var m := HeaderMap(g, names, n - 1);
      var v := Get(g, 1, n);
      if v.Text? && v.s in names then m[v.s := n] else m
  }

  /** A name found in the header maps to the last column that holds it. */
  lemma HeaderMapLast(g: Grid, names: seq<string>, n: nat, s: string)
    ensures s in HeaderMap(g, names, n) <==> s in names && exists c :: 1 <= c <= n && Get(g, 1, c) == Text(s)
    ensures s in HeaderMap(g, names, n) ==> forall c :: HeaderMap(g, names, n)[s] < c <= n ==> Get(g, 1, c) != Text(s)
  {
    HeaderMapFound(g, names, n, s);
    HeaderMapLastColumn(g, names, n, s);
  }

  lemma {:induction false} HeaderMapFound(g: Grid, names: seq<string>, n: nat, s: string)
    ensures s in HeaderMap(g, names, n) <==> s in names && exists c :: 1 <= c <= n && Get(g, 1, c) == Text(s)
  {
    if n > 0 {
      HeaderMapFound(g, names, n - 1, s);
      if s in names && exists c :: 1 <= c <= n && Get(g, 1, c) == Text(s) {
        var c :| 1 <= c <= n && Get(g, 1, c) == Text(s);
        if c < n {
          assert s in HeaderMap(g, names, n - 1);
        }
      }
    }
  }

  lemma {:induction false} HeaderMapLastColumn(g: Grid, names: seq<string>, n: nat, s: string)
    ensures s in HeaderMap(g, names, n) ==> forall c :: HeaderMap(g, names, n)[s] < c <= n ==> Get(g, 1, c) != Text(s)
  {
    if n > 0 && s in HeaderMap(g, names, n) {
      HeaderMapLastColumn(g, names, n - 1, s);
      var m0, m := HeaderMap(g, names, n - 1), HeaderMap(g, names, n);
      if Get(g, 1, n) != Text(s) {
        assert m[s] == m0[s];
        forall c | m[s] < c <= n
          ensures Get(g, 1, c) != Text(s)
        {
        }
      }
    }
  }

  /** Header cells holding different names lie in different columns. */
  lemma HeaderMapDistinct(g: Grid, names: seq<string>, n: nat, a: string, b: string)
    requires a in HeaderMap(g, names, n) && b in HeaderMap(g, names, n) && a != b
    ensures HeaderMap(g, names, n)[a] != HeaderMap(g, names, n)[b]
  {
  }

  // ----- grouping the matched rows by order time -----

  const TimeColumn := "주문시작시각"

  /** `df.loc[label]`: the position of the first row with that index label. */
  function LabelPosition(index: seq<int>, idx: int): (p: Option<nat>)
    ensures p.None? <==> idx !in index
    ensures p.Some? ==> p.value < |index| && index[p.value] == idx
  {
    if index == [] then None
    else if index[0] == idx then Some(0)
    else match LabelPosition(index[1..], idx)
      case None => None
      case Some(k) => Some(k + 1)
  }

  /**
   * `order_df.loc[idx, '주문시작시각']` and its conversion: KeyError without the column or
   * the label, None for a missing value, and ValueError where `float()` of a text fails.
   */
  function TimeAt(f: Frame, idx: int): (r: Result<Option<Cell>>)
    requires WellFormed(f)
    ensures r.Ok? && r.value.Some? ==> !IsNa(r.value.value)
    ensures r.Ok? ==> idx in f.index
  {
    match ColumnIndex(f.columns, TimeColumn)
    case None => Err(KeyError)
    case Some(c) =>
      match LabelPosition(f.index, idx)
      case None => Err(KeyError)
      case Some(p) =>
        var v := f.rows[p][c];
        if IsNa(v) then Ok(None)
        else if v.Stamp? || FloatOf(v).Some? then Ok(Some(v))
        else Err(ValueError)
  }

  /** One entry of the grouping dictionary: the raw time value and the labels filed under it. */
  datatype Group = Group(key: Cell, members: seq<int>)

  /** The dictionary lookup: the group whose key equals `key`. */
  function FindKey(gs: seq<Group>, key: Cell): (k: Option<nat>)
    ensures k.Some? ==> k.value < |gs| && PyEq(gs[k.value].key, key)
    ensures k.None? ==> forall j :: 0 <= j < |gs| ==> !PyEq(gs[j].key, key)
  {
    if gs == [] then None
    else if PyEq(gs[|gs| - 1].key, key) then Some(|gs| - 1)
    else FindKey(gs[..|gs| - 1], key)
  }

  /** Files `idx` under `key`: appended to the existing group, or a new group at the end. */
  function FileUnder(gs: seq<Group>, key: Cell, idx: int): (r: seq<Group>)
    ensures |r| == |gs| || |r| == |gs| + 1
  {
    match FindKey(gs, key)
    case Some(k) => gs[k := Group(gs[k].key, gs[k].members + [idx])]
    case None => gs + [Group(key, [idx])]
  }

  /** The results of `TimeAt` for the labels in turn. */
  function TimesOf(f: Frame, indices: seq<int>): (ts: seq<Result<Option<Cell>>>)
    requires WellFormed(f)
    ensures |ts| == |indices| && forall i :: 0 <= i < |indices| ==> ts[i] == TimeAt(f, indices[i])
    ensures PresentTimes(ts)
  {
    seq(|indices|, i requires 0 <= i < |indices| => TimeAt(f, indices[i]))
  }

  /** No present time is a missing value. */
  predicate PresentTimes(ts: seq<Result<Option<Cell>>>) {
    forall i :: 0 <= i < |ts| && ts[i].Ok? && ts[i].value.Some? ==> !IsNa(ts[i].value.value)
  }

  /**
   * The grouping loop over the first `n` labels, before the groups are sorted, given the
   * result of the time lookup of each label.
   */
  function Collect(ts: seq<Result<Option<Cell>>>, indices: seq<int>, n: nat): Result<seq<Group>>
    requires n <= |indices| == |ts|
  {
    if n == 0 then Ok([])
    else match Collect(ts, indices, n - 1)
      case Err(e) => Err(e)
      case Ok(gs) =>
        match ts[n - 1]
        case Err(e) => Err(e)
        case Ok(None) => Ok(gs)
        case Ok(Some(v)) => Ok(FileUnder(gs, v, indices[n - 1]))
  }

  predicate Ascending(s: seq<int>) {
    forall i, j :: 0 <= i < j < |s| ==> s[i] <= s[j]
  }

  /** `list.sort()` of labels. */
  function SortLabels(s: seq<int>): (r: seq<int>)
    ensures Ascending(r) && multiset(r) == multiset(s)
  {
    if s == [] then []
    else
      assert s == s[..|s| - 1] + [s[|s| - 1]];
      InsertLabel(SortLabels(s[..|s| - 1]), s[|s| - 1])
  }

  function InsertLabel(s: seq<int>, x: int): (r: seq<int>)
    requires Ascending(s)
    ensures Ascending(r) && multiset(r) == multiset(s) + multiset{x}
    ensures |r| == |s| + 1 && (r[|r| - 1] == x || (s != [] && r[|r| - 1] == s[|s| - 1]))
  {
    if s == [] || s[|s| - 1] <= x then s + [x]
    else
      assert s == s[..|s| - 1] + [s[|s| - 1]];
      InsertLabel(s[..|s| - 1], x) + [s[|s| - 1]]
  }

  /** `group_by_order_time`: the groups of the labels, each sorted ascending. */
  function GroupsOf(f: Frame, indices: seq<int>): Result<seq<Group>>
    requires WellFormed(f)
  {
    match Collect(TimesOf(f, indices), indices, |indices|)
    case Err(e) => Err(e)
    case Ok(gs) => Ok(seq(|gs|, k requires 0 <= k < |gs| => SortedGroup(gs[k])))
  }

  /** A group with its labels sorted. */
  function SortedGroup(g: Group): Group {
    Group(g.key, SortLabels(g.members))
  }

  /** Each label opens at most one group. */
  lemma {:induction false} CollectCount(ts: seq<Result<Option<Cell>>>, indices: seq<int>, n: nat)
    requires n <= |indices| == |ts| && Collect(ts, indices, n).Ok?
    ensures |Collect(ts, indices, n).value| <= n
  {
    if n > 0 {
      CollectCount(ts, indices, n - 1);
    }
  }

  /** There are at most as many groups as labels. */
  lemma GroupsCount(f: Frame, indices: seq<int>)
    requires WellFormed(f) && GroupsOf(f, indices).Ok?
    ensures |GroupsOf(f, indices).value| <= |indices|
  {
    CollectCount(TimesOf(f, indices), indices, |indices|);
  }

  /** A single label with a present time makes exactly one group. */
  lemma GroupsOfOneLabel(f: Frame, idx: int)
    requires WellFormed(f) && TimeAt(f, idx).Ok? && TimeAt(f, idx).value.Some?
    ensures GroupsOf(f, [idx]).Ok? && |GroupsOf(f, [idx]).value| == 1
  {
    GroupsOfPartition(f, [idx]);
    GroupsCount(f, [idx]);
    assert [idx][0] == idx;
  }

  /** The labels among `indices[..n]` whose time is present and equal to `key`, in order. */
  function WithTime(ts: seq<Result<Option<Cell>>>, indices: seq<int>, n: nat, key: Cell): seq<int>
    requires n <= |indices| == |ts|
  {
    if n == 0 then []
    else
      var t := ts[n - 1];
      WithTime(ts, indices, n - 1, key) + (if t.Ok? && t.value.Some? && PyEq(t.value.value, key) then [indices[n - 1]] else [])
  }

  /** What the grouping loop keeps true. */
  predicate Grouping(ts: seq<Result<Option<Cell>>>, indices: seq<int>, n: nat, gs: seq<Group>)
    requires n <= |indices| == |ts|
  {
    (forall i, j :: 0 <= i < j < |gs| ==> !PyEq(gs[i].key, gs[j].key)) &&
    (forall k :: 0 <= k < |gs| ==> !gs[k].key.NaN? && gs[k].members == WithTime(ts, indices, n, gs[k].key)) &&
    (forall k :: 0 <= k < |gs| ==> gs[k].members != []) &&
    (forall i :: 0 <= i < n && ts[i].Ok? && ts[i].value.Some? ==> exists k :: 0 <= k < |gs| && PyEq(ts[i].value.value, gs[k].key))
  }

  /** The grouping loop raises exactly when the time of one of its labels raises. */
  lemma {:induction false} CollectOk(ts: seq<Result<Option<Cell>>>, indices: seq<int>, n: nat)
    requires n <= |indices| == |ts|
    ensures Collect(ts, indices, n).Ok? <==> forall i :: 0 <= i < n ==> ts[i].Ok?
  {
    if n > 0 {
      CollectOk(ts, indices, n - 1);
    }
  }

  lemma {:induction false} CollectGroups(ts: seq<Result<Option<Cell>>>, indices: seq<int>, n: nat)
    requires n <= |indices| == |ts| && PresentTimes(ts)
    ensures Collect(ts, indices, n).Ok? ==> Grouping(ts, indices, n, Collect(ts, indices, n).value)
  {
    if n > 0 {
      CollectGroups(ts, indices, n - 1);
      var c := Collect(ts, indices, n - 1);
      if c.Ok? && ts[n - 1].Ok? {
        FileUnderGroups(ts, indices, n, c.value);
      }
    }
  }

  lemma FileUnderGroups(ts: seq<Result<Option<Cell>>>, indices: seq<int>, n: nat, gs: seq<Group>)
    requires 0 < n <= |indices| == |ts| && PresentTimes(ts)
    requires Grouping(ts, indices, n - 1, gs)
    requires ts[n - 1].Ok?
    ensures var t := ts[n - 1].value;
      Grouping(ts, indices, n, if t.None? then gs else FileUnder(gs, t.value, indices[n - 1]))
  {
    var t := ts[n - 1].value;
    if t.None? {
      forall k | 0 <= k < |gs|
        ensures gs[k].members == WithTime(ts, indices, n, gs[k].key)
      {
      }
    } else {
      match FindKey(gs, t.value)
      case Some(h) => FileUnderExisting(ts, indices, n, gs, h);
      case None => FileUnderNew(ts, indices, n, gs);
    }
  }

  /** Filing a label under a key that is already there keeps the grouping invariant. */
  lemma FileUnderExisting(ts: seq<Result<Option<Cell>>>, indices: seq<int>, n: nat, gs: seq<Group>, h: nat)
    requires 0 < n <= |indices| == |ts|
    requires Grouping(ts, indices, n - 1, gs)
    requires ts[n - 1].Ok? && ts[n - 1].value.Some?
    requires FindKey(gs, ts[n - 1].value.value) == Some(h)
    ensures Grouping(ts, indices, n, FileUnder(gs, ts[n - 1].value.value, indices[n - 1]))
  {
    var idx := indices[n - 1];
    var v := ts[n - 1].value.value;
    var r := FileUnder(gs, v, idx);
    assert r == gs[h := Group(gs[h].key, gs[h].members + [idx])];
    PyEqIsEquivalence(gs[h].key, v, v);
    forall k | 0 <= k < |r|
      ensures r[k].members == WithTime(ts, indices, n, r[k].key)
    {
      if k != h {
        PyEqIsEquivalence(gs[h].key, v, gs[k].key);
        PyEqIsEquivalence(gs[k].key, gs[h].key, gs[h].key);
        assert !PyEq(v, gs[k].key);
      }
    }
    forall i | 0 <= i < n && ts[i].Ok? && ts[i].value.Some?
      ensures exists k :: 0 <= k < |r| && PyEq(ts[i].value.value, r[k].key)
    {
      if i == n - 1 {
        assert PyEq(v, r[h].key);
      } else {
        var k :| 0 <= k < |gs| && PyEq(ts[i].value.value, gs[k].key);
        assert r[k].key == gs[k].key;
      }
    }
  }

  /** Filing a label under a new key keeps the grouping invariant. */
  lemma FileUnderNew(ts: seq<Result<Option<Cell>>>, indices: seq<int>, n: nat, gs: seq<Group>)
    requires 0 < n <= |indices| == |ts| && PresentTimes(ts)
    requires Grouping(ts, indices, n - 1, gs)
    requires ts[n - 1].Ok? && ts[n - 1].value.Some?
    requires FindKey(gs, ts[n - 1].value.value).None?
    ensures Grouping(ts, indices, n, FileUnder(gs, ts[n - 1].value.value, indices[n - 1]))
  {
    var idx := indices[n - 1];
    var v := ts[n - 1].value.value;
    var r := FileUnder(gs, v, idx);
    assert r == gs + [Group(v, [idx])];
    NoEarlierTime(ts, indices, n - 1, gs, v);
    PyEqIsEquivalence(v, v, v);
    forall k | 0 <= k < |gs|
      ensures r[k].members == WithTime(ts, indices, n, r[k].key)
    {
      PyEqIsEquivalence(v, gs[k].key, gs[k].key);
    }
    assert r[|gs|].members == WithTime(ts, indices, n, v);
    forall i | 0 <= i < n && ts[i].Ok? && ts[i].value.Some?
      ensures exists k :: 0 <= k < |r| && PyEq(ts[i].value.value, r[k].key)
    {
      if i == n - 1 {
        assert PyEq(v, r[|gs|].key);
      } else {
        var k :| 0 <= k < |gs| && PyEq(ts[i].value.value, gs[k].key);
        assert r[k].key == gs[k].key;
      }
    }
  }

  /** A time equal to no key was not met before. */
  lemma {:induction false} NoEarlierTime(ts: seq<Result<Option<Cell>>>, indices: seq<int>, m: nat, gs: seq<Group>, v: Cell)
    requires m <= |indices| == |ts|
    requires forall i :: 0 <= i < m && ts[i].Ok? && ts[i].value.Some? ==> exists k :: 0 <= k < |gs| && PyEq(ts[i].value.value, gs[k].key)
    requires forall j :: 0 <= j < |gs| ==> !PyEq(gs[j].key, v)
    ensures WithTime(ts, indices, m, v) == []
  {
    if m > 0 {
      NoEarlierTime(ts, indices, m - 1, gs, v);
      var t := ts[m - 1];
      if t.Ok? && t.value.Some? && PyEq(t.value.value, v) {
        var k :| 0 <= k < |gs| && PyEq(t.value.value, gs[k].key);
        PyEqIsEquivalence(gs[k].key, t.value.value, v);
        PyEqIsEquivalence(t.value.value, gs[k].key, gs[k].key);
        assert false;
      }
    }
  }

  /**
   * The grouping, when no lookup fails: the keys are pairwise different values, each group
   * holds, sorted ascending, exactly the labels whose time equals its key, and every label
   * with a present time is filed under one of the keys.
   */
  lemma GroupsOfPartition(f: Frame, indices: seq<int>)
    requires WellFormed(f)
    ensures GroupsOf(f, indices).Ok? <==> forall i :: 0 <= i < |indices| ==> TimeAt(f, indices[i]).Ok?
    ensures GroupsOf(f, indices).Ok? ==> var gs := GroupsOf(f, indices).value;
      (forall i, j :: 0 <= i < j < |gs| ==> !PyEq(gs[i].key, gs[j].key)) &&
      (forall k :: 0 <= k < |gs| ==>
         gs[k].members != [] && Ascending(gs[k].members) &&
         multiset(gs[k].members) == multiset(WithTime(TimesOf(f, indices), indices, |indices|, gs[k].key))) &&
      (forall i :: 0 <= i < |indices| && TimeAt(f, indices[i]).value.Some? ==>
         exists k :: 0 <= k < |gs| && PyEq(TimeAt(f, indices[i]).value.value, gs[k].key))
  {
    var ts := TimesOf(f, indices);
    CollectOk(ts, indices, |indices|);
    CollectGroups(ts, indices, |indices|);
    var c := Collect(ts, indices, |indices|);
    if c.Ok? {
      var gs := GroupsOf(f, indices).value;
      forall k | 0 <= k < |gs| ensures gs[k].members != [] {
        assert multiset(gs[k].members) == multiset(c.value[k].members);
        assert |gs[k].members| == |c.value[k].members|;
      }
      forall i | 0 <= i < |indices| && TimeAt(f, indices[i]).value.Some?
        ensures exists k :: 0 <= k < |gs| && PyEq(TimeAt(f, indices[i]).value.value, gs[k].key)
      {
        assert ts[i] == TimeAt(f, indices[i]);
        var k :| 0 <= k < |c.value| && PyEq(ts[i].value.value, c.value[k].key);
        assert gs[k].key == c.value[k].key;
      }
    }
  }

  /** A label with a missing time is in no group. */
  lemma MissingTimeInNoGroup(f: Frame, indices: seq<int>, i: nat, key: Cell)
    requires WellFormed(f) && i < |indices| && TimeAt(f, indices[i]) == Ok(None)
    ensures indices[i] !in WithTime(TimesOf(f, indices), indices, |indices|, key)
  {
    WithTimeOnlyPresent(TimesOf(f, indices), indices, |indices|, key, indices[i]);
  }

  lemma {:induction false} WithTimeOnlyPresent(ts: seq<Result<Option<Cell>>>, indices: seq<int>, n: nat, key: Cell, idx: int)
    requires n <= |indices| == |ts|
    requires forall j :: 0 <= j < n && indices[j] == idx ==> ts[j] == Ok(None)
    ensures idx !in WithTime(ts, indices, n, key)
  {
    if n > 0 {
      WithTimeOnlyPresent(ts, indices, n - 1, key, idx);
    }
  }

  /** Tables whose time lookups agree give the same times. */
  lemma TimesCongruent(f1: Frame, f2: Frame, indices: seq<int>)
    requires WellFormed(f1) && WellFormed(f2)
    requires forall idx :: TimeAt(f1, idx) == TimeAt(f2, idx)
    ensures TimesOf(f1, indices) == TimesOf(f2, indices)
  {
  }

  lemma TimeAtCongruent(f1: Frame, f2: Frame)
    requires WellFormed(f1) && WellFormed(f2)
    requires f1.columns == f2.columns && f1.index == f2.index
    requires TimeColumn in f1.columns ==>
      forall p :: 0 <= p < |f1.rows| ==>
        f1.rows[p][ColumnIndex(f1.columns, TimeColumn).value] == f2.rows[p][ColumnIndex(f1.columns, TimeColumn).value]
    ensures forall idx :: TimeAt(f1, idx) == TimeAt(f2, idx)
  {
  }

  /** Every label of a group is a label of the table. */
  lemma GroupMembersAreLabels(f: Frame, indices: seq<int>, k: nat, idx: int)
    requires WellFormed(f) && GroupsOf(f, indices).Ok? && k < |GroupsOf(f, indices).value|
    requires idx in GroupsOf(f, indices).value[k].members
    ensures idx in f.index
  {
    GroupsOfPartition(f, indices);
    var gs := GroupsOf(f, indices).value;
    var ts := TimesOf(f, indices);
    assert idx in multiset(gs[k].members);
    WithTimeLabels(ts, indices, |indices|, gs[k].key, idx);
    var i :| 0 <= i < |indices| && indices[i] == idx && ts[i].Ok?;
    assert TimeAt(f, indices[i]).Ok?;
  }

  lemma {:induction false} WithTimeLabels(ts: seq<Result<Option<Cell>>>, indices: seq<int>, n: nat, key: Cell, idx: int)
    requires n <= |indices| == |ts|
    requires idx in WithTime(ts, indices, n, key)
    ensures exists i :: 0 <= i < n && indices[i] == idx && ts[i].Ok?
  {
    if n > 0 {
      if idx in WithTime(ts, indices, n - 1, key) {
        WithTimeLabels(ts, indices, n - 1, key, idx);
      }
    }
  }

  // ----- the customer details written to each group -----

  const NameColumn := "수하인명"
  const PhoneColumn := "수하인전화번호"
  const MobileColumn := "수하인핸드폰번호"
  const AddressColumn := "수하인주소"
  const ItemsColumn := "품목명"
  const CustomerColumns: seq<string> := [NameColumn, PhoneColumn, MobileColumn, AddressColumn, ItemsColumn]

  /** One write of a text when the column was found and the value is truthy. */
  function WriteIf(row: int, m: map<string, int>, name: string, value: Field<string>): (ws: seq<Write>)
    ensures |ws| <= 1
    ensures |ws| == 1 <==> name in m && Given(value)
    ensures |ws| == 1 ==> ws[0] == Write(row, m[name], Text(value.v))
  {
    if name in m && Given(value) then [Write(row, m[name], Text(value.v))] else []
  }

  /**
   * The writes to one worksheet row: the name, the phone number to both phone columns,
   * the address, and the item description when it is not empty.
   */
  function RowWrites(row: int, m: map<string, int>, c: Customer, itemsText: string): (ws: seq<Write>)
    ensures |ws| <= 5
  {
    WriteIf(row, m, NameColumn, c.name) + WriteIf(row, m, PhoneColumn, c.phone) +
    WriteIf(row, m, MobileColumn, c.phone) + WriteIf(row, m, AddressColumn, c.address) +
    WriteIf(row, m, ItemsColumn, if itemsText == "" then Missing else Val(itemsText))
  }

  /** Every write of a row goes to that row, in a column the header map names. */
  lemma RowWritesTargets(row: int, m: map<string, int>, c: Customer, itemsText: string)
    ensures forall k :: 0 <= k < |RowWrites(row, m, c, itemsText)| ==>
      RowWrites(row, m, c, itemsText)[k].row == row && RowWrites(row, m, c, itemsText)[k].col in m.Values
  {
  }

  /** Groups whose first label is a data-row label. */
  predicate RowsOfLabels(gs: seq<Group>) {
    forall k :: 0 <= k < |gs| && gs[k].members != [] ==> gs[k].members[0] >= 0
  }

  /** Groups whose first label is the label of a worksheet row up to `n`. */
  predicate RowsWithin(gs: seq<Group>, n: int) {
    forall k :: 0 <= k < |gs| && gs[k].members != [] ==> gs[k].members[0] + 2 <= n
  }

  /** The writes for the groups in turn, each at the worksheet row of its first label. */
  function GroupWrites(gs: seq<Group>, m: map<string, int>, c: Customer, itemsText: string): (ws: seq<Write>)
  {
    if gs == [] then [] else GroupWrites(gs[..|gs| - 1], m, c, itemsText) + GroupRow(gs[|gs| - 1], m, c, itemsText)
  }

  /** The writes for one group: none for an empty group, else the row of its first label. */
  function GroupRow(group: Group, m: map<string, int>, c: Customer, itemsText: string): (ws: seq<Write>)
  {
    if group.members == [] then [] else RowWrites(group.members[0] + 2, m, c, itemsText)
  }

  /** Writes below the header row, in columns the header map names. */
  predicate BelowHeader(ws: seq<Write>, m: map<string, int>) {
    forall k :: 0 <= k < |ws| ==> ws[k].row >= 2 && ws[k].col in m.Values
  }

  lemma BelowHeaderAppend(a: seq<Write>, b: seq<Write>, m: map<string, int>)
    requires BelowHeader(a, m) && BelowHeader(b, m)
    ensures BelowHeader(a + b, m)
  {
    forall k | |a| <= k < |a + b|
      ensures (a + b)[k].row >= 2 && (a + b)[k].col in m.Values
    {
      assert (a + b)[k] == b[k - |a|];
    }
  }

  /** The writes of groups whose first labels are data-row labels go below the header row, in columns the header map names. */
  lemma {:induction false} GroupWritesTargets(gs: seq<Group>, m: map<string, int>, c: Customer, t: string)
    requires RowsOfLabels(gs)
    ensures BelowHeader(GroupWrites(gs, m, c, t), m)
  {
    if gs != [] {
      var init, last := gs[..|gs| - 1], gs[|gs| - 1];
      assert forall j :: 0 <= j < |init| ==> init[j] == gs[j];
      GroupWritesTargets(init, m, c, t);
      GroupRowTargets(last, m, c, t);
      BelowHeaderAppend(GroupWrites(init, m, c, t), GroupRow(last, m, c, t), m);
    }
  }

  lemma GroupRowTargets(group: Group, m: map<string, int>, c: Customer, t: string)
    requires group.members != [] ==> group.members[0] >= 0
    ensures BelowHeader(GroupRow(group, m, c, t), m)
  {
    if group.members != [] {
      RowWritesTargets(group.members[0] + 2, m, c, t);
    }
  }

  /** With first labels of rows up to `n`, the writes go to rows up to `n`. */
  lemma {:induction false} GroupWritesRows(gs: seq<Group>, m: map<string, int>, c: Customer, t: string, n: int)
    requires RowsWithin(gs, n)
    ensures forall k :: 0 <= k < |GroupWrites(gs, m, c, t)| ==> GroupWrites(gs, m, c, t)[k].row <= n
  {
    if gs != [] {
      var init, last := gs[..|gs| - 1], gs[|gs| - 1];
      assert forall j :: 0 <= j < |init| ==> init[j] == gs[j];
      GroupWritesRows(init, m, c, t, n);
      GroupRowRows(last, m, c, t, n);
      RowsUpToAppend(GroupWrites(init, m, c, t), GroupRow(last, m, c, t), n);
    }
  }

  /** Writes to rows up to `n`. */
  predicate RowsUpTo(ws: seq<Write>, n: int) {
    forall k :: 0 <= k < |ws| ==> ws[k].row <= n
  }

  lemma RowsUpToAppend(a: seq<Write>, b: seq<Write>, n: int)
    requires RowsUpTo(a, n) && RowsUpTo(b, n)
    ensures RowsUpTo(a + b, n)
  {
    forall k | |a| <= k < |a + b|
      ensures (a + b)[k].row <= n
    {
      assert (a + b)[k] == b[k - |a|];
    }
  }

  lemma GroupRowRows(group: Group, m: map<string, int>, c: Customer, t: string, n: int)
    requires group.members != [] ==> group.members[0] + 2 <= n
    ensures RowsUpTo(GroupRow(group, m, c, t), n)
  {
    if group.members != [] {
      RowWritesTargets(group.members[0] + 2, m, c, t);
    }
  }

  /** The number of groups that get a row written. */
  function Written(gs: seq<Group>): (n: nat)
    ensures n <= |gs|
  {
    if gs == [] then 0
    else Written(gs[..|gs| - 1]) + if gs[|gs| - 1].members == [] then 0 else 1
  }

  /** Without empty groups, every group gets a row written. */
  lemma {:induction false} WrittenAll(gs: seq<Group>)
    requires forall k :: 0 <= k < |gs| ==> gs[k].members != []
    ensures Written(gs) == |gs|
  {
    if gs != [] {
      WrittenAll(gs[..|gs| - 1]);
    }
  }

  /** The item description written to the 품목명 column: only from a receipt with items. */
  function ItemsText(receipt: Option<Receipt>): (r: Result<string>)
    ensures receipt.None? ==> r == Ok("")
    ensures receipt.Some? && receipt.value.items.Val? && receipt.value.items.v != [] ==>
      r == FormatItemsForDescription(receipt.value.items.v)
  {
    if receipt.Some? && receipt.value.items.Val? && receipt.value.items.v != []
    then FormatItemsForDescription(receipt.value.items.v)
    else Ok("")
  }

  /** The column of each customer header in the sheet. */
  function CustomerHeaders(g: Grid): map<string, int> {
    HeaderMap(g, CustomerColumns, MaxColumn(g))
  }

  /** A column whose header is one of the customer headers. */
  predicate CustomerHeader(g: Grid, col: int) {
    Get(g, 1, col).Text? && Get(g, 1, col).s in CustomerColumns
  }

  /**
   * `update_customer_info` on a sheet: the writes it makes and the number of groups it
   * counts, or the error the grouping or the item description raises.
   */
  function UpdatePlan(g: Grid, indices: seq<int>, c: Customer, receipt: Option<Receipt>): (r: Result<(seq<Write>, nat)>)
    ensures r.Ok? ==> Placeable(r.value.0)
    ensures r.Ok? <==> GroupsOf(RawFrame(g), indices).Ok? && ItemsText(receipt).Ok?
  {
    var f := RawFrame(g);
    match GroupsOf(f, indices)
    case Err(e) => Err(e)
    case Ok(gs) =>
      match ItemsText(receipt)
      case Err(e) => Err(e)
      case Ok(t) =>
        LabelsAreRows(g, indices);
        GroupWritesTargets(gs, CustomerHeaders(g), c, t);
        Ok((GroupWrites(gs, CustomerHeaders(g), c, t), Written(gs)))
  }

  /** The first label of each group names a data row of the sheet. */
  lemma LabelsAreRows(g: Grid, indices: seq<int>)
    requires GroupsOf(RawFrame(g), indices).Ok?
    ensures RowsOfLabels(GroupsOf(RawFrame(g), indices).value)
    ensures RowsWithin(GroupsOf(RawFrame(g), indices).value, MaxRow(g))
  {
    var f := RawFrame(g);
    var gs := GroupsOf(f, indices).value;
    forall k | 0 <= k < |gs| && gs[k].members != []
      ensures 0 <= gs[k].members[0] && gs[k].members[0] + 2 <= MaxRow(g)
    {
      GroupMembersAreLabels(f, indices, k, gs[k].members[0]);
      var i :| 0 <= i < |f.index| && f.index[i] == gs[k].members[0];
    }
  }

  lemma GroupsNonEmpty(f: Frame, indices: seq<int>)
    requires WellFormed(f) && GroupsOf(f, indices).Ok?
    ensures forall k :: 0 <= k < |GroupsOf(f, indices).value| ==> GroupsOf(f, indices).value[k].members != []
  {
    GroupsOfPartition(f, indices);
  }

  /**
   * Every write of the plan goes to a data row of the sheet, in a column whose header is one
   * of the customer headers, and one row is counted per group.
   */
  lemma UpdatePlanTargets(g: Grid, indices: seq<int>, c: Customer, receipt: Option<Receipt>)
    requires Bounded(g) && UpdatePlan(g, indices, c, receipt).Ok?
    ensures var ws := UpdatePlan(g, indices, c, receipt).value.0;
      Inside(ws, g) && forall k :: 0 <= k < |ws| ==> ws[k].row >= 2 && CustomerHeader(g, ws[k].col)
    ensures UpdatePlan(g, indices, c, receipt).value.1 == |GroupsOf(RawFrame(g), indices).value|
  {
    var f := RawFrame(g);
    var gs := GroupsOf(f, indices).value;
    var t := ItemsText(receipt).value;
    var m := CustomerHeaders(g);
    LabelsAreRows(g, indices);
    var ws := GroupWrites(gs, m, c, t);
    assert UpdatePlan(g, indices, c, receipt).value == (ws, Written(gs));
    GroupWritesTargets(gs, m, c, t);
    GroupWritesRows(gs, m, c, t, MaxRow(g));
    GroupsNonEmpty(f, indices);
    WrittenAll(gs);
    forall k | 0 <= k < |ws|
      ensures 1 <= ws[k].row <= g.rows && 1 <= ws[k].col <= g.cols && CustomerHeader(g, ws[k].col)
    {
      HeaderColumn(g, ws[k].col);
    }
  }

  /** A column the customer header map names holds a customer header inside the sheet. */
  lemma HeaderColumn(g: Grid, col: int)
    requires Bounded(g) && col in CustomerHeaders(g).Values
    ensures CustomerHeader(g, col) && 1 <= col <= g.cols
  {
    var m := CustomerHeaders(g);
    var s :| s in m && m[s] == col;
    assert (1, col) in g.cells;
  }

  /** Writes below the header leave the header row as it was. */
  lemma HeaderRowUntouched(g: Grid, ws: seq<Write>)
    requires Placeable(ws) && forall k :: 0 <= k < |ws| ==> ws[k].row >= 2
    ensures forall col :: Get(ApplyWrites(g, ws), 1, col) == Get(g, 1, col)
  {
    forall col ensures Get(ApplyWrites(g, ws), 1, col) == Get(g, 1, col) {
      GetApplyWrites(g, ws, 1, col);
      LastWriteSome(ws, 1, col);
    }
  }

  /** A column no write goes to keeps its cells. */
  lemma ColumnUntouched(g: Grid, ws: seq<Write>, col: int)
    requires Placeable(ws) && forall k :: 0 <= k < |ws| ==> ws[k].col != col
    ensures forall r :: Get(ApplyWrites(g, ws), r, col) == Get(g, r, col)
  {
    forall r ensures Get(ApplyWrites(g, ws), r, col) == Get(g, r, col) {
      GetApplyWrites(g, ws, r, col);
      LastWriteSome(ws, r, col);
    }
  }

  /** Grids that agree on row 1 have the same header map. */
  lemma {:induction false} SameHeaderMap(g: Grid, h: Grid, names: seq<string>, n: nat)
    requires forall col :: Get(h, 1, col) == Get(g, 1, col)
    ensures HeaderMap(h, names, n) == HeaderMap(g, names, n)
  {
    if n > 0 {
      SameHeaderMap(g, h, names, n - 1);
    }
  }

  /** Writes to customer columns leave the table's order times alone. */
  lemma SameRawTimes(g: Grid, ws: seq<Write>)
    requires Placeable(ws)
    requires forall k :: 0 <= k < |ws| ==> ws[k].row >= 2 && CustomerHeader(g, ws[k].col)
    requires MaxRow(ApplyWrites(g, ws)) == MaxRow(g) && MaxColumn(ApplyWrites(g, ws)) == MaxColumn(g)
    ensures forall idx :: TimeAt(RawFrame(ApplyWrites(g, ws)), idx) == TimeAt(RawFrame(g), idx)
  {
    var h := ApplyWrites(g, ws);
    HeaderRowUntouched(g, ws);
    forall r, col | HeaderName(Get(g, 1, col)) == TimeColumn
      ensures Get(h, r, col) == Get(g, r, col)
    {
      assert !CustomerHeader(g, col) by {
        assert TimeColumn !in CustomerColumns;
      }
      GetApplyWrites(g, ws, r, col);
      LastWriteSome(ws, r, col);
    }
    SameTimes(g, h);
  }

  /** Grids of the same extent that agree on the header row and the time column have the same order times. */
  lemma SameTimes(g: Grid, h: Grid)
    requires forall col :: Get(h, 1, col) == Get(g, 1, col)
    requires MaxRow(h) == MaxRow(g) && MaxColumn(h) == MaxColumn(g)
    requires forall r, col :: HeaderName(Get(g, 1, col)) == TimeColumn ==> Get(h, r, col) == Get(g, r, col)
    ensures forall idx :: TimeAt(RawFrame(h), idx) == TimeAt(RawFrame(g), idx)
  {
    SameTimeColumn(g, h, RawFrame(g), RawFrame(h));
    TimeAtCongruent(RawFrame(h), RawFrame(g));
  }

  /** Grids of the same extent that agree on the header row and the time column give tables that agree there. */
  lemma SameTimeColumn(g: Grid, h: Grid, fg: Frame, fh: Frame)
    requires forall col :: Get(h, 1, col) == Get(g, 1, col)
    requires MaxRow(h) == MaxRow(g) && MaxColumn(h) == MaxColumn(g)
    requires forall r, col :: HeaderName(Get(g, 1, col)) == TimeColumn ==> Get(h, r, col) == Get(g, r, col)
    requires fg == RawFrame(g) && fh == RawFrame(h)
    ensures fh.columns == fg.columns && fh.index == fg.index
    ensures TimeColumn in fg.columns ==>
      forall p :: 0 <= p < |fg.rows| ==>
        fh.rows[p][ColumnIndex(fg.columns, TimeColumn).value] == fg.rows[p][ColumnIndex(fg.columns, TimeColumn).value]
  {
    SameFrameShape(g, h);
    TimeColumnAgrees(g, h, fg, fh);
  }

  lemma TimeColumnAgrees(g: Grid, h: Grid, fg: Frame, fh: Frame)
    requires MaxRow(h) == MaxRow(g) && MaxColumn(h) == MaxColumn(g)
    requires forall r, col :: HeaderName(Get(g, 1, col)) == TimeColumn ==> Get(h, r, col) == Get(g, r, col)
    requires fg == RawFrame(g) && fh == RawFrame(h)
    ensures TimeColumn in fg.columns ==>
      forall p :: 0 <= p < |fg.rows| ==>
        fh.rows[p][ColumnIndex(fg.columns, TimeColumn).value] == fg.rows[p][ColumnIndex(fg.columns, TimeColumn).value]
  {
    if TimeColumn in fg.columns {
      TimeColumnAt(g, h, fg, fh, ColumnIndex(fg.columns, TimeColumn).value);
    }
  }

  lemma TimeColumnAt(g: Grid, h: Grid, fg: Frame, fh: Frame, tc: nat)
    requires MaxRow(h) == MaxRow(g) && MaxColumn(h) == MaxColumn(g)
    requires forall r, col :: HeaderName(Get(g, 1, col)) == TimeColumn ==> Get(h, r, col) == Get(g, r, col)
    requires fg == RawFrame(g) && fh == RawFrame(h)
    requires ColumnIndex(fg.columns, TimeColumn) == Some(tc)
    ensures forall p :: 0 <= p < |fg.rows| ==> fh.rows[p][tc] == fg.rows[p][tc]
  {
    ColumnHeader(g, tc);
    TimeCellsAgree(g, h, tc + 1);
    TimeColumnOfFrames(g, h, fg, fh, tc, tc + 1);
  }

  lemma TimeCellsAgree(g: Grid, h: Grid, col: int)
    requires forall r, col :: HeaderName(Get(g, 1, col)) == TimeColumn ==> Get(h, r, col) == Get(g, r, col)
    requires HeaderName(Get(g, 1, col)) == TimeColumn
    ensures forall r :: Get(h, r, col) == Get(g, r, col)
  {
  }

  lemma TimeColumnOfFrames(g: Grid, h: Grid, fg: Frame, fh: Frame, tc: nat, col: int)
    requires MaxRow(h) == MaxRow(g) && MaxColumn(h) == MaxColumn(g)
    requires col == tc + 1 && forall r :: Get(h, r, col) == Get(g, r, col)
    requires fg == RawFrame(g) && fh == RawFrame(h)
    requires ColumnIndex(fg.columns, TimeColumn) == Some(tc)
    ensures forall p :: 0 <= p < |fg.rows| ==> fh.rows[p][tc] == fg.rows[p][tc]
  {
    SameRawColumn(g, h, col);
  }

  lemma ColumnHeader(g: Grid, c: nat)
    requires c < MaxColumn(g)
    ensures RawFrame(g).columns[c] == HeaderName(Get(g, 1, c + 1))
  {
  }

  /** Grids of the same extent that agree on row 1 have the same column names and index. */
  lemma SameFrameShape(g: Grid, h: Grid)
    requires forall col :: Get(h, 1, col) == Get(g, 1, col)
    requires MaxRow(h) == MaxRow(g) && MaxColumn(h) == MaxColumn(g)
    ensures RawFrame(h).columns == RawFrame(g).columns && RawFrame(h).index == RawFrame(g).index
  {
  }

  /** Grids of the same extent that agree on a column have the same cells in it. */
  lemma SameRawColumn(g: Grid, h: Grid, col: int)
    requires forall r :: Get(h, r, col) == Get(g, r, col)
    requires MaxRow(h) == MaxRow(g) && MaxColumn(h) == MaxColumn(g) && 1 <= col <= MaxColumn(g)
    ensures forall p :: 0 <= p < |RawFrame(g).rows| ==> RawFrame(h).rows[p][col - 1] == RawFrame(g).rows[p][col - 1]
  {
  }

  /**
   * Writing the customer details a second time changes nothing: the second call finds the
   * same groups and headers, so it makes the same writes, and they find their values there.
   */
  lemma UpdateIdempotent(g: Grid, indices: seq<int>, c: Customer, receipt: Option<Receipt>)
    requires Bounded(g) && UpdatePlan(g, indices, c, receipt).Ok?
    ensures var ws := UpdatePlan(g, indices, c, receipt).value.0;
      var h := ApplyWrites(g, ws);
      Bounded(h) && UpdatePlan(h, indices, c, receipt) == UpdatePlan(g, indices, c, receipt) &&
      ApplyWrites(h, ws) == h
  {
    var ws := UpdatePlan(g, indices, c, receipt).value.0;
    UpdatePlanTargets(g, indices, c, receipt);
    ApplyWritesTwice(g, ws);
    var h := ApplyWrites(g, ws);
    ApplyWritesExtent(g, ws);
    HeaderRowUntouched(g, ws);
    SameHeaderMap(g, h, CustomerColumns, MaxColumn(g));
    SameRawTimes(g, ws);
    TimesCongruent(RawFrame(h), RawFrame(g), indices);
  }

  // ----- the display conversion before saving -----

  const DateColumn := "주문기준일자"

  /** The date columns shown as text in the saved file. */
  const DisplayColumns: seq<string> := [DateColumn, TimeColumn]

  /**
   * A truthy int or float becomes the text of the serial date it stands for; anything else,
   * and a number whose conversion raises, stays as it is. (NaN is a truthy float whose
   * conversion raises, so it stays too.)
   */
  function DisplayCell(v: Cell, withTime: bool): (r: Option<Cell>)
    ensures r.Some? ==> Truthy(v) && IsNumber(v) && r.value.Text?
  {
    if Truthy(v) && IsNumber(v) then
      match SerialToStr(NumberValue(v), withTime)
      case Ok(s) => Some(Text(s))
      case Err(_) => None
    else None
  }

  /**
   * The cell a date-time was written as shows that date-time again: outside the leap-bug
   * window a fractional serial converts back to its own text.
   */
  lemma DisplayOfWrittenSerial(t: DateTime, withTime: bool)
    requires ValidDateTime(t) && !InLeapBugWindow(t) && DtToSerialAsWritten(t).Float?
    ensures DisplayCell(DtToSerialAsWritten(t), withTime) == Some(Text(Strftime(t, withTime)))
  {
    DtToSerialNearlyInverse(t);
    assert DtToSerialAsWritten(t) == DtToSerial(t);
  }

  /** A midnight serial day shows as the date of that day. */
  lemma DisplayOfSerialDay(n: int)
    requires n != 0 && 0 <= EpochDay + n < DayCount
    ensures DisplayCell(Int(n), false) == Some(Text(Strftime(Midnight(FromDayNumber(EpochDay + n)), false)))
  {
    SerialOfWholeDay(n);
  }

  /** A conversion of one date cell (its value and whether it shows the clock) to its new value. */
  type Conversion = (Cell, bool) -> Option<Cell>

  /** Conversions that only turn truthy cells into texts, and leave texts alone. */
  ghost predicate ToText(conv: Conversion) {
    (forall v, b :: conv(v, b).Some? ==> Truthy(v) && conv(v, b).value.Text?) &&
    (forall t, b :: conv(Text(t), b).None?)
  }

  lemma DisplayCellToText()
    ensures ToText(DisplayCell)
  {
  }

  /** The conversion of the cell of row `r` in the date column called `s`, if there is one. */
  function CellDisplay(g: Grid, m: map<string, int>, r: int, s: string, conv: Conversion): (ws: seq<Write>)
    ensures |ws| <= 1
    ensures |ws| == 1 <==> s in m && conv(Get(g, r, m[s]), s == TimeColumn).Some?
    ensures |ws| == 1 ==> ws[0] == Write(r, m[s], conv(Get(g, r, m[s]), s == TimeColumn).value)
  {
    if s in m then
      match conv(Get(g, r, m[s]), s == TimeColumn)
      case Some(v) => [Write(r, m[s], v)]
      case None => []
    else []
  }

  /** A date column of the header map. */
  predicate DateCell(m: map<string, int>, c: int) {
    (DateColumn in m && c == m[DateColumn]) || (TimeColumn in m && c == m[TimeColumn])
  }

  /** The conversions in row `r`. */
  function RowDisplay(g: Grid, m: map<string, int>, r: int, conv: Conversion): (ws: seq<Write>)
    ensures forall k :: 0 <= k < |ws| ==> ws[k].row == r && DateCell(m, ws[k].col)
  {
    CellDisplay(g, m, r, DateColumn, conv) + CellDisplay(g, m, r, TimeColumn, conv)
  }

  /** The conversions of rows 2 to `r - 1`, row by row. */
  function DisplayRows(g: Grid, m: map<string, int>, r: int, conv: Conversion): (ws: seq<Write>)
    ensures forall k :: 0 <= k < |ws| ==> 2 <= ws[k].row < r && DateCell(m, ws[k].col)
    decreases r
  {
    if r <= 2 then [] else DisplayRows(g, m, r - 1, conv) + RowDisplay(g, m, r - 1, conv)
  }

  /** Writes of texts over cells of `g` that hold a truthy value. */
  predicate TextOverValues(g: Grid, ws: seq<Write>) {
    forall k :: 0 <= k < |ws| ==> ws[k].value.Text? && Truthy(Get(g, ws[k].row, ws[k].col))
  }

  /** A conversion to text writes texts, and only over cells that hold a truthy value. */
  lemma {:induction false} DisplayRowsText(g: Grid, m: map<string, int>, r: int, conv: Conversion)
    requires ToText(conv)
    ensures TextOverValues(g, DisplayRows(g, m, r, conv))
    decreases r
  {
    if r > 2 {
      DisplayRowsText(g, m, r - 1, conv);
      var init, row := DisplayRows(g, m, r - 1, conv), RowDisplay(g, m, r - 1, conv);
      assert DisplayRows(g, m, r, conv) == init + row;
      var d := CellDisplay(g, m, r - 1, DateColumn, conv);
      forall k | 0 <= k < |row|
        ensures row[k].value.Text? && Truthy(Get(g, row[k].row, row[k].col))
      {
        if k < |d| {
          assert row[k] == d[0];
        } else {
          assert row[k] == CellDisplay(g, m, r - 1, TimeColumn, conv)[0];
        }
      }
      var ws := init + row;
      forall k | 0 <= k < |ws|
        ensures ws[k].value.Text? && Truthy(Get(g, ws[k].row, ws[k].col))
      {
        if k < |init| {
          assert ws[k] == init[k];
        } else {
          assert ws[k] == row[k - |init|];
        }
      }
    }
  }

  /** The date columns of the sheet. */
  function DateHeaders(g: Grid): (m: map<string, int>)
    ensures forall s :: s in m ==> m[s] >= 1
  {
    HeaderMap(g, DisplayColumns, MaxColumn(g))
  }

  /** `convert_date_columns_for_display` as the writes it makes. */
  function DisplayWrites(g: Grid): (ws: seq<Write>)
    ensures Placeable(ws)
  {
    DisplayRows(g, DateHeaders(g), MaxRow(g) + 1, DisplayCell)
  }

  /** A conversion to text writes texts, below the header, inside the extent of the sheet. */
  lemma ConversionInside(g: Grid, conv: Conversion)
    requires ToText(conv) && Bounded(g)
    ensures var ws := DisplayRows(g, DateHeaders(g), MaxRow(g) + 1, conv);
      Inside(ws, g) && forall k :: 0 <= k < |ws| ==> ws[k].row >= 2 && ws[k].value.Text?
  {
    var ws := DisplayRows(g, DateHeaders(g), MaxRow(g) + 1, conv);
    DisplayRowsText(g, DateHeaders(g), MaxRow(g) + 1, conv);
    forall k | 0 <= k < |ws|
      ensures 1 <= ws[k].row <= g.rows && 1 <= ws[k].col <= g.cols
    {
      assert (ws[k].row, ws[k].col) in g.cells;
    }
  }

  /** The display conversion only writes texts, below the header, inside the sheet. */
  lemma DisplayWritesTargets(g: Grid)
    requires Bounded(g)
    ensures var ws := DisplayWrites(g);
      Inside(ws, g) && forall k :: 0 <= k < |ws| ==> ws[k].row >= 2 && ws[k].value.Text?
  {
    DisplayCellToText();
    ConversionInside(g, DisplayCell);
  }

  /** The last write to a cell in a concatenation comes from the second part if it writes the cell. */
  lemma {:induction false} LastWriteAppend(a: seq<Write>, b: seq<Write>, r: int, c: int)
    ensures LastWrite(a + b, r, c) == if LastWrite(b, r, c).Some? then LastWrite(b, r, c) else LastWrite(a, r, c)
    decreases |b|
  {
    if b == [] {
      assert a + b == a;
    } else {
      assert (a + b)[..|a + b| - 1] == a + b[..|b| - 1];
      LastWriteAppend(a, b[..|b| - 1], r, c);
    }
  }

  /** What the conversion leaves in the date cell of row `r`, column `s`, for rows below `rEnd`. */
  lemma {:induction false} DisplayRowsCell(g: Grid, m: map<string, int>, rEnd: int, r: int, s: string, conv: Conversion)
    requires ToText(conv)
    requires 2 <= r < rEnd && s in m && s in DisplayColumns
    requires DateColumn in m && TimeColumn in m ==> m[DateColumn] != m[TimeColumn]
    ensures LastWrite(DisplayRows(g, m, rEnd, conv), r, m[s]) == conv(Get(g, r, m[s]), s == TimeColumn)
    decreases rEnd
  {
    var init := DisplayRows(g, m, rEnd - 1, conv);
    var row := RowDisplay(g, m, rEnd - 1, conv);
    assert DisplayRows(g, m, rEnd, conv) == init + row;
    LastWriteAppend(init, row, r, m[s]);
    if r < rEnd - 1 {
      LastWriteSome(row, r, m[s]);
      DisplayRowsCell(g, m, rEnd - 1, r, s, conv);
    } else {
      LastWriteSome(init, r, m[s]);
      RowDisplayCell(g, m, r, s, conv);
    }
  }

  lemma RowDisplayCell(g: Grid, m: map<string, int>, r: int, s: string, conv: Conversion)
    requires ToText(conv)
    requires s in m && s in DisplayColumns
    requires DateColumn in m && TimeColumn in m ==> m[DateColumn] != m[TimeColumn]
    ensures LastWrite(RowDisplay(g, m, r, conv), r, m[s]) == conv(Get(g, r, m[s]), s == TimeColumn)
  {
    var d, t := CellDisplay(g, m, r, DateColumn, conv), CellDisplay(g, m, r, TimeColumn, conv);
    LastWriteAppend(d, t, r, m[s]);
    if s == DateColumn {
      LastWriteSome(t, r, m[s]);
    } else {
      LastWriteSome(d, r, m[s]);
    }
  }

  /** The effect of a conversion pass on one date cell of a data row. */
  lemma ConvertedCell(g: Grid, r: int, s: string, conv: Conversion)
    requires ToText(conv) && Bounded(g) && 2 <= r && s in DateHeaders(g)
    ensures var m := DateHeaders(g);
      Get(ApplyWrites(g, DisplayRows(g, m, MaxRow(g) + 1, conv)), r, m[s]) ==
        match conv(Get(g, r, m[s]), s == TimeColumn)
        case Some(v) => v
        case None => Get(g, r, m[s])
  {
    var m := DateHeaders(g);
    DistinctDateColumns(g);
    ConvertedLastWrite(g, m, r, s, conv);
    GetApplyWrites(g, DisplayRows(g, m, MaxRow(g) + 1, conv), r, m[s]);
  }

  /** The last write of a conversion pass to a date cell of a data row is its conversion. */
  lemma ConvertedLastWrite(g: Grid, m: map<string, int>, r: int, s: string, conv: Conversion)
    requires ToText(conv) && Bounded(g) && 2 <= r && s in m && s in DisplayColumns
    requires DateColumn in m && TimeColumn in m ==> m[DateColumn] != m[TimeColumn]
    ensures LastWrite(DisplayRows(g, m, MaxRow(g) + 1, conv), r, m[s]) == conv(Get(g, r, m[s]), s == TimeColumn)
  {
    if r < MaxRow(g) + 1 {
      DisplayRowsCell(g, m, MaxRow(g) + 1, r, s, conv);
    } else {
      BelowTheSheet(g, m, r, s, conv);
    }
  }

  lemma DistinctDateColumns(g: Grid)
    ensures var m := DateHeaders(g);
      DateColumn in m && TimeColumn in m ==> m[DateColumn] != m[TimeColumn]
  {
    var m := DateHeaders(g);
    if DateColumn in m && TimeColumn in m {
      HeaderMapDistinct(g, DisplayColumns, MaxColumn(g), DateColumn, TimeColumn);
    }
  }

  /** Below the last row there is nothing to convert and nothing is written. */
  lemma BelowTheSheet(g: Grid, m: map<string, int>, r: int, s: string, conv: Conversion)
    requires ToText(conv) && Bounded(g) && r > MaxRow(g) && s in m
    ensures LastWrite(DisplayRows(g, m, MaxRow(g) + 1, conv), r, m[s]).None?
    ensures conv(Get(g, r, m[s]), s == TimeColumn).None?
  {
    LastWriteSome(DisplayRows(g, m, MaxRow(g) + 1, conv), r, m[s]);
    assert (r, m[s]) !in g.cells;
    assert !Truthy(Get(g, r, m[s]));
  }

  /**
   * The effect of the conversion on a date cell of a data row: a convertible number becomes
   * its date text, anything else stays.
   */
  lemma DisplayEffect(g: Grid, r: int, s: string)
    requires Bounded(g) && 2 <= r && s in DateHeaders(g)
    ensures var m := DateHeaders(g);
      Get(ApplyWrites(g, DisplayWrites(g)), r, m[s]) ==
        match DisplayCell(Get(g, r, m[s]), s == TimeColumn)
        case Some(v) => v
        case None => Get(g, r, m[s])
  {
    DisplayCellToText();
    ConvertedCell(g, r, s, DisplayCell);
  }

  /** The conversion leaves the header row, and every cell outside the date columns, alone. */
  lemma DisplayOutside(g: Grid, r: int, c: int)
    requires r < 2 || c !in DateHeaders(g).Values
    ensures Get(ApplyWrites(g, DisplayWrites(g)), r, c) == Get(g, r, c)
  {
    GetApplyWrites(g, DisplayWrites(g), r, c);
    LastWriteSome(DisplayWrites(g), r, c);
  }

  /** After a pass of a conversion to text, a second pass writes nothing. */
  lemma ConvertTwice(g: Grid, h: Grid, conv: Conversion)
    requires ToText(conv) && Bounded(g)
    requires h == ApplyWrites(g, DisplayRows(g, DateHeaders(g), MaxRow(g) + 1, conv))
    ensures Bounded(h) && DisplayRows(h, DateHeaders(h), MaxRow(h) + 1, conv) == []
  {
    ConvertedShape(g, conv);
    AllSettled(g, conv);
    NothingToDisplay(h, DateHeaders(h), MaxRow(h) + 1, conv);
  }

  /** No date cell of a data row has anything left to convert. */
  ghost predicate Settled(h: Grid, m: map<string, int>, conv: Conversion) {
    forall r, s :: 2 <= r && s in m ==> conv(Get(h, r, m[s]), s == TimeColumn).None?
  }

  /** After a conversion pass to text every date cell is settled. */
  lemma AllSettled(g: Grid, conv: Conversion)
    requires ToText(conv) && Bounded(g)
    ensures var m := DateHeaders(g);
      Settled(ApplyWrites(g, DisplayRows(g, m, MaxRow(g) + 1, conv)), m, conv)
  {
    var m := DateHeaders(g);
    var h := ApplyWrites(g, DisplayRows(g, m, MaxRow(g) + 1, conv));
    forall r, s | 2 <= r && s in m
      ensures conv(Get(h, r, m[s]), s == TimeColumn).None?
    {
      ConvertedSettled(g, r, s, conv);
    }
  }

  /** A conversion pass to text keeps the sheet bounded and its date headers where they were. */
  lemma ConvertedShape(g: Grid, conv: Conversion)
    requires ToText(conv) && Bounded(g)
    ensures var ws := DisplayRows(g, DateHeaders(g), MaxRow(g) + 1, conv);
      Placeable(ws) &&
      var h := ApplyWrites(g, ws);
      Bounded(h) && DateHeaders(h) == DateHeaders(g)
  {
    var ws := DisplayRows(g, DateHeaders(g), MaxRow(g) + 1, conv);
    ConversionInside(g, conv);
    ApplyWritesTwice(g, ws);
    var h := ApplyWrites(g, ws);
    ApplyWritesExtent(g, ws);
    HeaderRowUntouched(g, ws);
    SameHeaderMap(g, h, DisplayColumns, MaxColumn(g));
  }

  /** A converted date cell is left with nothing more to convert. */
  lemma ConvertedSettled(g: Grid, r: int, s: string, conv: Conversion)
    requires ToText(conv) && Bounded(g) && 2 <= r && s in DateHeaders(g)
    ensures var m := DateHeaders(g);
      var h := ApplyWrites(g, DisplayRows(g, m, MaxRow(g) + 1, conv));
      conv(Get(h, r, m[s]), s == TimeColumn).None?
  {
    ConvertedCell(g, r, s, conv);
  }

  /** After the conversion no date cell is left to convert: a second pass writes nothing. */
  lemma DisplayIdempotent(g: Grid)
    requires Bounded(g)
    ensures var h := ApplyWrites(g, DisplayWrites(g));
      Bounded(h) && DisplayWrites(h) == []
  {
    DisplayCellToText();
    ConvertTwice(g, ApplyWrites(g, DisplayWrites(g)), DisplayCell);
  }

  lemma {:induction false} NothingToDisplay(h: Grid, m: map<string, int>, r: int, conv: Conversion)
    requires ToText(conv) && Settled(h, m, conv)
    ensures DisplayRows(h, m, r, conv) == []
    decreases r
  {
    if r > 2 {
      NothingToDisplay(h, m, r - 1, conv);
    }
  }
}
