/**
 * Row filtering on the option column, shared by both handlers and by the matcher: the
 * option text of a row (a missing value reads as "") is searched for the keywords, and a
 * row is kept when it contains any of them ("any" mode) or all of them ("all" mode).
 */
module OptionFilter {

  import opened Wrappers
  import opened Text
  import opened Cells
  import opened Sheets

  /** The keep rule for one option text: every keyword in "all" mode, some keyword otherwise. */
  predicate KeepRow(text: string, keywords: seq<string>, all: bool) {
    if all then forall k :: 0 <= k < |keywords| ==> Contains(text, keywords[k])
    else exists k :: 0 <= k < |keywords| && Contains(text, keywords[k])
  }

  /** `df[col].fillna("").astype(str)`. */
  function OptionTexts(f: Frame, j: nat): (texts: seq<string>)
    requires WellFormed(f) && j < |f.columns|
    ensures |texts| == |f.rows|
    ensures forall i :: 0 <= i < |texts| ==> texts[i] == TextOrBlank(f.rows[i][j])
  {
    seq(|f.rows|, i requires 0 <= i < |f.rows| => TextOrBlank(f.rows[i][j]))
  }

  /** The mask the keep rule gives each text. */
  function KeepMask(texts: seq<string>, keywords: seq<string>, all: bool): (mask: seq<bool>)
    ensures |mask| == |texts|
    ensures forall i :: 0 <= i < |texts| ==> (mask[i] <==> KeepRow(texts[i], keywords, all))
  {
    seq(|texts|, i requires 0 <= i < |texts| => KeepRow(texts[i], keywords, all))
  }

  /**
   * The keyword loop: the mask starts as the scalar True ("all") or False (any other mode)
   * and is combined with `str.contains` for each keyword. With no keyword it stays a
   * scalar, and indexing the frame with a scalar boolean raises KeyError.
   */
  method KeywordMask(texts: seq<string>, keywords: seq<string>, mode: string) returns (r: Result<seq<bool>>)
    ensures keywords == [] <==> r.Err?
    ensures r.Err? ==> r.error == KeyError
    ensures r.Ok? ==> r.value == KeepMask(texts, keywords, mode == "all")
  {
    var all := mode == "all";
    var mask := seq(|texts|, _ => all);
    for k := 0 to |keywords|
      invariant |mask| == |texts|
      invariant forall i :: 0 <= i < |texts| ==> (mask[i] <==> KeepRow(texts[i], keywords[..k], all))
    {
      var kw := keywords[k];
      mask := seq(|texts|, i requires 0 <= i < |texts| =>
        if all then mask[i] && Contains(texts[i], kw) else mask[i] || Contains(texts[i], kw));
      forall i | 0 <= i < |texts|
        ensures mask[i] <==> KeepRow(texts[i], keywords[..k + 1], all)
      {
        KeepRowStep(texts[i], keywords, k, all);
      }
    }
    if keywords == [] {
      return Err(KeyError);
    }
    assert keywords[..|keywords|] == keywords;
    return Ok(mask);
  }

  lemma KeepRowStep(text: string, keywords: seq<string>, k: nat, all: bool)
    requires k < |keywords|
    ensures KeepRow(text, keywords[..k + 1], all)
      <==> if all then KeepRow(text, keywords[..k], all) && Contains(text, keywords[k])
           else KeepRow(text, keywords[..k], all) || Contains(text, keywords[k])
  {
    var pre, next := keywords[..k], keywords[..k + 1];
    assert forall m :: 0 <= m < k ==> next[m] == pre[m];
    assert next[k] == keywords[k];
  }

  /**
   * `df[mask]` for the keyword mask of column `j`: the kept rows are exactly the rows whose
   * option text passes the keep rule, in their original order and with their index labels.
   */
  function KeywordFilter(f: Frame, j: nat, keywords: seq<string>, all: bool): (r: Frame)
    requires WellFormed(f) && j < |f.columns|
    ensures WellFormed(r) && r.columns == f.columns
  {
    Select(f, KeepMask(OptionTexts(f, j), keywords, all))
  }

  /**
   * The filter's result is a subsequence of the rows: there are increasing positions that
   * pick out the result, and a row's position is among them exactly when its option text
   * passes the keep rule.
   */
  lemma KeywordFilterSubsequence(f: Frame, j: nat, keywords: seq<string>, all: bool)
    requires WellFormed(f) && j < |f.columns|
    ensures var r := KeywordFilter(f, j, keywords, all);
      exists ps: seq<nat> ::
        Increasing(ps) && (forall k :: 0 <= k < |ps| ==> ps[k] < |f.rows|) &&
        r.rows == Pick(f.rows, ps) && r.index == Pick(f.index, ps) &&
        forall i :: 0 <= i < |f.rows| ==> (i in ps <==> KeepRow(TextOrBlank(f.rows[i][j]), keywords, all))
  {
    var mask := KeepMask(OptionTexts(f, j), keywords, all);
    var ps := Positions(mask);
    forall i | 0 <= i < |f.rows|
      ensures i in ps <==> KeepRow(TextOrBlank(f.rows[i][j]), keywords, all)
    {
      if i in ps {
        var k :| 0 <= k < |ps| && ps[k] == i;
        assert mask[ps[k]];
      }
    }
  }

  /** The filtered table is empty exactly when no row passes the keep rule. */
  lemma KeywordFilterEmpty(f: Frame, j: nat, keywords: seq<string>, all: bool)
    requires WellFormed(f) && j < |f.columns|
    ensures IsEmpty(KeywordFilter(f, j, keywords, all)) <==>
      forall i :: 0 <= i < |f.rows| ==> !KeepRow(TextOrBlank(f.rows[i][j]), keywords, all)
  {
    var mask := KeepMask(OptionTexts(f, j), keywords, all);
    var ps := Positions(mask);
    var kept := KeywordFilter(f, j, keywords, all);
    assert |kept.rows| == |ps| && |kept.columns| == |f.columns| > j;
    assert forall i :: 0 <= i < |f.rows| ==> (mask[i] <==> KeepRow(TextOrBlank(f.rows[i][j]), keywords, all));
    if ps != [] {
      var i := ps[0];
      assert mask[i] && OptionTexts(f, j)[i] == TextOrBlank(f.rows[i][j]);
    }
  }

  /** A row containing every keyword is kept in either mode, as long as there is a keyword. */
  lemma {:induction false} AllImpliesAny(text: string, keywords: seq<string>)
    requires keywords != []
    ensures KeepRow(text, keywords, true) ==> KeepRow(text, keywords, false)
  {
    if KeepRow(text, keywords, true) {
      assert Contains(text, keywords[0]);
    }
  }

  /** The two keywords the delivery rows carry in their option text. */
  const DeliveryKeywords := ["택배요청", "채널추가무료배송"]

  /**
   * The matcher's single pattern "택배요청|채널추가무료배송" keeps a row exactly when it holds
   * one of the two keywords: the "any" rule over the delivery keywords.
   */
  lemma DeliveryPattern(text: string)
    ensures KeepRow(text, DeliveryKeywords, false)
      <==> Contains(text, "택배요청") || Contains(text, "채널추가무료배송")
  {
    assert DeliveryKeywords[0] == "택배요청" && DeliveryKeywords[1] == "채널추가무료배송";
  }
}
