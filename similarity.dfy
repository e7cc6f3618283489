/**
 * `difflib.SequenceMatcher(None, a, b).ratio()`: Ratcliff/Obershelp matching. The longest
 * common block of the two ranges is found (the earliest in `a`, then the earliest in `b`,
 * among the longest), and the same is done on the parts to its left and to its right;
 * the ratio is twice the matched length over the total length.
 */
module Similarity {

  /** The length of the run of equal characters starting at a[i] and b[j], within the bounds. */
  function RunLength(a: string, b: string, i: nat, j: nat, ahi: nat, bhi: nat): (k: nat)
    requires i <= ahi <= |a| && j <= bhi <= |b|
    ensures i + k <= ahi && j + k <= bhi
    ensures a[i..i + k] == b[j..j + k]
    decreases ahi - i
  {
    if i < ahi && j < bhi && a[i] == b[j] then
      var k := 1 + RunLength(a, b, i + 1, j + 1, ahi, bhi);
      assert a[i..i + k] == [a[i]] + a[i + 1..i + k];
      assert b[j..j + k] == [b[j]] + b[j + 1..j + k];
      k
    else 0
  }

  /** A matching block: a[i..i+size] == b[j..j+size]. */
  datatype Block = Block(i: nat, j: nat, size: nat)

  predicate InRange(m: Block, alo: nat, ahi: nat, blo: nat, bhi: nat) {
    alo <= m.i && m.i + m.size <= ahi && blo <= m.j && m.j + m.size <= bhi
  }

  predicate Matches(a: string, b: string, m: Block) {
    m.i + m.size <= |a| && m.j + m.size <= |b| && a[m.i..m.i + m.size] == b[m.j..m.j + m.size]
  }

  /** Scans row `i` from column `j`, replacing `best` by a strictly longer run. */
  function ScanRow(a: string, b: string, i: nat, j: nat, ahi: nat, bhi: nat, best: Block): (m: Block)
    requires i < ahi <= |a| && j <= bhi <= |b|
    ensures m.size >= best.size
    ensures m == best || (m.i == i && j <= m.j < bhi && m.size == RunLength(a, b, i, m.j, ahi, bhi))
    ensures forall j' :: j <= j' < bhi ==> RunLength(a, b, i, j', ahi, bhi) <= m.size
    decreases bhi - j
  {
    if j == bhi then best
    else
      var k := RunLength(a, b, i, j, ahi, bhi);
      ScanRow(a, b, i, j + 1, ahi, bhi, if k > best.size then Block(i, j, k) else best)
  }

  /** Scans rows `i` to `ahi - 1`. */
  function ScanRows(a: string, b: string, i: nat, ahi: nat, blo: nat, bhi: nat, best: Block): (m: Block)
    requires i <= ahi <= |a| && blo <= bhi <= |b|
    ensures m.size >= best.size
    ensures m == best || (i <= m.i < ahi && blo <= m.j < bhi && m.size == RunLength(a, b, m.i, m.j, ahi, bhi))
    ensures forall i', j' :: i <= i' < ahi && blo <= j' < bhi ==> RunLength(a, b, i', j', ahi, bhi) <= m.size
    decreases ahi - i
  {
    if i == ahi then best
    else ScanRows(a, b, i + 1, ahi, blo, bhi, ScanRow(a, b, i, blo, ahi, bhi, best))
  }

  /**
   * `find_longest_match(alo, ahi, blo, bhi)` without junk: a block of the greatest
   * length in the ranges, (alo, blo, 0) when there is none.
   */
  function LongestMatch(a: string, b: string, alo: nat, ahi: nat, blo: nat, bhi: nat): (m: Block)
    requires alo <= ahi <= |a| && blo <= bhi <= |b|
    ensures InRange(m, alo, ahi, blo, bhi) && Matches(a, b, m)
    ensures forall i, j :: alo <= i < ahi && blo <= j < bhi ==> RunLength(a, b, i, j, ahi, bhi) <= m.size
  {
    ScanRows(a, b, alo, ahi, blo, bhi, Block(alo, blo, 0))
  }

  /**
   * The total size of the matching blocks `get_matching_blocks` finds in the ranges: the
   * longest block, then the blocks left of it and right of it.
   */
  function Matched(a: string, b: string, alo: nat, ahi: nat, blo: nat, bhi: nat): (n: nat)
    requires alo <= ahi <= |a| && blo <= bhi <= |b|
    ensures n <= ahi - alo && n <= bhi - blo
    decreases ahi - alo
  {
    var m := LongestMatch(a, b, alo, ahi, blo, bhi);
    if m.size == 0 then 0
    else
      var left := if alo < m.i && blo < m.j then Matched(a, b, alo, m.i, blo, m.j) else 0;
      var right := if m.i + m.size < ahi && m.j + m.size < bhi
        then Matched(a, b, m.i + m.size, ahi, m.j + m.size, bhi) else 0;
      m.size + left + right
  }

  /** The matched length of two whole strings. */
  function MatchedAll(a: string, b: string): (n: nat)
    ensures n <= |a| && n <= |b|
  {
    Matched(a, b, 0, |a|, 0, |b|)
  }

  /** `ratio()`: 2M/T for total length T, and 1.0 for two empty strings. */
  function Ratio(a: string, b: string): (r: real)
    ensures 0.0 <= r <= 1.0
  {
    if |a| + |b| == 0 then 1.0 else Fraction(2 * MatchedAll(a, b), |a| + |b|)
  }

  /** n / t as a real number, for 0 <= n <= t. */
  function Fraction(n: nat, t: nat): (r: real)
    requires 0 < t && n <= t
    ensures 0.0 <= r <= 1.0 && r * t as real == n as real
  {
    Quotient(n as real, t as real);
    n as real / t as real
  }

  /** A quotient of a non-negative number by a larger positive one lies in [0, 1]. */
  lemma Quotient(x: real, t: real)
    requires 0.0 <= x <= t && t > 0.0
    ensures (x / t) * t == x && 0.0 <= x / t <= 1.0
  {
  }

  /** A product with a positive factor keeps the order of the other factor. */
  lemma ScaleOrder(r: real, c: real, t: real, p: real)
    requires t > 0.0 && p == r * t
    ensures r >= c <==> p >= c * t
  {
    if r >= c {
      assert (r - c) * t >= 0.0;
    } else {
      assert (c - r) * t > 0.0;
    }
  }

  lemma {:induction false} RunLengthSelf(a: string, i: nat, n: nat)
    requires i <= n <= |a|
    ensures RunLength(a, a, i, i, n, n) == n - i
    decreases n - i
  {
    if i < n {
      RunLengthSelf(a, i + 1, n);
    }
  }

  /** A string matched against itself is matched whole, and its ratio is 1. */
  lemma RatioSelf(a: string)
    ensures MatchedAll(a, a) == |a|
    ensures Ratio(a, a) == 1.0
  {
    if |a| > 0 {
      RunLengthSelf(a, 0, |a|);
      var m := LongestMatch(a, a, 0, |a|, 0, |a|);
      assert m.size == |a| && m.i == 0;
      assert MatchedAll(a, a) == |a|;
      var t := (|a| + |a|) as real;
      assert Ratio(a, a) * t == t;
    }
  }

  /** A fraction reaches 0.75 exactly when 4n >= 3t. */
  lemma FractionThreshold(n: nat, t: nat)
    requires 0 < t && n <= t
    ensures Fraction(n, t) >= 0.75 <==> 4 * n >= 3 * t
  {
    var r := Fraction(n, t);
    var x, total := n as real, t as real;
    ScaleOrder(r, 0.75, total, x);
    assert (x >= 0.75 * total) <==> (4 * n >= 3 * t);
  }

  /** Whether a ratio reaches 0.75, the matcher's threshold, decided on the integers. */
  lemma RatioThreshold(a: string, b: string)
    requires |a| + |b| > 0
    ensures Ratio(a, b) >= 0.75 <==> 8 * MatchedAll(a, b) >= 3 * (|a| + |b|)
  {
    FractionThreshold(2 * MatchedAll(a, b), |a| + |b|);
  }

  /**
   * Strings whose lengths differ too much never reach 0.75: the matched length is at most
   * the shorter length, so 8 times the shorter length must reach 3 times the total.
   */
  lemma RatioLengthBound(a: string, b: string)
    requires 8 * (if |a| < |b| then |a| else |b|) < 3 * (|a| + |b|)
    ensures Ratio(a, b) < 0.75
  {
    RatioThreshold(a, b);
  }
}
