/** Distance and score calibration (eyenet/calibration/simhash_grid.py, verifier_grid.py). */
module Calibration {
  import opened Ratios
  import opened Rounding

  // ThresholdRow and VerifierThresholdRow: T is int for distances, real for scores.
  datatype Row<T> = Row(threshold: T, tp: nat, fp: nat, tn: nat, fn: nat, precision: real, recall: real, f1: real)

  function AtMost(s: seq<int>, t: int): (n: nat)
    ensures n <= |s|
  {
    if s == [] then 0 else AtMost(s[..|s| - 1], t) + if s[|s| - 1] <= t then 1 else 0
  }

  function AtLeast(s: seq<real>, t: real): (n: nat)
    ensures n <= |s|
  {
    if s == [] then 0 else AtLeast(s[..|s| - 1], t) + if s[|s| - 1] >= t then 1 else 0
  }

  // One row from its two predicted counts.
  function RowOf<T>(t: T, tp: nat, fp: nat, positives: nat, negatives: nat): (r: Row<T>)
    requires tp <= positives && fp <= negatives && positives > 0
  {
    var precision, recall := Precision(tp, fp), tp as real / positives as real;
    Row(t, tp, fp, negatives - fp, positives - tp, Round4(precision), Round4(recall), Round4(F1(precision, recall)))
  }

  // ----- Mann-Whitney -----

  // Twice what one pair adds to `wins`: 2 for a win, 1 for a tie.
  function PairWins(w: int, c: int): nat {
    if w < c then 2 else if w == c then 1 else 0
  }

  function RowWins(w: int, cross: seq<int>): nat {
    if cross == [] then 0 else RowWins(w, cross[..|cross| - 1]) + PairWins(w, cross[|cross| - 1])
  }

  function TwiceWins(within: seq<int>, cross: seq<int>): nat {
    if within == [] then 0 else TwiceWins(within[..|within| - 1], cross) + RowWins(within[|within| - 1], cross)
  }

  // The inner loop: one positive against every negative.
  method AddWins(wins: real, w: int, cross: seq<int>) returns (r: real)
    ensures 2.0 * r == 2.0 * wins + RowWins(w, cross) as real
  {
    r := wins;
    for j := 0 to |cross|
      invariant 2.0 * r == 2.0 * wins + RowWins(w, cross[..j]) as real
    {
      assert cross[..j + 1][..j] == cross[..j];
      if w < cross[j] {
        r := r + 1.0;
      } else if w == cross[j] {
        r := r + 0.5;
      }
    }
    assert cross[..|cross|] == cross;
  }

  // wins / (n * m), the statistic as a probability; 0.5 with nothing to compare.
  function Auc(twiceWins: nat, n: nat, m: nat): real {
    if n == 0 || m == 0 then 0.5 else twiceWins as real / 2.0 / (n * m) as real
  }

  // mann_whitney_auc
  method MannWhitneyAuc(within: seq<int>, cross: seq<int>) returns (auc: real)
    ensures auc == Auc(TwiceWins(within, cross), |within|, |cross|)
  {
    if |within| == 0 || |cross| == 0 { return 0.5; }
    var wins := 0.0;
    for i := 0 to |within|
      invariant 2.0 * wins == TwiceWins(within[..i], cross) as real
    {
      assert within[..i + 1][..i] == within[..i];
      wins := AddWins(wins, within[i], cross);
    }
    assert within[..|within|] == within;
    assert wins == TwiceWins(within, cross) as real / 2.0;
    auc := wins / (|within| * |cross|) as real;
  }

  // A later negative adds the positives at most as far and those strictly closer.
  lemma {:induction false} ColumnWins(within: seq<int>, cross: seq<int>, c: int)
    ensures TwiceWins(within, cross + [c]) == TwiceWins(within, cross) + AtMost(within, c) + AtMost(within, c - 1)
  {
    if within != [] {
      var n := |within| - 1;
      ColumnWins(within[..n], cross, c);
      assert (cross + [c])[..|cross|] == cross;
    }
  }

  // Twice the trapezoid area under the ROC curve through the sweep's first n rows, in pair units.
  function TwiceArea(rows: seq<Row<int>>, n: nat): int
    requires n <= |rows|
  {
    if n == 0 then 0
    else if n == 1 then rows[0].fp * rows[0].tp
    else TwiceArea(rows, n - 1) + (rows[n - 1].fp - rows[n - 2].fp) * (rows[n - 1].tp + rows[n - 2].tp)
  }

  const MAX_DISTANCE: int := 64

  // _threshold_sweep (simhash)
  method ThresholdSweep(within: seq<int>, cross: seq<int>) returns (rows: seq<Row<int>>)
    ensures IsSweep(rows, within, cross)
  {
    if |within| == 0 || |cross| == 0 { return []; }
    rows := [];
    for t := 0 to MAX_DISTANCE + 1
      invariant |rows| == t
      invariant forall k :: 0 <= k < t ==> rows[k] == RowAt(within, cross, k)
    {
      var tp := AtMost(within, t);
      var fp := AtMost(cross, t);
      rows := rows + [RowOf(t, tp, fp, |within|, |cross|)];
    }
  }

  function RowAt(within: seq<int>, cross: seq<int>, t: int): Row<int>
    requires within != []
  {
    RowOf(t, AtMost(within, t), AtMost(cross, t), |within|, |cross|)
  }

  ghost predicate IsSweep(rows: seq<Row<int>>, within: seq<int>, cross: seq<int>) {
    if within == [] || cross == [] then rows == []
    else |rows| == MAX_DISTANCE + 1 && forall k :: 0 <= k <= MAX_DISTANCE ==> rows[k] == RowAt(within, cross, k)
  }

  // The area in terms of the counts alone.
  function CountedArea(within: seq<int>, cross: seq<int>, n: nat): int {
    if n == 0 then 0
    else CountedArea(within, cross, n - 1)
         + (AtMost(cross, n - 1) - AtMost(cross, n - 2)) * (AtMost(within, n - 1) + AtMost(within, n - 2))
  }

  lemma {:induction false} NoneBelowZero(s: seq<int>)
    requires forall d :: d in s ==> 0 <= d
    ensures AtMost(s, -1) == 0
  {
    if s != [] {
      assert s[|s| - 1] in s;
      var rest := s[..|s| - 1];
      forall d | d in rest ensures 0 <= d { assert d in s; }
      NoneBelowZero(rest);
    }
  }

  lemma {:induction false} AreaIsCounted(rows: seq<Row<int>>, within: seq<int>, cross: seq<int>, n: nat)
    requires within != [] && cross != [] && IsSweep(rows, within, cross) && n <= |rows|
    requires forall d :: d in within + cross ==> 0 <= d
    ensures TwiceArea(rows, n) == CountedArea(within, cross, n)
  {
    if n > 0 {
      AreaIsCounted(rows, within, cross, n - 1);
      forall d | d in within ensures 0 <= d { assert d in within + cross; }
      forall d | d in cross ensures 0 <= d { assert d in within + cross; }
      NoneBelowZero(within);
      NoneBelowZero(cross);
      if n == 1 { assert CountedArea(within, cross, 1) == CountedArea(within, cross, 0) + (AtMost(cross, 0) - 0) * (AtMost(within, 0) + 0); }
    }
  }

  // One more negative at distance c adds its own trapezoid once the curve has passed c.
  lemma {:induction false} AreaOfMore(within: seq<int>, cross: seq<int>, c: nat, n: nat)
    ensures CountedArea(within, cross + [c], n)
            == CountedArea(within, cross, n) + if c < n then AtMost(within, c) + AtMost(within, c - 1) else 0
  {
    if n > 0 {
      AreaOfMore(within, cross, c, n - 1);
      assert (cross + [c])[..|cross|] == cross;
      var x, y := AtMost(cross, n - 1) - AtMost(cross, n - 2), AtMost(within, n - 1) + AtMost(within, n - 2);
      assert (x + 1) * y == x * y + y;
    }
  }

  lemma {:induction false} WinsAreArea(within: seq<int>, cross: seq<int>, n: nat)
    requires forall d :: d in cross ==> 0 <= d < n
    ensures TwiceWins(within, cross) == CountedArea(within, cross, n)
  {
    if cross == [] {
      NoWins(within);
      NoArea(within, n);
    } else {
      var m := |cross| - 1;
      assert cross[m] in cross;
      assert cross == cross[..m] + [cross[m]];
      forall d | d in cross[..m] ensures 0 <= d < n { assert d in cross; }
      WinsAreArea(within, cross[..m], n);
      ColumnWins(within, cross[..m], cross[m]);
      AreaOfMore(within, cross[..m], cross[m], n);
    }
  }

  lemma {:induction false} NoWins(within: seq<int>)
    ensures TwiceWins(within, []) == 0
  {
    if within != [] { NoWins(within[..|within| - 1]); }
  }

  lemma {:induction false} NoArea(within: seq<int>, n: nat)
    ensures CountedArea(within, [], n) == 0
  {
    if n > 0 { NoArea(within, n - 1); }
  }

  /** The Mann-Whitney statistic is the area under the sweep's own ROC curve. */
  lemma AucIsAreaUnderSweep(rows: seq<Row<int>>, within: seq<int>, cross: seq<int>)
    requires within != [] && cross != [] && IsSweep(rows, within, cross)
    requires forall d :: d in within + cross ==> 0 <= d <= MAX_DISTANCE
    ensures TwiceWins(within, cross) == TwiceArea(rows, |rows|)
  {
    AreaIsCounted(rows, within, cross, |rows|);
    forall d | d in cross ensures 0 <= d < MAX_DISTANCE + 1 { assert d in within + cross; }
    WinsAreArea(within, cross, MAX_DISTANCE + 1);
  }
}
