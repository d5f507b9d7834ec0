/** The mirrored score grid, and what both sweeps and the pickers guarantee. */
module OperatingPoints {
  import opened Rounding
  import opened Calibration

  // ----- mann_whitney_auc_higher_better -----

  function PairWinsHigher(w: real, c: real): nat {
    if w > c then 2 else if w == c then 1 else 0
  }

  function RowWinsHigher(w: real, cross: seq<real>): nat {
    if cross == [] then 0 else RowWinsHigher(w, cross[..|cross| - 1]) + PairWinsHigher(w, cross[|cross| - 1])
  }

  function TwiceWinsHigher(within: seq<real>, cross: seq<real>): nat {
    if within == [] then 0
    else TwiceWinsHigher(within[..|within| - 1], cross) + RowWinsHigher(within[|within| - 1], cross)
  }

  method AddWinsHigher(wins: real, w: real, cross: seq<real>) returns (r: real)
    ensures 2.0 * r == 2.0 * wins + RowWinsHigher(w, cross) as real
  {
    r := wins;
    for j := 0 to |cross|
      invariant 2.0 * r == 2.0 * wins + RowWinsHigher(w, cross[..j]) as real
    {
      assert cross[..j + 1][..j] == cross[..j];
      if w > cross[j] {
        r := r + 1.0;
      } else if w == cross[j] {
        r := r + 0.5;
      }
    }
    assert cross[..|cross|] == cross;
  }

  method MannWhitneyAucHigherBetter(within: seq<real>, cross: seq<real>) returns (auc: real)
    ensures auc == Auc(TwiceWinsHigher(within, cross), |within|, |cross|)
  {
    if |within| == 0 || |cross| == 0 { return 0.5; }
    var wins := 0.0;
    for i := 0 to |within|
      invariant 2.0 * wins == TwiceWinsHigher(within[..i], cross) as real
    {
      assert within[..i + 1][..i] == within[..i];
      wins := AddWinsHigher(wins, within[i], cross);
    }
    assert within[..|within|] == within;
    assert wins == TwiceWinsHigher(within, cross) as real / 2.0;
    auc := wins / (|within| * |cross|) as real;
  }

  // A list of distances read as a list of scores.
  function AsScores(s: seq<int>): (r: seq<real>)
    ensures |r| == |s| && forall i :: 0 <= i < |s| ==> r[i] == s[i] as real
  {
    seq(|s|, i requires 0 <= i < |s| => s[i] as real)
  }

  lemma {:induction false} RowsComplement(w: int, cross: seq<int>)
    ensures RowWins(w, cross) + RowWinsHigher(w as real, AsScores(cross)) == 2 * |cross|
  {
    if cross != [] {
      var n := |cross| - 1;
      assert AsScores(cross)[..n] == AsScores(cross[..n]);
      RowsComplement(w, cross[..n]);
    }
  }

  lemma OneMoreRow(n: nat, m: nat)
    ensures (n + 1) * m == n * m + m
  {
  }

  lemma SharesOfOne(x: real, y: real, k: real)
    requires k > 0.0 && x + y == k
    ensures x / k + y / k == 1.0
  {
    var a, b := x / k, y / k;
    assert a * k == x && b * k == y;
    Distribute(a, b, k);
    if a + b > 1.0 { Ordered(1.0, a + b, k); }
    if a + b < 1.0 { Ordered(a + b, 1.0, k); }
  }

  lemma Distribute(a: real, b: real, k: real)
    ensures (a + b) * k == a * k + b * k
  {
  }

  lemma Ordered(a: real, b: real, k: real)
    requires a < b && k > 0.0
    ensures a * k < b * k
  {
  }

  lemma PositiveProduct(n: nat, m: nat)
    requires n > 0 && m > 0
    ensures n * m > 0
  {
  }

  /** On the same two lists, the two statistics split every pair between them. */
  lemma {:induction false} WinsComplement(within: seq<int>, cross: seq<int>)
    ensures TwiceWins(within, cross) + TwiceWinsHigher(AsScores(within), AsScores(cross)) == 2 * (|within| * |cross|)
  {
    if within != [] {
      var n := |within| - 1;
      assert AsScores(within)[..n] == AsScores(within[..n]);
      WinsComplement(within[..n], cross);
      RowsComplement(within[n], cross);
      OneMoreRow(n, |cross|);
    }
  }

  lemma HalvesOfPairs(x: nat, y: nat, nm: nat)
    requires nm > 0 && x + y == 2 * nm
    ensures x as real / 2.0 / nm as real + y as real / 2.0 / nm as real == 1.0
  {
    assert x as real / 2.0 + y as real / 2.0 == nm as real;
    SharesOfOne(x as real / 2.0, y as real / 2.0, nm as real);
  }

  lemma AucSum(x: nat, y: nat, n: nat, m: nat)
    requires x + y == 2 * (n * m)
    ensures Auc(x, n, m) + Auc(y, n, m) == 1.0
  {
    if n > 0 && m > 0 {
      PositiveProduct(n, m);
      HalvesOfPairs(x, y, n * m);
    }
  }

  /** The higher-is-better AUC is one minus the lower-is-better AUC. */
  lemma AucsAreComplements(within: seq<int>, cross: seq<int>)
    ensures var n, m := |within|, |cross|;
            Auc(TwiceWins(within, cross), n, m) + Auc(TwiceWinsHigher(AsScores(within), AsScores(cross)), n, m) == 1.0
  {
    WinsComplement(within, cross);
    AucSum(TwiceWins(within, cross), TwiceWinsHigher(AsScores(within), AsScores(cross)), |within|, |cross|);
  }

  // ----- Sweeps -----

  lemma {:induction false} AtMostMonotone(s: seq<int>, t: int, u: int)
    requires t <= u
    ensures AtMost(s, t) <= AtMost(s, u)
  {
    if s != [] { AtMostMonotone(s[..|s| - 1], t, u); }
  }

  lemma {:induction false} AtLeastMonotone(s: seq<real>, t: real, u: real)
    requires t <= u
    ensures AtLeast(s, t) >= AtLeast(s, u)
  {
    if s != [] { AtLeastMonotone(s[..|s| - 1], t, u); }
  }

  /** Every distance row accounts for all pairs, and raising the threshold never loses a prediction. */
  lemma DistanceSweepLaws(rows: seq<Row<int>>, within: seq<int>, cross: seq<int>, i: nat, j: nat)
    requires within != [] && cross != [] && IsSweep(rows, within, cross) && i <= j < |rows|
    ensures rows[i].tp + rows[i].fn == |within| && rows[i].fp + rows[i].tn == |cross|
    ensures rows[i].tp <= rows[j].tp && rows[i].fp <= rows[j].fp && rows[i].recall <= rows[j].recall
  {
    AtMostMonotone(within, i, j);
    AtMostMonotone(cross, i, j);
    RecallMonotone(rows[i].tp, rows[j].tp, |within|);
  }

  lemma RecallMonotone(tp: nat, more: nat, positives: nat)
    requires tp <= more && positives > 0
    ensures Round4(tp as real / positives as real) <= Round4(more as real / positives as real)
  {
    Round4Monotone(tp as real / positives as real, more as real / positives as real);
  }

  function ScoreThreshold(step: real, i: nat): real {
    Round4(i as real * step)
  }

  function ScoreRowAt(within: seq<real>, cross: seq<real>, t: real): Row<real>
    requires within != []
  {
    RowOf(t, AtLeast(within, t), AtLeast(cross, t), |within|, |cross|)
  }

  ghost predicate IsScoreSweep(rows: seq<Row<real>>, within: seq<real>, cross: seq<real>, step: real)
    requires step > 0.0
  {
    if within == [] || cross == [] then rows == []
    else |rows| == HalfEven(1.0 / step) + 1
         && forall k :: 0 <= k < |rows| ==> rows[k] == ScoreRowAt(within, cross, ScoreThreshold(step, k))
  }

  // _threshold_sweep (verifier)
  method ScoreSweep(within: seq<real>, cross: seq<real>, step: real) returns (rows: seq<Row<real>>)
    requires step > 0.0
    ensures IsScoreSweep(rows, within, cross, step)
  {
    if |within| == 0 || |cross| == 0 { return []; }
    rows := [];
    var steps := HalfEven(1.0 / step) + 1;
    HalfEvenMonotone(0.0, 1.0 / step);
    for i := 0 to steps
      invariant |rows| == i
      invariant forall k :: 0 <= k < i ==> rows[k] == ScoreRowAt(within, cross, ScoreThreshold(step, k))
    {
      var t := ScoreThreshold(step, i);
      rows := rows + [RowOf(t, AtLeast(within, t), AtLeast(cross, t), |within|, |cross|)];
    }
  }

  lemma ThresholdsAscend(step: real, i: nat, j: nat)
    requires step > 0.0 && i <= j
    ensures ScoreThreshold(step, i) <= ScoreThreshold(step, j)
  {
    assert i as real * step <= j as real * step;
    Round4Monotone(i as real * step, j as real * step);
  }

  /** The mirror image for scores: raising the floor never gains a prediction. */
  lemma ScoreSweepLaws(rows: seq<Row<real>>, within: seq<real>, cross: seq<real>, step: real, i: nat, j: nat)
    requires step > 0.0 && within != [] && cross != [] && IsScoreSweep(rows, within, cross, step) && i <= j < |rows|
    ensures rows[i].tp + rows[i].fn == |within| && rows[i].fp + rows[i].tn == |cross|
    ensures rows[i].threshold <= rows[j].threshold
    ensures rows[i].tp >= rows[j].tp && rows[i].fp >= rows[j].fp && rows[i].recall >= rows[j].recall
  {
    ThresholdsAscend(step, i, j);
    AtLeastMonotone(within, rows[i].threshold, rows[j].threshold);
    AtLeastMonotone(cross, rows[i].threshold, rows[j].threshold);
    RecallMonotone(rows[j].tp, rows[i].tp, |within|);
  }

  // ----- Pickers -----

  predicate Meets<T>(r: Row<T>, floor: real) {
    r.precision >= floor
  }

  // On stored fields: of the rows that meet the floor the most recall, then the preferred threshold.
  ghost predicate StoredChoice<T(!new)>(rows: seq<Row<T>>, floor: real, best: Row<T>, noLater: (T, T) -> bool) {
    && best in rows && Meets(best, floor)
    && forall r :: r in rows && Meets(r, floor) ==>
         r.recall < best.recall || (r.recall == best.recall && noLater(best.threshold, r.threshold))
  }

  // On stored fields: the most precision seen, then the preferred threshold.
  ghost predicate StoredFallback<T(!new)>(rows: seq<Row<T>>, best: Row<T>, noLater: (T, T) -> bool) {
    && best in rows
    && forall r :: r in rows ==>
         r.precision < best.precision || (r.precision == best.precision && noLater(best.threshold, r.threshold))
  }

  function Ascending(): (int, int) -> bool { (t, u) => t <= u }
  function AscendingScores(): (real, real) -> bool { (t, u) => t <= u }
  function DescendingScores(): (real, real) -> bool { (t, u) => t >= u }

  // _pick_precision_floor (simhash): most recall among the eligible, then the smaller threshold;
  // with none eligible, most precision, then the smaller threshold.
  method PickPrecisionFloor(rows: seq<Row<int>>, floor: real) returns (best: Row<int>)
    requires rows != []
    ensures (exists r :: r in rows && Meets(r, floor)) ==> StoredChoice(rows, floor, best, Ascending())
    ensures (forall r :: r in rows ==> !Meets(r, floor)) ==> StoredFallback(rows, best, Ascending())
  {
    var eligible := Eligible(rows, floor);
    if eligible != [] {
      best := eligible[0];
      for i := 1 to |eligible|
        invariant best in eligible
        invariant forall r :: r in eligible[..i] ==>
          r.recall < best.recall || (r.recall == best.recall && best.threshold <= r.threshold)
      {
        var r := eligible[i];
        if r.recall > best.recall || (r.recall == best.recall && r.threshold < best.threshold) {
          best := r;
        }
      }
    } else {
      best := rows[0];
      for i := 1 to |rows|
        invariant best in rows
        invariant forall r :: r in rows[..i] ==>
          r.precision < best.precision || (r.precision == best.precision && best.threshold <= r.threshold)
      {
        var r := rows[i];
        if r.precision > best.precision || (r.precision == best.precision && r.threshold < best.threshold) {
          best := r;
        }
      }
    }
  }

  function Eligible<T(!new)>(rows: seq<Row<T>>, floor: real): (r: seq<Row<T>>)
    ensures forall x :: x in r <==> x in rows && Meets(x, floor)
  {
    if rows == [] then [] else
    (if Meets(rows[0], floor) then [rows[0]] else []) + Eligible(rows[1..], floor)
  }

  // _pick_precision_floor (verifier): the recall tie goes to the lower score floor, but the
  // fallback's precision tie goes to the higher one.
  method PickScoreFloor(rows: seq<Row<real>>, floor: real) returns (best: Row<real>)
    requires rows != []
    ensures (exists r :: r in rows && Meets(r, floor)) ==> StoredChoice(rows, floor, best, AscendingScores())
    ensures (forall r :: r in rows ==> !Meets(r, floor)) ==> StoredFallback(rows, best, DescendingScores())
  {
    var eligible := Eligible(rows, floor);
    if eligible != [] {
      best := eligible[0];
      for i := 1 to |eligible|
        invariant best in eligible
        invariant forall r :: r in eligible[..i] ==>
          r.recall < best.recall || (r.recall == best.recall && best.threshold <= r.threshold)
      {
        var r := eligible[i];
        if r.recall > best.recall || (r.recall == best.recall && r.threshold < best.threshold) {
          best := r;
        }
      }
    } else {
      best := rows[0];
      for i := 1 to |rows|
        invariant best in rows
        invariant forall r :: r in rows[..i] ==>
          r.precision < best.precision || (r.precision == best.precision && best.threshold >= r.threshold)
      {
        var r := rows[i];
        if r.precision > best.precision || (r.precision == best.precision && r.threshold > best.threshold) {
          best := r;
        }
      }
    }
  }

  // Thresholds outside the sweep predict what its ends predict.
  lemma {:induction false} AtMostSaturates(s: seq<int>, t: int)
    requires forall d :: d in s ==> 0 <= d <= MAX_DISTANCE
    ensures t < 0 ==> AtMost(s, t) == 0
    ensures t > MAX_DISTANCE ==> AtMost(s, t) == AtMost(s, MAX_DISTANCE)
  {
    if s != [] {
      var rest := s[..|s| - 1];
      forall d | d in rest ensures 0 <= d <= MAX_DISTANCE { assert d in s; }
      assert s[|s| - 1] in s;
      AtMostSaturates(rest, t);
    }
  }

  /** How the pickers break ties: among equal recalls at the floor both take the smallest threshold; in
      the fallback, among equal precisions, the distance grid the smallest and the score grid the largest. */
  lemma TieBreaks(rows: seq<Row<int>>, scores: seq<Row<real>>, floor: real, r: Row<int>, best: Row<int>, s: Row<real>, top: Row<real>)
    requires r in rows && s in scores
    ensures StoredChoice(rows, floor, best, Ascending()) && r.precision >= floor && r.recall >= best.recall ==>
              best.precision >= floor && r.recall == best.recall && best.threshold <= r.threshold
    ensures StoredFallback(rows, best, Ascending()) && r.precision >= best.precision ==>
              r.precision == best.precision && best.threshold <= r.threshold
    ensures StoredChoice(scores, floor, top, AscendingScores()) && s.precision >= floor && s.recall >= top.recall ==>
              top.precision >= floor && s.recall == top.recall && top.threshold <= s.threshold
    ensures StoredFallback(scores, top, DescendingScores()) && s.precision >= top.precision ==>
              s.precision == top.precision && top.threshold >= s.threshold
  {
    assert Meets(r, floor) <==> r.precision >= floor;
    assert Meets(s, floor) <==> s.precision >= floor;
  }

  /** The picked threshold is best among all integers, not just the 65 that were swept: no threshold
      that meets the floor recalls more, and none from zero on that recalls as much is smaller. */
  lemma PickIsOptimal(rows: seq<Row<int>>, within: seq<int>, cross: seq<int>, floor: real, best: Row<int>, t: int)
    requires within != [] && cross != [] && IsSweep(rows, within, cross) && StoredChoice(rows, floor, best, Ascending())
    requires forall d :: d in within ==> 0 <= d <= MAX_DISTANCE
    requires forall d :: d in cross ==> 0 <= d <= MAX_DISTANCE
    requires RowAt(within, cross, t).precision >= floor
    ensures RowAt(within, cross, t).recall <= best.recall
    ensures t >= 0 && RowAt(within, cross, t).recall == best.recall ==> best.threshold <= t
  {
    assert Meets(RowAt(within, cross, t), floor);
    AtMostSaturates(within, t);
    AtMostSaturates(cross, t);
    var k :| 0 <= k < |rows| && rows[k] == best;
    if t < 0 {
      RecallMonotone(0, best.tp, |within|);
    } else if t <= MAX_DISTANCE {
      assert rows[t] == RowAt(within, cross, t) && rows[t] in rows;
    } else {
      var last := RowAt(within, cross, MAX_DISTANCE);
      assert rows[MAX_DISTANCE] == last && last in rows;
      assert last.precision == RowAt(within, cross, t).precision && last.recall == RowAt(within, cross, t).recall;
      assert Meets(last, floor);
    }
  }
}
