/** The grids store precision and recall rounded to four places. When the pickers still choose what
    exact arithmetic would choose, and when not. */
module RoundedPicks {
  import opened Ratios
  import opened Rounding
  import opened Calibration
  import opened OperatingPoints

  // ----- Precision against the floor, recall against recall -----

  lemma ShareTimes(tp: nat, n: nat)
    requires n > 0
    ensures tp as real / n as real * n as real == tp as real
  {
  }

  lemma Stretch(x: real, y: real, n: real)
    requires n > 0.0
    ensures x * n >= y * n <==> x >= y
    ensures x * n == y * n <==> x == y
  {
    if x > y { Ordered(y, x, n); }
    if x < y { Ordered(x, y, n); }
  }

  lemma RealProduct(a: int, n: nat)
    ensures a as real * n as real == (a * n) as real
  {
  }

  lemma ScaledShare(q: real, n: real, tp: real)
    requires q * n == tp
    ensures q * 20000.0 * n == 20000.0 * tp
  {
  }

  lemma CompareScaled(q: real, n: nat, tp: nat, half: int)
    requires n > 0 && q * n as real == tp as real
    ensures q * 20000.0 > half as real <==> 20000 * tp > half * n
    ensures q * 20000.0 == half as real <==> 20000 * tp == half * n
  {
    ScaledShare(q, n as real, tp as real);
    RealProduct(half, n);
    Stretch(half as real, q * 20000.0, n as real);
    assert (20000 * tp) as real == 20000.0 * tp as real;
  }

  /** A rounded precision reaches a floor of k ten-thousandths exactly when the counts come within half
      a step of it, and at the half step itself when k is even. */
  lemma RoundedFloorExactlyWhen(tp: nat, fp: nat, k: nat)
    requires tp + fp > 0
    ensures Round4(Precision(tp, fp)) >= k as real / 10000.0 <==>
            20000 * tp > (2 * k - 1) * (tp + fp) || (20000 * tp == (2 * k - 1) * (tp + fp) && k % 2 == 0)
  {
    Round4Reaches(Precision(tp, fp), k);
    ShareTimes(tp, tp + fp);
    CompareScaled(Precision(tp, fp), tp + fp, tp, 2 * k - 1);
  }

  lemma TenthsTimes(tp: nat, n: nat, k: nat)
    requires n > 0
    ensures tp as real / n as real >= k as real / 10.0 <==> 10 * tp >= k * n
  {
    ShareTimes(tp, n);
    Stretch(tp as real / n as real, k as real / 10.0, n as real);
    assert k as real / 10.0 * n as real == (k * n) as real / 10.0;
  }

  /** For a floor in tenths and fewer than 2000 pairs, rounding does not change who meets it. */
  lemma FloorUnaffected(tp: nat, fp: nat, k: nat)
    requires tp + fp < 2000
    ensures Round4(Precision(tp, fp)) >= k as real / 10.0 <==> Precision(tp, fp) >= k as real / 10.0
  {
    var n := tp + fp;
    if n == 0 {
      Round4Fixes();
    } else {
      RoundedFloorExactlyWhen(tp, fp, 1000 * k);
      assert (1000 * k) as real / 10000.0 == k as real / 10.0;
      TenthsTimes(tp, n, k);
      assert (2 * (1000 * k) - 1) * n == 2000 * (k * n) - n;
    }
  }

  lemma OneMoreHit(tp: nat, more: nat, positives: nat)
    requires tp < more && 0 < positives < 10000
    ensures tp as real / positives as real + 0.0001 < more as real / positives as real
  {
    var n, x, y := positives as real, tp as real / positives as real, more as real / positives as real;
    ShareTimes(tp, positives);
    ShareTimes(more, positives);
    Distribute(x, 0.0001, n);
    if x + 0.0001 >= y { Stretch(x + 0.0001, y, n); }
  }

  /** With fewer than 10000 positives, rounded recall orders rows as their hits do. */
  lemma RecallOrdersHits(tp: nat, other: nat, positives: nat)
    requires 0 < positives < 10000
    ensures Round4(tp as real / positives as real) < Round4(other as real / positives as real) <==> tp < other
  {
    if tp < other {
      OneMoreHit(tp, other, positives);
      Round4Strict(tp as real / positives as real, other as real / positives as real);
    } else {
      RecallMonotone(other, tp, positives);
    }
  }

  // ----- The choice among rows that meet the floor -----

  // A row whose ratios are the rounded ratios of its counts.
  ghost predicate RowFits<T>(r: Row<T>, positives: nat, negatives: nat) {
    && r.tp <= positives && r.fp <= negatives && positives > 0
    && r.precision == Round4(Precision(r.tp, r.fp)) && r.recall == Round4(r.tp as real / positives as real)
  }

  ghost predicate RowsFit<T(!new)>(rows: seq<Row<T>>, positives: nat, negatives: nat) {
    forall r :: r in rows ==> RowFits(r, positives, negatives)
  }

  // Exact precision at the floor.
  predicate AtFloor<T>(r: Row<T>, floor: real) {
    Precision(r.tp, r.fp) >= floor
  }

  /** The exact choice: of the rows at the floor the most hits, then the smaller threshold. */
  ghost predicate ExactChoice<T(!new)>(rows: seq<Row<T>>, floor: real, best: Row<T>, noLater: (T, T) -> bool) {
    && best in rows && AtFloor(best, floor)
    && forall r :: r in rows && AtFloor(r, floor) ==> r.tp < best.tp || (r.tp == best.tp && noLater(best.threshold, r.threshold))
  }

  lemma StoredChoiceIsExact<T(!new)>(rows: seq<Row<T>>, positives: nat, negatives: nat, k: nat, floor: real, best: Row<T>,
                                     noLater: (T, T) -> bool)
    requires RowsFit(rows, positives, negatives) && positives + negatives < 2000 && floor == k as real / 10.0
    requires StoredChoice(rows, floor, best, noLater)
    ensures ExactChoice(rows, floor, best, noLater)
  {
    assert RowFits(best, positives, negatives);
    FloorUnaffected(best.tp, best.fp, k);
    forall r | r in rows && AtFloor(r, floor)
      ensures r.tp < best.tp || (r.tp == best.tp && noLater(best.threshold, r.threshold))
    {
      assert RowFits(r, positives, negatives);
      FloorUnaffected(r.tp, r.fp, k);
      RecallOrdersHits(r.tp, best.tp, positives);
      RecallOrdersHits(best.tp, r.tp, positives);
    }
  }

  lemma SweepFits(rows: seq<Row<int>>, within: seq<int>, cross: seq<int>)
    requires within != [] && cross != [] && IsSweep(rows, within, cross)
    ensures RowsFit(rows, |within|, |cross|)
  {
    forall r | r in rows ensures RowFits(r, |within|, |cross|) {
      var i :| 0 <= i < |rows| && rows[i] == r;
    }
  }

  lemma ScoreSweepFits(rows: seq<Row<real>>, within: seq<real>, cross: seq<real>, step: real)
    requires step > 0.0 && within != [] && cross != [] && IsScoreSweep(rows, within, cross, step)
    ensures RowsFit(rows, |within|, |cross|)
  {
    forall r | r in rows ensures RowFits(r, |within|, |cross|) {
      var i :| 0 <= i < |rows| && rows[i] == r;
    }
  }

  /** Distances: when some stored row meets the floor, for a floor in tenths and fewer than 2000 pairs,
      the picked row is the one exact arithmetic picks. */
  lemma PickIsUnrounded(rows: seq<Row<int>>, within: seq<int>, cross: seq<int>, k: nat, floor: real, best: Row<int>)
    requires within != [] && cross != [] && IsSweep(rows, within, cross) && |within| + |cross| < 2000 && floor == k as real / 10.0
    requires StoredChoice(rows, floor, best, Ascending())
    ensures ExactChoice(rows, floor, best, Ascending())
  {
    SweepFits(rows, within, cross);
    StoredChoiceIsExact(rows, |within|, |cross|, k, floor, best, Ascending());
  }

  /** Scores: the same. */
  lemma ScorePickIsUnrounded(rows: seq<Row<real>>, within: seq<real>, cross: seq<real>, step: real, k: nat, floor: real, best: Row<real>)
    requires step > 0.0 && within != [] && cross != [] && IsScoreSweep(rows, within, cross, step)
    requires |within| + |cross| < 2000 && floor == k as real / 10.0
    requires StoredChoice(rows, floor, best, AscendingScores())
    ensures ExactChoice(rows, floor, best, AscendingScores())
  {
    ScoreSweepFits(rows, within, cross, step);
    StoredChoiceIsExact(rows, |within|, |cross|, k, floor, best, AscendingScores());
  }

  // ----- The fallback: no row meets the floor -----

  // The most precision seen, exactly.
  ghost predicate ExactFallback<T(!new)>(rows: seq<Row<T>>, best: Row<T>, noLater: (T, T) -> bool) {
    && best in rows
    && forall r :: r in rows ==>
         Precision(r.tp, r.fp) < Precision(best.tp, best.fp)
         || (Precision(r.tp, r.fp) == Precision(best.tp, best.fp) && noLater(best.threshold, r.threshold))
  }

  // Different fractions with denominators of at most 100 are more than a step apart.
  lemma FractionsApart(a: nat, n: nat, b: nat, m: nat)
    requires 0 < n <= 100 && 0 < m <= 100 && a * m < b * n
    ensures a as real / n as real + 0.0001 < b as real / m as real
  {
    ShareTimes(a, n);
    ShareTimes(b, m);
    CrossMultiplied(a as real / n as real, b as real / m as real, a, n, b, m);
    GapIsMore(a, n, b, m);
    StepApart(a as real / n as real, b as real / m as real, n * m, a * m, b * n);
  }

  lemma Shift(x: real, y: real, d: real, n: real)
    requires n > 0.0 && x * n + d * n < y * n
    ensures x + d < y
  {
    Distribute(x, d, n);
    Stretch(x + d, y, n);
  }

  lemma StepApart(x: real, y: real, n: int, p: int, q: int)
    requires 0 < n < 10000 * (q - p) && x * n as real == p as real && y * n as real == q as real
    ensures x + 0.0001 < y
  {
    var k, step := n as real, 0.0001;
    assert k < (10000 * (q - p)) as real;
    assert step * k == 0.0001 * k;
    assert x * k == p as real && y * k == q as real;
    Shift(x, y, step, k);
  }

  // The gap between the cross products is more than one step.
  lemma GapIsMore(a: nat, n: nat, b: nat, m: nat)
    requires 0 < n <= 100 && 0 < m <= 100 && a * m < b * n
    ensures 0 < n * m < 10000 * (b * n - a * m)
  {
    DenominatorsProduct(n, m);
    if n == m { SameDenominator(a, b, n, m); }
  }

  lemma SameDenominator(a: nat, b: nat, n: nat, m: nat)
    requires n == m && a * m < b * n && 0 < n <= 100
    ensures n * m < 10000 * (b * n - a * m)
  {
    if b <= a { Products(b, a, n, n); }
    Products(1, b - a, n, n);
    Difference(a, b, n);
    Products(n, 100, n, n);
  }

  lemma CrossMultiplied(x: real, y: real, a: nat, n: nat, b: nat, m: nat)
    requires x * n as real == a as real && y * m as real == b as real
    ensures x * (n * m) as real == (a * m) as real && y * (n * m) as real == (b * n) as real
  {
    RealProduct(n, m);
    RealProduct(a, m);
    RealProduct(b, n);
    assert x * (n as real * m as real) == (x * n as real) * m as real;
    assert y * (n as real * m as real) == (y * m as real) * n as real;
  }

  // At most 100 * 100, and at most 100 * 99 when they differ.
  lemma DenominatorsProduct(n: nat, m: nat)
    requires 0 < n <= 100 && 0 < m <= 100
    ensures 0 < n * m <= 10000 && (n != m ==> n * m <= 9900)
  {
    Products(1, n, 1, m);
    if n < m { Products(n, 99, m, 100); } else if m < n { Products(n, 100, m, 99); } else { Products(n, 100, m, 100); }
  }

  lemma Products(n: nat, p: nat, m: nat, q: nat)
    requires n <= p && m <= q
    ensures n * m <= p * q
  {
  }

  lemma Difference(a: nat, b: nat, n: nat)
    requires a <= b
    ensures b * n - a * n == (b - a) * n
  {
  }

  lemma OrderByCross(a: nat, n: nat, b: nat, m: nat)
    requires n > 0 && m > 0
    ensures a as real / n as real < b as real / m as real <==> a * m < b * n
    ensures a as real / n as real == b as real / m as real <==> a * m == b * n
  {
    var x, y := a as real / n as real, b as real / m as real;
    ShareTimes(a, n);
    ShareTimes(b, m);
    CrossMultiplied(x, y, a, n, b, m);
    assert n * m > 0;
    Stretch(x, y, (n * m) as real);
    Stretch(y, x, (n * m) as real);
  }

  /** With at most 100 pairs, rounded precision orders rows as exact precision does. */
  lemma PrecisionOrders(tp: nat, fp: nat, tp': nat, fp': nat)
    requires tp + fp <= 100 && tp' + fp' <= 100
    ensures Round4(Precision(tp, fp)) < Round4(Precision(tp', fp')) <==> Precision(tp, fp) < Precision(tp', fp')
  {
    var x, y := Precision(tp, fp), Precision(tp', fp');
    if x < y {
      var n, m := if tp + fp > 0 then tp + fp else 1, if tp' + fp' > 0 then tp' + fp' else 1;
      OrderByCross(tp, n, tp', m);
      FractionsApart(tp, n, tp', m);
      Round4Strict(x, y);
    } else {
      Round4Monotone(y, x);
    }
  }

  lemma StoredFallbackIsExact<T(!new)>(rows: seq<Row<T>>, positives: nat, negatives: nat, best: Row<T>, noLater: (T, T) -> bool)
    requires RowsFit(rows, positives, negatives) && positives + negatives <= 100 && StoredFallback(rows, best, noLater)
    ensures ExactFallback(rows, best, noLater)
  {
    assert RowFits(best, positives, negatives);
    forall r | r in rows
      ensures Precision(r.tp, r.fp) < Precision(best.tp, best.fp)
              || (Precision(r.tp, r.fp) == Precision(best.tp, best.fp) && noLater(best.threshold, r.threshold))
    {
      assert RowFits(r, positives, negatives);
      PrecisionOrders(r.tp, r.fp, best.tp, best.fp);
      PrecisionOrders(best.tp, best.fp, r.tp, r.fp);
    }
  }

  /** Distances: with at most 100 pairs the fallback row is the one exact arithmetic falls back to. */
  lemma FallbackIsUnrounded(rows: seq<Row<int>>, within: seq<int>, cross: seq<int>, best: Row<int>)
    requires within != [] && cross != [] && IsSweep(rows, within, cross) && |within| + |cross| <= 100
    requires StoredFallback(rows, best, Ascending())
    ensures ExactFallback(rows, best, Ascending())
  {
    SweepFits(rows, within, cross);
    StoredFallbackIsExact(rows, |within|, |cross|, best, Ascending());
  }

  /** Scores: the same, with the larger threshold on ties. */
  lemma ScoreFallbackIsUnrounded(rows: seq<Row<real>>, within: seq<real>, cross: seq<real>, step: real, best: Row<real>)
    requires step > 0.0 && within != [] && cross != [] && IsScoreSweep(rows, within, cross, step) && |within| + |cross| <= 100
    requires StoredFallback(rows, best, DescendingScores())
    ensures ExactFallback(rows, best, DescendingScores())
  {
    ScoreSweepFits(rows, within, cross, step);
    StoredFallbackIsExact(rows, |within|, |cross|, best, DescendingScores());
  }

  // ----- Lists on which rounding decides -----

  // n pairs at distance v.
  function Run(n: nat, v: int): (r: seq<int>)
    ensures |r| == n && forall d :: d in r ==> d == v
  {
    if n == 0 then [] else Run(n - 1, v) + [v]
  }

  lemma {:induction false} RunAtMost(n: nat, v: int, t: int)
    ensures AtMost(Run(n, v), t) == if v <= t then n else 0
  {
    if n > 0 { RunAtMost(n - 1, v, t); }
  }

  lemma {:induction false} AtMostOfBoth(s: seq<int>, u: seq<int>, t: int)
    ensures AtMost(s + u, t) == AtMost(s, t) + AtMost(u, t)
  {
    if u == [] {
      assert s + u == s;
    } else {
      AtMostOfBoth(s, u[..|u| - 1], t);
      assert (s + u)[..|s + u| - 1] == s + u[..|u| - 1];
    }
  }

  lemma TwoRuns(n: nat, m: nat, t: int)
    ensures AtMost(Run(n, 0) + Run(m, 1), t) == if t < 0 then 0 else if t == 0 then n else n + m
  {
    AtMostOfBoth(Run(n, 0), Run(m, 1), t);
    RunAtMost(n, 0, t);
    RunAtMost(m, 1, t);
  }

  // 1402 of 2003 is under 0.70, by less than half a step.
  lemma RoundsUpToFloor()
    ensures Precision(1402, 601) < 0.7 && Round4(Precision(1402, 601)) >= 0.7
  {
    RoundedFloorExactlyWhen(1402, 601, 7000);
    TenthsTimes(1402, 2003, 7);
  }

  /** 1402 author pairs and 601 others, all at distance 0: every stored row meets 0.70 and threshold 0 is
      picked, although no row meets it exactly. */
  lemma RoundingAdmitsBelowFloor(within: seq<int>, cross: seq<int>, n: nat, m: nat, rows: seq<Row<int>>, best: Row<int>)
    requires n == 1402 && m == 601 && within == Run(n, 0) && cross == Run(m, 0)
    requires IsSweep(rows, within, cross) && StoredChoice(rows, 0.7, best, Ascending())
    ensures best.threshold == 0 && forall r :: r in rows ==> Meets(r, 0.7) && !AtFloor(r, 0.7)
  {
    RoundsUpToFloor();
    forall r | r in rows ensures Meets(r, 0.7) && !AtFloor(r, 0.7) && 0 <= r.threshold && r.tp == n && r.fp == m {
      var i :| 0 <= i < |rows| && rows[i] == r;
      RunAtMost(n, 0, i);
      RunAtMost(m, 0, i);
    }
    FirstRowBest(rows, within, cross, best, n);
  }

  lemma FirstRowBest(rows: seq<Row<int>>, within: seq<int>, cross: seq<int>, best: Row<int>, n: nat)
    requires within != [] && cross != [] && IsSweep(rows, within, cross) && StoredChoice(rows, 0.7, best, Ascending())
    requires forall r :: r in rows ==> Meets(r, 0.7) && 0 <= r.threshold && r.tp == n
    ensures best.threshold == 0
  {
    SweepFits(rows, within, cross);
    assert rows[0] in rows && rows[0].threshold == 0;
    assert RowFits(rows[0], |within|, |cross|) && RowFits(best, |within|, |cross|);
  }

  // 501 of 1001 and 951 of 1900 both round to 0.5005.
  lemma SameRoundedPrecision()
    ensures Round4(Precision(501, 500)) == Round4(Precision(951, 949)) < 0.7
    ensures Precision(501, 500) < Precision(951, 949) < 0.7
  {
    RoundedFloorExactlyWhen(501, 500, 5005);
    RoundedFloorExactlyWhen(501, 500, 5006);
    RoundedFloorExactlyWhen(951, 949, 5005);
    RoundedFloorExactlyWhen(951, 949, 5006);
    RoundedFloorExactlyWhen(951, 949, 7000);
    Steps(Precision(501, 500), 5005);
    Steps(Precision(951, 949), 5005);
    OrderByCross(501, 1001, 951, 1900);
    TenthsTimes(951, 1900, 7);
  }

  // A rounded number is a whole number of steps.
  lemma Steps(x: real, k: int)
    requires Round4(x) >= k as real / 10000.0 && !(Round4(x) >= (k + 1) as real / 10000.0)
    ensures Round4(x) == k as real / 10000.0
  {
    assert HalfEven(x * 10000.0) >= k && HalfEven(x * 10000.0) < k + 1;
  }

  /** 1900 pairs on which no row meets 0.70, all stored precisions are equal and the fallback is
      threshold 0, although threshold 1 is more precise. */
  lemma FallbackMissesMostPrecise(within: seq<int>, cross: seq<int>, n: nat, m: nat, p: nat, q: nat, rows: seq<Row<int>>, best: Row<int>)
    requires n == 501 && m == 450 && p == 500 && q == 449
    requires within == Run(n, 0) + Run(m, 1) && cross == Run(p, 0) + Run(q, 1)
    requires IsSweep(rows, within, cross) && StoredFallback(rows, best, Ascending())
    ensures |within| + |cross| == 1900 && best.threshold == 0 && forall r :: r in rows ==> !Meets(r, 0.7) && !AtFloor(r, 0.7)
    ensures Precision(best.tp, best.fp) < Precision(rows[1].tp, rows[1].fp)
  {
    SameRoundedPrecision();
    forall i | 0 <= i < |rows| ensures rows[i].threshold == i && rows[i].tp == (if i == 0 then 501 else 951)
                                       && rows[i].fp == (if i == 0 then 500 else 949) {
      TwoRuns(n, m, i);
      TwoRuns(p, q, i);
    }
    FirstRowFallback(rows, within, cross, best);
  }

  lemma FirstRowFallback(rows: seq<Row<int>>, within: seq<int>, cross: seq<int>, best: Row<int>)
    requires within != [] && cross != [] && IsSweep(rows, within, cross) && StoredFallback(rows, best, Ascending())
    requires forall i :: 0 <= i < |rows| ==>
               (rows[i].threshold == i && rows[i].tp == (if i == 0 then 501 else 951) && rows[i].fp == (if i == 0 then 500 else 949))
    ensures best == rows[0] && forall r :: r in rows ==> !Meets(r, 0.7) && !AtFloor(r, 0.7)
  {
    SameRoundedPrecision();
    SweepFits(rows, within, cross);
    forall r | r in rows ensures !Meets(r, 0.7) && !AtFloor(r, 0.7) && r.precision == Round4(Precision(501, 500)) {
      var i :| 0 <= i < |rows| && rows[i] == r;
      assert RowFits(r, |within|, |cross|);
    }
    assert rows[0] in rows;
    var j :| 0 <= j < |rows| && rows[j] == best;
  }
}
