/** What the reported calibration numbers say: the AUC as a share of pairs, the counts of a row as
    numbers of entries, and the ratios in terms of the counts. */
module ReportedNumbers {
  import opened Ratios
  import opened Rounding
  import opened Recipes
  import opened Calibration
  import opened OperatingPoints

  // ----- Counting -----

  ghost function Where(n: nat, p: nat -> bool): set<nat> {
    set i: nat | i < n && p(i)
  }

  lemma OneMore(n: nat, p: nat -> bool)
    ensures |Where(n + 1, p)| == |Where(n, p)| + if p(n) then 1 else 0
  {
    assert Where(n + 1, p) == Where(n, p) + if p(n) then {n} else {};
  }

  /** The counts of a row are the numbers of entries at or under, and at or above, its threshold. */
  lemma {:induction false} AtMostIsCount(s: seq<int>, t: int)
    ensures AtMost(s, t) == |set i: nat | i < |s| && s[i] <= t|
  {
    var p := (i: nat) => i < |s| && s[i] <= t;
    assert (set i: nat | i < |s| && s[i] <= t) == Where(|s|, p);
    if s != [] {
      var n := |s| - 1;
      AtMostIsCount(s[..n], t);
      assert (set i: nat | i < n && s[..n][i] <= t) == Where(n, p);
      OneMore(n, p);
    }
  }

  lemma {:induction false} AtLeastIsCount(s: seq<real>, t: real)
    ensures AtLeast(s, t) == |set i: nat | i < |s| && s[i] >= t|
  {
    var p := (i: nat) => i < |s| && s[i] >= t;
    assert (set i: nat | i < |s| && s[i] >= t) == Where(|s|, p);
    if s != [] {
      var n := |s| - 1;
      AtLeastIsCount(s[..n], t);
      assert (set i: nat | i < n && s[..n][i] >= t) == Where(n, p);
      OneMore(n, p);
    }
  }

  // Places (i, j) of an n by m table at which p holds.
  ghost function Places(n: nat, m: nat, p: (nat, nat) -> bool): set<(nat, nat)> {
    set i: nat, j: nat | i < n && j < m && p(i, j) :: (i, j)
  }

  ghost function PlacesInRow(i: nat, m: nat, p: (nat, nat) -> bool): set<(nat, nat)> {
    set j: nat | j < m && p(i, j) :: (i, j)
  }

  lemma RowOneMore(i: nat, m: nat, p: (nat, nat) -> bool)
    ensures |PlacesInRow(i, m + 1, p)| == |PlacesInRow(i, m, p)| + if p(i, m) then 1 else 0
  {
    assert PlacesInRow(i, m + 1, p) == PlacesInRow(i, m, p) + if p(i, m) then {(i, m)} else {};
  }

  lemma OneMorePlaceRow(n: nat, m: nat, p: (nat, nat) -> bool)
    ensures |Places(n + 1, m, p)| == |Places(n, m, p)| + |PlacesInRow(n, m, p)|
  {
    assert Places(n + 1, m, p) == Places(n, m, p) + PlacesInRow(n, m, p);
    assert Places(n, m, p) !! PlacesInRow(n, m, p);
  }

  lemma {:induction false} FullRow(i: nat, m: nat, p: (nat, nat) -> bool)
    requires forall j: nat :: p(i, j)
    ensures |PlacesInRow(i, m, p)| == m
  {
    if m > 0 {
      FullRow(i, m - 1, p);
      RowOneMore(i, m - 1, p);
    }
  }

  lemma {:induction false} FullTable(n: nat, m: nat, p: (nat, nat) -> bool)
    requires forall i: nat, j: nat :: p(i, j)
    ensures |Places(n, m, p)| == n * m
  {
    if n > 0 {
      FullTable(n - 1, m, p);
      OneMorePlaceRow(n - 1, m, p);
      FullRow(n - 1, m, p);
      OneMoreRow(n - 1, m);
    }
  }

  // ----- The statistic -----

  // The pairs a positive wins against a negative, and those that tie.
  ghost function Won(within: seq<int>, cross: seq<int>): set<(nat, nat)> {
    set i: nat, j: nat | i < |within| && j < |cross| && within[i] < cross[j] :: (i, j)
  }

  ghost function Level(within: seq<int>, cross: seq<int>): set<(nat, nat)> {
    set i: nat, j: nat | i < |within| && j < |cross| && within[i] == cross[j] :: (i, j)
  }

  ghost function WonHigher(within: seq<real>, cross: seq<real>): set<(nat, nat)> {
    set i: nat, j: nat | i < |within| && j < |cross| && within[i] > cross[j] :: (i, j)
  }

  ghost function LevelHigher(within: seq<real>, cross: seq<real>): set<(nat, nat)> {
    set i: nat, j: nat | i < |within| && j < |cross| && within[i] == cross[j] :: (i, j)
  }

  // A score per place, two where win holds and one where tie does.
  function RowScore(i: nat, m: nat, win: (nat, nat) -> bool, tie: (nat, nat) -> bool): nat {
    if m == 0 then 0
    else RowScore(i, m - 1, win, tie) + if win(i, m - 1) then 2 else if tie(i, m - 1) then 1 else 0
  }

  function TableScore(n: nat, m: nat, win: (nat, nat) -> bool, tie: (nat, nat) -> bool): nat {
    if n == 0 then 0 else TableScore(n - 1, m, win, tie) + RowScore(n - 1, m, win, tie)
  }

  lemma {:induction false} RowScoreCounts(i: nat, m: nat, win: (nat, nat) -> bool, tie: (nat, nat) -> bool)
    requires forall k: nat, j: nat :: !(win(k, j) && tie(k, j))
    ensures RowScore(i, m, win, tie) == 2 * |PlacesInRow(i, m, win)| + |PlacesInRow(i, m, tie)|
  {
    if m > 0 {
      RowScoreCounts(i, m - 1, win, tie);
      RowOneMore(i, m - 1, win);
      RowOneMore(i, m - 1, tie);
    }
  }

  lemma {:induction false} TableScoreCounts(n: nat, m: nat, win: (nat, nat) -> bool, tie: (nat, nat) -> bool)
    requires forall k: nat, j: nat :: !(win(k, j) && tie(k, j))
    ensures TableScore(n, m, win, tie) == 2 * |Places(n, m, win)| + |Places(n, m, tie)|
  {
    if n > 0 {
      TableScoreCounts(n - 1, m, win, tie);
      OneMorePlaceRow(n - 1, m, win);
      OneMorePlaceRow(n - 1, m, tie);
      RowScoreCounts(n - 1, m, win, tie);
    }
  }

  function Closer(within: seq<int>, cross: seq<int>): (nat, nat) -> bool {
    (i: nat, j: nat) => i < |within| && j < |cross| && within[i] < cross[j]
  }

  function Same(within: seq<int>, cross: seq<int>): (nat, nat) -> bool {
    (i: nat, j: nat) => i < |within| && j < |cross| && within[i] == cross[j]
  }

  lemma {:induction false} RowWinsScore(within: seq<int>, cross: seq<int>, i: nat, m: nat)
    requires i < |within| && m <= |cross|
    ensures RowWins(within[i], cross[..m]) == RowScore(i, m, Closer(within, cross), Same(within, cross))
  {
    if m > 0 {
      RowWinsScore(within, cross, i, m - 1);
      assert cross[..m][..m - 1] == cross[..m - 1];
    }
  }

  lemma {:induction false} WinsScore(within: seq<int>, cross: seq<int>, n: nat)
    requires n <= |within|
    ensures TwiceWins(within[..n], cross) == TableScore(n, |cross|, Closer(within, cross), Same(within, cross))
  {
    if n > 0 {
      WinsScore(within, cross, n - 1);
      assert within[..n][..n - 1] == within[..n - 1];
      RowWinsScore(within, cross, n - 1, |cross|);
      assert cross[..|cross|] == cross;
    }
  }

  /** Twice the wins are two for each pair in which the positive is closer and one for each tie. */
  lemma WinsArePairs(within: seq<int>, cross: seq<int>)
    ensures TwiceWins(within, cross) == 2 * |Won(within, cross)| + |Level(within, cross)|
  {
    var win, tie := Closer(within, cross), Same(within, cross);
    WinsScore(within, cross, |within|);
    assert within[..|within|] == within;
    TableScoreCounts(|within|, |cross|, win, tie);
    assert Places(|within|, |cross|, win) == Won(within, cross) && Places(|within|, |cross|, tie) == Level(within, cross);
  }

  function Above(within: seq<real>, cross: seq<real>): (nat, nat) -> bool {
    (i: nat, j: nat) => i < |within| && j < |cross| && within[i] > cross[j]
  }

  function SameScore(within: seq<real>, cross: seq<real>): (nat, nat) -> bool {
    (i: nat, j: nat) => i < |within| && j < |cross| && within[i] == cross[j]
  }

  lemma {:induction false} RowWinsHigherScore(within: seq<real>, cross: seq<real>, i: nat, m: nat)
    requires i < |within| && m <= |cross|
    ensures RowWinsHigher(within[i], cross[..m]) == RowScore(i, m, Above(within, cross), SameScore(within, cross))
  {
    if m > 0 {
      RowWinsHigherScore(within, cross, i, m - 1);
      assert cross[..m][..m - 1] == cross[..m - 1];
    }
  }

  lemma {:induction false} WinsHigherScore(within: seq<real>, cross: seq<real>, n: nat)
    requires n <= |within|
    ensures TwiceWinsHigher(within[..n], cross) == TableScore(n, |cross|, Above(within, cross), SameScore(within, cross))
  {
    if n > 0 {
      WinsHigherScore(within, cross, n - 1);
      assert within[..n][..n - 1] == within[..n - 1];
      RowWinsHigherScore(within, cross, n - 1, |cross|);
      assert cross[..|cross|] == cross;
    }
  }

  /** The mirrored count: two for each pair in which the positive scores higher and one for each tie. */
  lemma WinsHigherArePairs(within: seq<real>, cross: seq<real>)
    ensures TwiceWinsHigher(within, cross) == 2 * |WonHigher(within, cross)| + |LevelHigher(within, cross)|
  {
    var win, tie := Above(within, cross), SameScore(within, cross);
    WinsHigherScore(within, cross, |within|);
    assert within[..|within|] == within;
    TableScoreCounts(|within|, |cross|, win, tie);
    assert Places(|within|, |cross|, win) == WonHigher(within, cross);
    assert Places(|within|, |cross|, tie) == LevelHigher(within, cross);
  }

  // ----- The reported number -----

  // auc is the share of the points that so many pairs give, two for a win and one for a tie.
  predicate IsShare(auc: real, points: nat, pairs: nat) {
    pairs > 0 && auc * (2 * pairs) as real == points as real
  }

  lemma AucTimes(twice: nat, n: nat, m: nat)
    requires n > 0 && m > 0
    ensures IsShare(Auc(twice, n, m), twice, n * m)
  {
    PositiveProduct(n, m);
    var x, k := Auc(twice, n, m), (n * m) as real;
    assert x * k == twice as real / 2.0;
    assert (2 * (n * m)) as real == 2.0 * k;
    Double(x, k);
  }

  lemma Double(x: real, k: real)
    ensures x * (2.0 * k) == 2.0 * (x * k)
  {
  }

  // Won and tied places of a table, of which a place is at most one.
  lemma SharesOfTable(n: nat, m: nat, won: set<(nat, nat)>, level: set<(nat, nat)>, all: set<(nat, nat)>)
    requires all == Places(n, m, (i, j) => true) && won <= all && level <= all && won !! level
    ensures |all| == n * m && 2 * |won| + |level| <= 2 * (n * m)
    ensures 2 * |won| + |level| == 2 * (n * m) <==> won == all
    ensures 2 * |won| + |level| == 0 <==> won + level == {}
  {
    FullTable(n, m, (i, j) => true);
    Sizes(won + level, all);
    Sizes(won, all);
    assert |won + level| == |won| + |level|;
  }

  lemma Sizes<T>(s: set<T>, t: set<T>)
    requires s <= t
    ensures |s| <= |t| && (|s| == |t| <==> s == t)
  {
    assert t == s + (t - s);
  }

  lemma ExtremesOfShare(auc: real, points: nat, pairs: nat)
    requires IsShare(auc, points, pairs) && points <= 2 * pairs
    ensures 0.0 <= auc <= 1.0 && (auc == 1.0 <==> points == 2 * pairs) && (auc == 0.0 <==> points == 0)
  {
    var k := (2 * pairs) as real;
    if auc > 1.0 { Ordered(1.0, auc, k); }
    if auc < 0.0 { Ordered(auc, 0.0, k); }
    if auc < 1.0 { Ordered(auc, 1.0, k); }
    if auc > 0.0 { Ordered(0.0, auc, k); }
  }

  /** The distance statistic is the share of pairs in which the positive is closer, ties counting half;
      with nothing to compare it is one half. */
  lemma AucIsShareOfPairs(within: seq<int>, cross: seq<int>)
    ensures var auc, pairs := Auc(TwiceWins(within, cross), |within|, |cross|), |within| * |cross|;
            if within == [] || cross == [] then auc == 0.5
            else IsShare(auc, 2 * |Won(within, cross)| + |Level(within, cross)|, pairs)
  {
    WinsArePairs(within, cross);
    if within != [] && cross != [] { AucTimes(TwiceWins(within, cross), |within|, |cross|); }
  }

  /** It is a number from zero to one: one exactly when every positive is closer than every negative,
      zero exactly when every one is farther. */
  lemma AucExtremes(within: seq<int>, cross: seq<int>, auc: real)
    requires within != [] && cross != [] && auc == Auc(TwiceWins(within, cross), |within|, |cross|)
    ensures 0.0 <= auc <= 1.0
    ensures auc == 1.0 <==> forall w, c :: w in within && c in cross ==> w < c
    ensures auc == 0.0 <==> forall w, c :: w in within && c in cross ==> w > c
  {
    var all, won, level := Places(|within|, |cross|, (i, j) => true), Won(within, cross), Level(within, cross);
    AucIsShareOfPairs(within, cross);
    SharesOfTable(|within|, |cross|, won, level, all);
    ExtremesOfShare(auc, 2 * |won| + |level|, |within| * |cross|);
    AllWon(within, cross, all);
    NoneWon(within, cross);
  }

  lemma AllWon(within: seq<int>, cross: seq<int>, all: set<(nat, nat)>)
    requires all == Places(|within|, |cross|, (i, j) => true)
    ensures Won(within, cross) == all <==> forall w, c :: w in within && c in cross ==> w < c
  {
    if Won(within, cross) == all {
      forall w, c | w in within && c in cross ensures w < c {
        var i: nat :| i < |within| && within[i] == w;
        var j: nat :| j < |cross| && cross[j] == c;
        assert (i, j) in all;
      }
    }
    if forall w, c :: w in within && c in cross ==> w < c {
      forall i: nat, j: nat | (i, j) in all ensures (i, j) in Won(within, cross) {
        assert within[i] in within && cross[j] in cross;
      }
      assert forall q :: q in all ==> q in Won(within, cross);
    }
  }

  lemma NoneWon(within: seq<int>, cross: seq<int>)
    ensures Won(within, cross) + Level(within, cross) == {} <==> forall w, c :: w in within && c in cross ==> w > c
  {
    if Won(within, cross) + Level(within, cross) == {} {
      forall w, c | w in within && c in cross ensures w > c {
        var i: nat :| i < |within| && within[i] == w;
        var j: nat :| j < |cross| && cross[j] == c;
        assert (i, j) !in Won(within, cross) + Level(within, cross);
      }
    }
    if forall w, c :: w in within && c in cross ==> w > c {
      forall i: nat, j: nat | i < |within| && j < |cross| ensures within[i] > cross[j] {
        assert within[i] in within && cross[j] in cross;
      }
    }
  }

  /** And it is the area under the curve that the sweep's own rows draw. */
  lemma AucIsArea(rows: seq<Row<int>>, within: seq<int>, cross: seq<int>, auc: real)
    requires within != [] && cross != [] && IsSweep(rows, within, cross)
    requires forall d :: d in within + cross ==> 0 <= d <= MAX_DISTANCE
    requires auc == Auc(TwiceWins(within, cross), |within|, |cross|)
    ensures TwiceArea(rows, |rows|) >= 0 && IsShare(auc, TwiceArea(rows, |rows|), |within| * |cross|)
  {
    AucTimes(TwiceWins(within, cross), |within|, |cross|);
    AucIsAreaUnderSweep(rows, within, cross);
  }

  /** The score statistic, mirrored: the share of pairs in which the positive scores higher. */
  lemma AucHigherIsShareOfPairs(within: seq<real>, cross: seq<real>)
    ensures var auc, pairs := Auc(TwiceWinsHigher(within, cross), |within|, |cross|), |within| * |cross|;
            if within == [] || cross == [] then auc == 0.5
            else IsShare(auc, 2 * |WonHigher(within, cross)| + |LevelHigher(within, cross)|, pairs)
  {
    WinsHigherArePairs(within, cross);
    if within != [] && cross != [] { AucTimes(TwiceWinsHigher(within, cross), |within|, |cross|); }
  }

  lemma AucHigherExtremes(within: seq<real>, cross: seq<real>, auc: real)
    requires within != [] && cross != [] && auc == Auc(TwiceWinsHigher(within, cross), |within|, |cross|)
    ensures 0.0 <= auc <= 1.0
    ensures auc == 1.0 <==> forall w, c :: w in within && c in cross ==> w > c
    ensures auc == 0.0 <==> forall w, c :: w in within && c in cross ==> w < c
  {
    var all, won, level := Places(|within|, |cross|, (i, j) => true), WonHigher(within, cross), LevelHigher(within, cross);
    AucHigherIsShareOfPairs(within, cross);
    SharesOfTable(|within|, |cross|, won, level, all);
    ExtremesOfShare(auc, 2 * |won| + |level|, |within| * |cross|);
    AllWonHigher(within, cross, all);
    NoneWonHigher(within, cross);
  }

  lemma AllWonHigher(within: seq<real>, cross: seq<real>, all: set<(nat, nat)>)
    requires all == Places(|within|, |cross|, (i, j) => true)
    ensures WonHigher(within, cross) == all <==> forall w, c :: w in within && c in cross ==> w > c
  {
    if WonHigher(within, cross) == all {
      forall w, c | w in within && c in cross ensures w > c {
        var i: nat :| i < |within| && within[i] == w;
        var j: nat :| j < |cross| && cross[j] == c;
        assert (i, j) in all;
      }
    }
    if forall w, c :: w in within && c in cross ==> w > c {
      forall i: nat, j: nat | (i, j) in all ensures (i, j) in WonHigher(within, cross) {
        assert within[i] in within && cross[j] in cross;
      }
      assert forall q :: q in all ==> q in WonHigher(within, cross);
    }
  }

  lemma NoneWonHigher(within: seq<real>, cross: seq<real>)
    ensures WonHigher(within, cross) + LevelHigher(within, cross) == {} <==> forall w, c :: w in within && c in cross ==> w < c
  {
    if WonHigher(within, cross) + LevelHigher(within, cross) == {} {
      forall w, c | w in within && c in cross ensures w < c {
        var i: nat :| i < |within| && within[i] == w;
        var j: nat :| j < |cross| && cross[j] == c;
        assert (i, j) !in WonHigher(within, cross) + LevelHigher(within, cross);
      }
    }
    if forall w, c :: w in within && c in cross ==> w < c {
      forall i: nat, j: nat | i < |within| && j < |cross| ensures within[i] < cross[j] {
        assert within[i] in within && cross[j] in cross;
      }
    }
  }

  // ----- Rows -----

  lemma DoubledHarmonicMean(t: real, a: real, b: real, p: real, r: real)
    requires t > 0.0 && a >= t && b >= t && p * a == t && r * b == t
    ensures F1(p, r) == 2.0 * t / (a + b)
  {
    if p <= 0.0 { NotPositive(p, a); }
    if r <= 0.0 { NotPositive(r, b); }
    assert 2.0 * p * r * (a + b) == 2.0 * r * (p * a) + 2.0 * p * (r * b);
    EqualQuotients(2.0 * p * r, p + r, 2.0 * t, a + b);
  }

  lemma NotPositive(x: real, k: real)
    requires x <= 0.0 && k > 0.0
    ensures x * k <= 0.0
  {
  }

  lemma EqualQuotients(x: real, m: real, y: real, n: real)
    requires m > 0.0 && n > 0.0 && x * n == y * m
    ensures x / m == y / n
  {
    var q := y / n;
    assert q * n == y;
    assert q * m * n == q * n * m;
    SameFactor(x, q * m, n);
    assert x == q * m;
  }

  lemma SameFactor(x: real, y: real, n: real)
    requires n > 0.0 && x * n == y * n
    ensures x == y
  {
  }

  lemma PrecisionTimes(tp: nat, fp: nat)
    requires tp + fp > 0
    ensures Precision(tp, fp) * (tp + fp) as real == tp as real
  {
  }

  /** f1 in terms of the counts: twice the hits, over twice the hits and both kinds of error. */
  lemma F1OfCounts(tp: nat, fp: nat, fn: nat)
    requires 2 * tp + fp + fn > 0
    ensures F1(Precision(tp, fp), Precision(tp, fn)) == (2 * tp) as real / (2 * tp + fp + fn) as real
  {
    if tp > 0 {
      PrecisionTimes(tp, fp);
      PrecisionTimes(tp, fn);
      DoubledHarmonicMean(tp as real, (tp + fp) as real, (tp + fn) as real, Precision(tp, fp), Precision(tp, fn));
      SumsAsReals(tp, fp, fn);
    } else {
      assert Precision(tp, fp) == 0.0 && Precision(tp, fn) == 0.0;
    }
  }

  lemma SumsAsReals(tp: nat, fp: nat, fn: nat)
    ensures (tp + fp) as real + (tp + fn) as real == (2 * tp + fp + fn) as real && 2.0 * tp as real == (2 * tp) as real
  {
  }

  // The ratios of a row or a recipe, rounded, from its counts.
  predicate RatiosOf(precision: real, recall: real, f1: real, tp: nat, fp: nat, fn: nat) {
    && precision == Round4(if tp + fp > 0 then tp as real / (tp + fp) as real else 0.0)
    && recall == Round4(if tp + fn > 0 then tp as real / (tp + fn) as real else 0.0)
    && f1 == Round4(if 2 * tp + fp + fn > 0 then (2 * tp) as real / (2 * tp + fp + fn) as real else 0.0)
  }

  lemma RowRatios<T>(t: T, tp: nat, fp: nat, positives: nat, negatives: nat)
    requires tp <= positives && fp <= negatives && positives > 0
    ensures var r := RowOf(t, tp, fp, positives, negatives); RatiosOf(r.precision, r.recall, r.f1, tp, fp, positives - tp)
  {
    assert Precision(tp, positives - tp) == tp as real / positives as real;
    F1OfCounts(tp, fp, positives - tp);
  }

  /** The 65 rows of the distance sweep: row k predicts the pairs at distance k or less, and carries the
      rounded ratios of its counts. */
  lemma SweepNumbers(rows: seq<Row<int>>, within: seq<int>, cross: seq<int>, k: nat)
    requires within != [] && cross != [] && IsSweep(rows, within, cross) && k < 65
    ensures |rows| == 65 && rows[k].threshold == k
    ensures rows[k].tp == |set i: nat | i < |within| && within[i] <= k| && rows[k].fp == |set i: nat | i < |cross| && cross[i] <= k|
    ensures rows[k].tp + rows[k].fn == |within| && rows[k].fp + rows[k].tn == |cross|
    ensures RatiosOf(rows[k].precision, rows[k].recall, rows[k].f1, rows[k].tp, rows[k].fp, rows[k].fn)
  {
    AtMostIsCount(within, k);
    AtMostIsCount(cross, k);
    RowRatios(k, AtMost(within, k), AtMost(cross, k), |within|, |cross|);
  }

  lemma HundredthIsRounded(k: nat)
    ensures Round4(k as real * 0.01) == k as real / 100.0
  {
    assert k as real * 0.01 * 10000.0 == (100 * k) as real;
  }

  /** The 101 rows of the score sweep at its default step: row k predicts the pairs of score k/100 or
      more. */
  lemma ScoreSweepNumbers(rows: seq<Row<real>>, within: seq<real>, cross: seq<real>, step: real, k: nat)
    requires step == 0.01 && within != [] && cross != [] && IsScoreSweep(rows, within, cross, step) && k < 101
    ensures |rows| == 101 && rows[k].threshold == k as real / 100.0
    ensures rows[k].tp == |set i: nat | i < |within| && within[i] >= k as real / 100.0|
    ensures rows[k].fp == |set i: nat | i < |cross| && cross[i] >= k as real / 100.0|
    ensures rows[k].tp + rows[k].fn == |within| && rows[k].fp + rows[k].tn == |cross|
    ensures RatiosOf(rows[k].precision, rows[k].recall, rows[k].f1, rows[k].tp, rows[k].fp, rows[k].fn)
  {
    HundredSteps(step);
    HundredthIsRounded(k);
    var t := k as real / 100.0;
    assert ScoreThreshold(step, k) == t;
    AtLeastIsCount(within, t);
    AtLeastIsCount(cross, t);
    RowRatios(t, AtLeast(within, t), AtLeast(cross, t), |within|, |cross|);
  }

  lemma HundredSteps(step: real)
    requires step == 0.01
    ensures HalfEven(1.0 / step) == 100
  {
    assert 1.0 / step == 100.0;
  }

  // ----- Recipes -----

  /** What a recipe reports of its counts; recall is over all actors with the label. */
  lemma RecipeNumbers(stats: seq<Stats>, labels: Labels, rc: Calibrated)
    requires RatiosFit(rc) && rc.tp + rc.fn == Positives(stats, labels, rc.positive)
    ensures RatiosOf(rc.precision, rc.recall, rc.f1, rc.tp, rc.fp, rc.fn)
    ensures Positives(stats, labels, rc.positive) > 0 ==>
              rc.recall == Round4(rc.tp as real / Positives(stats, labels, rc.positive) as real)
  {
    if 2 * rc.tp + rc.fp + rc.fn > 0 { F1OfCounts(rc.tp, rc.fp, rc.fn); }
  }
}
