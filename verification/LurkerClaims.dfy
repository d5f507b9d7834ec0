/** What the recipe module claims of the lurker search, the (A-threshold, B-threshold) pair of most
    recall at the precision floor, and what the search delivers on every cohort. */
module LurkerClaims {
  import opened Wrappers
  import opened Ratios
  import opened Recipes
  import opened LurkerRecipe
  import opened Cohorts

  // What the two sweeps leave for a floor.
  ghost predicate Outcome(stats: seq<Stats>, labels: Labels, floor: real, a: Option<Best>, b: Option<Best>) {
    && floor > 0.0
    && Kept(a, stats, labels, Responder, floor, InitRateGrid())
    && Kept(b, stats, labels, Visitor, floor, DAILY_GRID)
  }

  // The joined recipe meets the floor, if it matches anything at all.
  ghost predicate JoinedMeetsFloor(stats: seq<Stats>, labels: Labels, floor: real, a: Option<Best>, b: Option<Best>) {
    (a.Some? || b.Some?) ==>
      Precision(Reported(stats, labels, a, b, true), Reported(stats, labels, a, b, false)) >= floor
  }

  function PairHits(stats: seq<Stats>, labels: Labels, t: real, u: real, isPos: bool): nat {
    Hits(stats, labels, Either(Firing(Responder, t), Firing(Visitor, u)), isPos)
  }

  ghost predicate PairMeetsFloor(stats: seq<Stats>, labels: Labels, floor: real, t: real, u: real) {
    && t in InitRateGrid() && u in DAILY_GRID
    && Precision(PairHits(stats, labels, t, u, true), PairHits(stats, labels, t, u, false)) >= floor
  }

  // No pair of grid thresholds that meets the floor together hits more lurkers than reported.
  ghost predicate MostRecall(stats: seq<Stats>, labels: Labels, floor: real, a: Option<Best>, b: Option<Best>) {
    forall t, u :: PairMeetsFloor(stats, labels, floor, t, u) ==>
      PairHits(stats, labels, t, u, true) <= Reported(stats, labels, a, b, true)
  }

  // ----- The two grids -----

  lemma GridStep(t: real) returns (k: nat)
    requires t in InitRateGrid()
    ensures 1 <= k <= 20 && t == k as real * 0.05
  {
    var i :| 0 <= i < 20 && InitRateGrid()[i] == t;
    k := i + 1;
  }

  lemma GridPoint(k: nat)
    requires 1 <= k <= 20
    ensures k as real * 0.05 in InitRateGrid()
  {
    assert InitRateGrid()[k - 1] == k as real * 0.05;
  }

  lemma GridGap(t: real, t': real)
    requires t in InitRateGrid() && t' in InitRateGrid() && t < t'
    ensures t + 0.05 <= t'
  {
    var k := GridStep(t);
    var k' := GridStep(t');
    assert k < k';
  }

  lemma GridRange(t: real)
    requires t in InitRateGrid()
    ensures 0.05 <= t && (t <= 0.95 || t == 1.0)
  {
    var k := GridStep(t);
    if k <= 19 { assert k as real <= 19.0; }
  }

  /** The candidate thresholds: twentieths up to one, and eleven daily rates. */
  lemma GridsAsWritten(t: real, u: real)
    ensures t in InitRateGrid() <==> exists k: nat :: 1 <= k <= 20 && t == Twentieths(k)
    ensures u in DAILY_GRID <==>
            u == 0.5 || u == 1.0 || u == 1.5 || u == 2.0 || u == 2.5 || u == 3.0 || u == 3.5 || u == 4.0 || u == 5.0 || u == 7.0 || u == 10.0
  {
    if t in InitRateGrid() {
      var k := GridStep(t);
      assert t == Twentieths(k);
    }
    forall k: nat | 1 <= k <= 20 && t == Twentieths(k) ensures t in InitRateGrid() { GridPoint(k); }
  }

  function Twentieths(k: nat): real { k as real / 20.0 }

  lemma DailyRange(u: real)
    requires u in DAILY_GRID
    ensures 0.5 <= u <= 10.0
  {
  }

  lemma DailyGap(u: real, u': real)
    requires u in DAILY_GRID && u' in DAILY_GRID && u < u'
    ensures u + 0.5 <= u'
  {
  }

  // ----- Recall over the pairs whose patterns each meet the floor -----

  // Two counted actors more than one predicate matches: hits differ.
  lemma {:induction false} HitsGrow(stats: seq<Stats>, labels: Labels, f: Stats -> bool, g: Stats -> bool, isPos: bool)
    requires forall s :: s in stats && f(s) ==> g(s)
    ensures Hits(stats, labels, f, isPos) <= Hits(stats, labels, g, isPos)
  {
    if stats != [] {
      assert stats[|stats| - 1] in stats;
      HitsGrow(stats[..|stats| - 1], labels, f, g, isPos);
    }
  }

  ghost predicate IsLurker(labels: Labels, s: Stats) {
    s.sender in labels && labels[s.sender] == LURKER
  }

  lemma {:induction false} HitsGrowStrictly(stats: seq<Stats>, labels: Labels, f: Stats -> bool, g: Stats -> bool, x: Stats)
    requires forall s :: s in stats && f(s) ==> g(s)
    requires x in stats && IsLurker(labels, x) && g(x) && !f(x)
    ensures Hits(stats, labels, f, true) < Hits(stats, labels, g, true)
  {
    var n := |stats| - 1;
    assert stats[n] in stats;
    if x == stats[n] {
      HitsGrow(stats[..n], labels, f, g, true);
    } else {
      assert x in stats[..n];
      HitsGrowStrictly(stats[..n], labels, f, g, x);
    }
  }

  // On the lurkers, f matches no more than g.
  ghost predicate Covered(stats: seq<Stats>, labels: Labels, f: Stats -> bool, g: Stats -> bool) {
    forall s :: s in stats && IsLurker(labels, s) && f(s) ==> g(s)
  }

  lemma {:induction false} CoveredHits(stats: seq<Stats>, labels: Labels, f: Stats -> bool, g: Stats -> bool)
    requires Covered(stats, labels, f, g)
    ensures Hits(stats, labels, f, true) <= Hits(stats, labels, g, true)
  {
    if stats != [] {
      assert stats[|stats| - 1] in stats;
      CoveredHits(stats[..|stats| - 1], labels, f, g);
    }
  }

  lemma KeptIsAhead(stats: seq<Stats>, labels: Labels, p: Pattern, floor: real, best: Option<Best>, grid: seq<real>, t: real)
    requires Kept(best, stats, labels, p, floor, grid) && t in grid && MeetsFloor(stats, labels, p, floor, t)
    ensures best.Some? && Tp(stats, labels, p, t) <= best.value.tp
  {
    assert !PickerPrefers(best, Tp(stats, labels, p, t), Fp(stats, labels, p, t));
  }

  /** The matched sets are nested in the threshold, so a sweep keeps every lurker that any threshold
      at the floor matches. */
  lemma KeptCovers(stats: seq<Stats>, labels: Labels, p: Pattern, floor: real, best: Option<Best>, grid: seq<real>, t: real)
    requires p != Chatty && Kept(best, stats, labels, p, floor, grid) && t in grid && MeetsFloor(stats, labels, p, floor, t)
    ensures best.Some? && Covered(stats, labels, Firing(p, t), Firing(p, best.value.t))
  {
    KeptIsAhead(stats, labels, p, floor, best, grid, t);
    var f, g := Firing(p, best.value.t), Firing(p, t);
    if best.value.t < t {
      forall s | s in stats && IsLurker(labels, s) && g(s) ensures f(s) {
        if !f(s) { HitsGrowStrictly(stats, labels, f, g, s); }
      }
    }
  }

  lemma ReportedHolds(stats: seq<Stats>, labels: Labels, a: Option<Best>, b: Option<Best>)
    ensures a.Some? ==> Hits(stats, labels, Firing(Responder, a.value.t), true) <= Reported(stats, labels, a, b, true)
    ensures b.Some? ==> Hits(stats, labels, Firing(Visitor, b.value.t), true) <= Reported(stats, labels, a, b, true)
  {
    if a.Some? && b.Some? {
      HitsGrow(stats, labels, Firing(Responder, a.value.t), Merged(a.value, b.value), true);
      HitsGrow(stats, labels, Firing(Visitor, b.value.t), Merged(a.value, b.value), true);
    }
  }

  /** The search hits at least as many lurkers as any pair of grid thresholds that each meet the
      floor. */
  lemma RecallOverEligiblePairs(stats: seq<Stats>, labels: Labels, floor: real, a: Option<Best>, b: Option<Best>, t: real, u: real)
    requires Outcome(stats, labels, floor, a, b) && t in InitRateGrid() && u in DAILY_GRID
    requires MeetsFloor(stats, labels, Responder, floor, t) && MeetsFloor(stats, labels, Visitor, floor, u)
    ensures PairHits(stats, labels, t, u, true) <= Reported(stats, labels, a, b, true)
  {
    KeptCovers(stats, labels, Responder, floor, a, InitRateGrid(), t);
    KeptCovers(stats, labels, Visitor, floor, b, DAILY_GRID, u);
    CoveredHits(stats, labels, Either(Firing(Responder, t), Firing(Visitor, u)), Merged(a.value, b.value));
  }

  // ----- When the joined recipe meets the floor -----

  // Within reach of both patterns, below the threshold that matches everybody.
  predicate Shared(s: Stats) {
    s.initRate <= 0.95 && s.msgPerDay <= 10.0 && s.spanDays >= SPAN_FLOOR
  }

  // At initiation rate 1 the first pattern matches everybody.
  lemma EverybodyMatches(stats: seq<Stats>, labels: Labels, g: Stats -> bool, isPos: bool)
    requires AllProducible(stats)
    ensures Hits(stats, labels, Either(Firing(Responder, 1.0), g), isPos) == Hits(stats, labels, Firing(Responder, 1.0), isPos)
  {
    forall s | s in stats ensures Either(Firing(Responder, 1.0), g)(s) == Firing(Responder, 1.0)(s) { InitRateIsShare(s); }
    CellSame(stats, labels, LURKER, Either(Firing(Responder, 1.0), g), Firing(Responder, 1.0), isPos, true);
  }

  lemma {:induction false} NobodyHit(stats: seq<Stats>, labels: Labels, f: Stats -> bool)
    requires forall s :: s in stats && IsLurker(labels, s) ==> !f(s)
    ensures Hits(stats, labels, f, true) == 0
  {
    if stats != [] {
      assert stats[|stats| - 1] in stats;
      NobodyHit(stats[..|stats| - 1], labels, f);
    }
  }

  lemma NoSlackUsed(fp: nat, floor: real)
    requires floor > 0.0
    ensures Slack(0, fp, floor) <= 0.0
  {
    Scale(0.0, fp as real, floor);
  }

  /** When no labelled lurker is within reach of both patterns, the joined recipe meets every floor. */
  lemma UnsharedMeetsFloor(stats: seq<Stats>, labels: Labels, floor: real, a: Option<Best>, b: Option<Best>)
    requires AllProducible(stats) && Outcome(stats, labels, floor, a, b)
    requires forall s :: s in stats && IsLurker(labels, s) ==> !Shared(s)
    ensures JoinedMeetsFloor(stats, labels, floor, a, b)
  {
    ReportedBound(stats, labels, a, b, floor);
    if a.Some? && b.Some? {
      GridRange(a.value.t);
      DailyRange(b.value.t);
      if a.value.t == 1.0 {
        EverybodyMatches(stats, labels, Firing(Visitor, b.value.t), true);
        EverybodyMatches(stats, labels, Firing(Visitor, b.value.t), false);
      } else {
        var both := Overlap(a.value, b.value);
        NobodyHit(stats, labels, both);
        NoSlackUsed(Hits(stats, labels, both, false), floor);
        SlackIsPrecision(a.value.tp, a.value.fp, floor);
        SlackIsPrecision(b.value.tp, b.value.fp, floor);
        MergedFloorBySlack(a, b, stats, labels, floor);
      }
    }
  }

  // A sweep always leaves something or nothing.
  lemma {:induction false} SweepHasOutcome(stats: seq<Stats>, labels: Labels, p: Pattern, floor: real, grid: seq<real>)
    returns (best: Option<Best>)
    ensures Kept(best, stats, labels, p, floor, grid)
  {
    best := None;
    if grid != [] {
      var n := |grid| - 1;
      var t := grid[n];
      best := SweepHasOutcome(stats, labels, p, floor, grid[..n]);
      assert grid == grid[..n] + [t];
      if MeetsFloor(stats, labels, p, floor, t) && PickerPrefers(best, Tp(stats, labels, p, t), Fp(stats, labels, p, t)) {
        best := Some(Best(t, Tp(stats, labels, p, t), Fp(stats, labels, p, t)));
      }
    }
  }

  lemma LurkersInCohort(lurkers: seq<Stats>, others: seq<Stats>, labels: Labels)
    requires AllProducible(lurkers) && Extension(lurkers, others, labels)
    ensures AllProducible(lurkers + others)
    ensures forall s :: s in lurkers + others && IsLurker(labels, s) ==> s in lurkers
  {
  }
}
