/** What the lurker search delivers at one precision floor: exact conditions on how many lurkers the
    two patterns match, for the floor and for the recall. */
module LurkerFloors {
  import opened Wrappers
  import opened Ratios
  import opened Rounding
  import opened Recipes
  import opened LurkerRecipe
  import opened Cohorts
  import opened LurkerClaims

  // ----- How many alarms a floor allows -----

  // The most alarms that so many hits carry at the floor.
  function Allowed(floor: real, hits: nat): nat
    requires floor > 0.0
  {
    var more := (hits as real / floor).Floor - hits;
    if more > 0 then more else 0
  }

  lemma DivideOut(x: real, n: real, floor: real)
    requires floor > 0.0
    ensures floor * n <= x <==> n <= x / floor
  {
    var q := x / floor;
    assert q * floor == x && floor * n == n * floor;
    if n <= q { Scale(n, q, floor); }
    if q < n { ScaleStrict(q, n, floor); }
  }

  /** Allowed is the right number: it decides which alarms leave the precision at the floor. */
  lemma AtFloorExactlyWhen(tp: nat, fp: nat, floor: real)
    requires floor > 0.0
    ensures Precision(tp, fp) >= floor <==> tp > 0 && floor <= 1.0 && fp <= Allowed(floor, tp)
  {
    SlackIsPrecision(tp, fp, floor);
    DivideOut(tp as real, (tp + fp) as real, floor);
    DivideOut(tp as real, tp as real, floor);
    if floor <= 1.0 {
      Scale(floor, 1.0, tp as real);
    } else if tp + fp > 0 {
      ScaleStrict(1.0, floor, (tp + fp) as real);
    }
  }

  lemma AllowedAdds(floor: real, m: nat, n: nat)
    requires floor > 0.0
    ensures Allowed(floor, m) + Allowed(floor, n) <= Allowed(floor, m + n)
  {
    var x, y := m as real / floor, n as real / floor;
    assert (m + n) as real / floor == x + y;
    if floor <= 1.0 {
      AllowedExact(floor, m);
      AllowedExact(floor, n);
      AllowedExact(floor, m + n);
    } else {
      AllowedNone(floor, m);
      AllowedNone(floor, n);
    }
  }

  lemma AllowedExact(floor: real, n: nat)
    requires 0.0 < floor <= 1.0
    ensures Allowed(floor, n) == (n as real / floor).Floor - n
  {
    Scale(floor, 1.0, n as real);
    DivideOut(n as real, n as real, floor);
  }

  // Above floor 1 nothing is allowed.
  lemma AllowedNone(floor: real, n: nat)
    requires floor > 1.0
    ensures Allowed(floor, n) == 0
  {
    var q := n as real / floor;
    assert q * floor == n as real;
    if q > n as real { ScaleStrict(n as real, q, floor); Scale(1.0, floor, n as real); }
  }

  lemma AllowedMonotone(floor: real, m: nat, n: nat)
    requires floor > 0.0 && m <= n
    ensures Allowed(floor, m) <= Allowed(floor, n)
  {
    AllowedAdds(floor, m, n - m);
  }

  lemma AllowedAtHalf(floor: real, n: nat)
    requires floor == 0.5
    ensures Allowed(floor, n) == n
  {
    assert n as real / 0.5 == (2 * n) as real;
  }

  lemma AllowedAtShipped(floor: real, n: nat)
    requires floor == 0.7
    ensures Allowed(floor, n) == 3 * n / 7
  {
    var q := n as real / 0.7;
    assert 7.0 * q == (10 * n) as real;
    assert q.Floor == 10 * n / 7;
  }

  // ----- What the conditions count -----

  // How many of the lurkers a pattern matches, and a pair of them together.
  function Reach(lurkers: seq<Stats>, p: Pattern, v: real): nat { Count(lurkers, Firing(p, v)) }

  function JointReach(lurkers: seq<Stats>, t: real, u: real): nat {
    Count(lurkers, Either(Firing(Responder, t), Firing(Visitor, u)))
  }

  // Grid thresholds below the one that matches everybody.
  predicate GridPair(t: real, u: real) { t in InitRateGrid() && t < 1.0 && u in DAILY_GRID }

  // The alarms that the two patterns may have apart are no more than they may have together.
  predicate AlarmsFit(lurkers: seq<Stats>, floor: real, t: real, u: real)
    requires floor > 0.0
  {
    Allowed(floor, Reach(lurkers, Responder, t)) + Allowed(floor, Reach(lurkers, Visitor, u))
    <= Allowed(floor, JointReach(lurkers, t, u))
  }

  // A pattern that may have fewer alarms than the pair is not needed: the other matches every lurker
  // that the pair matches.
  predicate EachBacks(lurkers: seq<Stats>, floor: real, t: real, u: real)
    requires floor > 0.0
  {
    var pair := JointReach(lurkers, t, u);
    && (Allowed(floor, Reach(lurkers, Responder, t)) >= Allowed(floor, pair) || Reach(lurkers, Visitor, u) == pair)
    && (Allowed(floor, Reach(lurkers, Visitor, u)) >= Allowed(floor, pair) || Reach(lurkers, Responder, t) == pair)
  }

  lemma ReachOfPair(lurkers: seq<Stats>, t: real, u: real)
    ensures var a, b, pair := Reach(lurkers, Responder, t), Reach(lurkers, Visitor, u), JointReach(lurkers, t, u);
            a <= pair && b <= pair <= a + b
  {
    var f, g := Firing(Responder, t), Firing(Visitor, u);
    CountMonotone(lurkers, f, Either(f, g));
    CountMonotone(lurkers, g, Either(f, g));
    CountEither(lurkers, f, g);
  }

  // Among the lurkers' cohorts, hits are counts of the lurkers.
  lemma HitsAreCounts(lurkers: seq<Stats>, others: seq<Stats>, labels: Labels, f: Stats -> bool)
    requires Extension(lurkers, others, labels)
    ensures Hits(lurkers + others, labels, f, true) == Count(lurkers, f)
  {
    HitsOfLurkers(lurkers, labels, f);
    HitsOfBoth(lurkers, others, labels, f, true);
    NobodyHit(others, labels, f);
  }

  lemma HitsAreReach(lurkers: seq<Stats>, others: seq<Stats>, labels: Labels, t: real, u: real)
    requires Extension(lurkers, others, labels)
    ensures var stats := lurkers + others;
            && Tp(stats, labels, Responder, t) == Reach(lurkers, Responder, t)
            && Tp(stats, labels, Visitor, u) == Reach(lurkers, Visitor, u)
            && PairHits(stats, labels, t, u, true) == JointReach(lurkers, t, u)
  {
    HitsAreCounts(lurkers, others, labels, Firing(Responder, t));
    HitsAreCounts(lurkers, others, labels, Firing(Visitor, u));
    HitsAreCounts(lurkers, others, labels, Either(Firing(Responder, t), Firing(Visitor, u)));
  }

  // ----- The conditions suffice -----

  lemma JoinedAtFloor(lurkers: seq<Stats>, others: seq<Stats>, labels: Labels, floor: real, t: real, u: real)
    requires Extension(lurkers, others, labels) && floor > 0.0 && AlarmsFit(lurkers, floor, t, u)
    requires MeetsFloor(lurkers + others, labels, Responder, floor, t) && MeetsFloor(lurkers + others, labels, Visitor, floor, u)
    ensures Precision(PairHits(lurkers + others, labels, t, u, true), PairHits(lurkers + others, labels, t, u, false)) >= floor
  {
    var stats := lurkers + others;
    HitsAreReach(lurkers, others, labels, t, u);
    ReachOfPair(lurkers, t, u);
    HitsOfEither(stats, labels, Firing(Responder, t), Firing(Visitor, u), false);
    AtFloorExactlyWhen(Tp(stats, labels, Responder, t), Fp(stats, labels, Responder, t), floor);
    AtFloorExactlyWhen(Tp(stats, labels, Visitor, u), Fp(stats, labels, Visitor, u), floor);
    AtFloorExactlyWhen(PairHits(stats, labels, t, u, true), PairHits(stats, labels, t, u, false), floor);
  }

  lemma FitMeetsFloor(lurkers: seq<Stats>, others: seq<Stats>, labels: Labels, floor: real, a: Option<Best>, b: Option<Best>)
    requires AllProducible(lurkers) && Extension(lurkers, others, labels) && Outcome(lurkers + others, labels, floor, a, b)
    requires forall t, u :: GridPair(t, u) ==> AlarmsFit(lurkers, floor, t, u)
    ensures JoinedMeetsFloor(lurkers + others, labels, floor, a, b)
  {
    var stats := lurkers + others;
    ReportedBound(stats, labels, a, b, floor);
    if a.Some? && b.Some? {
      var t, u := a.value.t, b.value.t;
      GridRange(t);
      if t == 1.0 {
        LurkersInCohort(lurkers, others, labels);
        EverybodyMatches(stats, labels, Firing(Visitor, u), true);
        EverybodyMatches(stats, labels, Firing(Visitor, u), false);
      } else {
        assert GridPair(t, u);
        JoinedAtFloor(lurkers, others, labels, floor, t, u);
      }
    }
  }

  // A pattern of a pair at the floor is at the floor itself when its hits allow as many alarms.
  lemma OneOfPair(lurkers: seq<Stats>, others: seq<Stats>, labels: Labels, floor: real, p: Pattern, v: real, t: real, u: real)
    requires Extension(lurkers, others, labels) && floor > 0.0 && PairMeetsFloor(lurkers + others, labels, floor, t, u)
    requires (p == Responder && v == t) || (p == Visitor && v == u)
    requires Reach(lurkers, p, v) > 0 && Allowed(floor, Reach(lurkers, p, v)) >= Allowed(floor, JointReach(lurkers, t, u))
    ensures MeetsFloor(lurkers + others, labels, p, floor, v)
  {
    var stats := lurkers + others;
    HitsAreReach(lurkers, others, labels, t, u);
    HitsGrow(stats, labels, Firing(p, v), Either(Firing(Responder, t), Firing(Visitor, u)), false);
    AtFloorExactlyWhen(PairHits(stats, labels, t, u, true), PairHits(stats, labels, t, u, false), floor);
    AtFloorExactlyWhen(Tp(stats, labels, p, v), Fp(stats, labels, p, v), floor);
  }

  lemma PairHasHits(stats: seq<Stats>, labels: Labels, floor: real, t: real, u: real)
    requires floor > 0.0 && PairMeetsFloor(stats, labels, floor, t, u)
    ensures PairHits(stats, labels, t, u, true) > 0
  {
    AtFloorExactlyWhen(PairHits(stats, labels, t, u, true), PairHits(stats, labels, t, u, false), floor);
  }

  lemma BackedPair(lurkers: seq<Stats>, others: seq<Stats>, labels: Labels, floor: real, a: Option<Best>, b: Option<Best>, t: real, u: real)
    requires Extension(lurkers, others, labels) && Outcome(lurkers + others, labels, floor, a, b)
    requires PairMeetsFloor(lurkers + others, labels, floor, t, u) && EachBacks(lurkers, floor, t, u)
    ensures PairHits(lurkers + others, labels, t, u, true) <= Reported(lurkers + others, labels, a, b, true)
  {
    var stats := lurkers + others;
    HitsAreReach(lurkers, others, labels, t, u);
    ReachOfPair(lurkers, t, u);
    PairHasHits(stats, labels, floor, t, u);
    ReportedHolds(stats, labels, a, b);
    if Reach(lurkers, Responder, t) == JointReach(lurkers, t, u) {
      OneOfPair(lurkers, others, labels, floor, Responder, t, t, u);
      KeptIsAhead(stats, labels, Responder, floor, a, InitRateGrid(), t);
    } else if Reach(lurkers, Visitor, u) == JointReach(lurkers, t, u) {
      OneOfPair(lurkers, others, labels, floor, Visitor, u, t, u);
      KeptIsAhead(stats, labels, Visitor, floor, b, DAILY_GRID, u);
    } else {
      OneOfPair(lurkers, others, labels, floor, Responder, t, t, u);
      OneOfPair(lurkers, others, labels, floor, Visitor, u, t, u);
      RecallOverEligiblePairs(stats, labels, floor, a, b, t, u);
    }
  }

  lemma BackedMostRecall(lurkers: seq<Stats>, others: seq<Stats>, labels: Labels, floor: real, a: Option<Best>, b: Option<Best>)
    requires AllProducible(lurkers) && Extension(lurkers, others, labels) && Outcome(lurkers + others, labels, floor, a, b)
    requires forall t, u :: GridPair(t, u) ==> EachBacks(lurkers, floor, t, u)
    ensures MostRecall(lurkers + others, labels, floor, a, b)
  {
    var stats := lurkers + others;
    forall t, u | PairMeetsFloor(stats, labels, floor, t, u)
      ensures PairHits(stats, labels, t, u, true) <= Reported(stats, labels, a, b, true)
    {
      GridRange(t);
      if t == 1.0 {
        LurkersInCohort(lurkers, others, labels);
        EverybodyMatches(stats, labels, Firing(Visitor, u), true);
        EverybodyMatches(stats, labels, Firing(Visitor, u), false);
        KeptIsAhead(stats, labels, Responder, floor, a, InitRateGrid(), t);
        ReportedHolds(stats, labels, a, b);
      } else {
        assert GridPair(t, u);
        BackedPair(lurkers, others, labels, floor, a, b, t, u);
      }
    }
  }

  // ----- The conditions are needed: others that leave a search no threshold above t and u -----

  // A reply to somebody, once: only the first pattern matches.
  const REPLIER := Stats(0, 1, 0.0, 1.0, 0.0, 0.0)
  // Two first posts ten days apart: the second pattern, and the first only where it matches everybody.
  const VISITOR := Stats(0, 2, 10.0, 0.2, 1.0, 0.0)

  lemma Round4Multiple(x: real, k: int)
    requires x * 10000.0 == k as real
    ensures Round4(x) == x
  {
  }

  lemma KindsCanOccur()
    ensures Producible(REPLIER) && Producible(VISITOR)
  {
    Round4Multiple(0.0, 0);
    Round4Multiple(0.2, 2000);
    Round4Multiple(1.0, 10000);
    Round4Multiple(10.0, 100000);
    assert FromMessages(REPLIER, 0, 0);
    assert FromMessages(VISITOR, 2, 864000);
  }

  // One step of the grid above t in twenty messages, all on one day: the first pattern just above t.
  function JustAboveA(t: real): Stats { Stats(0, 20, 0.0, 20.0, t + 0.05, 0.0) }

  // A tenth of a message a day above u, over ten days, all of them first posts.
  function JustAboveB(u: real, m: nat): Stats { Stats(0, m, 10.0, u + 0.1, 1.0, 0.0) }

  lemma JustAboveAOccurs(t: real)
    requires t in InitRateGrid() && t <= 0.95
    ensures Producible(JustAboveA(t))
  {
    var k := GridStep(t);
    assert k < 20;
    assert (k + 1) as real / 20.0 == t + 0.05;
    Round4Multiple(t + 0.05, 500 * (k + 1));
    Round4Multiple(20.0, 200000);
    Round4Multiple(0.0, 0);
    assert FromMessages(JustAboveA(t), k + 1, 0);
  }

  lemma TenDays(u: real) returns (m: nat)
    requires u in DAILY_GRID
    ensures m > 1 && m as real == 10.0 * u + 1.0
  {
    m := (10.0 * u + 1.0).Floor;
  }

  lemma JustAboveBOccurs(u: real, m: nat)
    requires m > 1 && m as real == 10.0 * u + 1.0
    ensures Producible(JustAboveB(u, m))
  {
    assert m as real / 10.0 == u + 0.1;
    Round4Multiple(u + 0.1, 1000 * m);
    Round4Multiple(1.0, 10000);
    Round4Multiple(10.0, 100000);
    assert m as real / m as real == 1.0;
    assert 864000.0 / 86400.0 == 10.0;
    assert FromMessages(JustAboveB(u, m), m, 864000);
  }

  // p repliers raise alarms of the first pattern, q visitors of the second, and k others just above each
  // of the two thresholds keep a search from going there.
  datatype Screen = Screen(lurkers: seq<Stats>, p: nat, q: nat, k: nat, t: real, u: real, m: nat)

  function GroupsOn(c: Screen): seq<Group> {
    [Group(c.p, REPLIER), Group(c.q, VISITOR), Group(c.k, JustAboveA(c.t)), Group(c.k, JustAboveB(c.u, c.m))]
  }

  function OthersOn(c: Screen): seq<Stats> { Others(c.lurkers, GroupsOn(c)) }
  function StatsOn(c: Screen): seq<Stats> { c.lurkers + OthersOn(c) }
  function LabelsOn(c: Screen): Labels { LabelsOf(c.lurkers, GroupsOn(c)) }

  predicate Built(c: Screen) {
    GridPair(c.t, c.u) && c.m > 1 && c.m as real == 10.0 * c.u + 1.0
  }

  lemma ScreenCanOccur(c: Screen)
    requires Built(c) && DistinctSenders(c.lurkers)
    ensures Extension(c.lurkers, OthersOn(c), LabelsOn(c))
  {
    GridRange(c.t);
    KindsCanOccur();
    JustAboveAOccurs(c.t);
    JustAboveBOccurs(c.u, c.m);
    GroupsExtend(c.lurkers, GroupsOn(c));
  }

  lemma AlarmsOn(c: Screen, f: Stats -> bool)
    requires IgnoresSender(f)
    ensures Hits(StatsOn(c), LabelsOn(c), f, false)
            == (if f(REPLIER) then c.p else 0) + (if f(VISITOR) then c.q else 0)
               + (if f(JustAboveA(c.t)) then c.k else 0) + (if f(JustAboveB(c.u, c.m)) then c.k else 0)
  {
    HitsInCohort(c.lurkers, GroupsOn(c), f);
    MatchedOfFour(Group(c.p, REPLIER), Group(c.q, VISITOR), Group(c.k, JustAboveA(c.t)), Group(c.k, JustAboveB(c.u, c.m)), f);
  }

  function GridOf(p: Pattern): seq<real> { if p == Responder then InitRateGrid() else DAILY_GRID }

  // The last threshold of a pattern below its screen, and its alarms up to there.
  function Edge(c: Screen, p: Pattern): real { if p == Responder then c.t else c.u }
  function Own(c: Screen, p: Pattern): nat { if p == Responder then c.p else c.q }

  lemma AlarmsOfResponder(c: Screen, v: real)
    requires Built(c) && v in InitRateGrid()
    ensures var fp := Fp(StatsOn(c), LabelsOn(c), Responder, v);
            if v <= c.t then fp == c.p else fp >= c.k
  {
    GridRange(v);
    GridRange(c.t);
    if v > c.t { GridGap(c.t, v); }
    PatternsIgnoreSender(Responder, v, Visitor, 0.0);
    AlarmsOn(c, Firing(Responder, v));
  }

  lemma AlarmsOfVisitor(c: Screen, v: real)
    requires Built(c) && v in DAILY_GRID
    ensures var fp := Fp(StatsOn(c), LabelsOn(c), Visitor, v);
            if v <= c.u then fp == c.q else fp >= c.k
  {
    DailyRange(v);
    if v > c.u { DailyGap(c.u, v); }
    PatternsIgnoreSender(Visitor, v, Visitor, 0.0);
    AlarmsOn(c, Firing(Visitor, v));
  }

  lemma AlarmsOfPair(c: Screen, t: real, u: real)
    requires Built(c) && t in InitRateGrid() && t <= c.t && u in DAILY_GRID && u <= c.u
    ensures PairHits(StatsOn(c), LabelsOn(c), t, u, false) == c.p + c.q
  {
    GridRange(t);
    GridRange(c.t);
    DailyRange(u);
    PatternsIgnoreSender(Responder, t, Visitor, u);
    AlarmsOn(c, Either(Firing(Responder, t), Firing(Visitor, u)));
  }

  lemma AlarmsOfEither(c: Screen, p: Pattern, v: real)
    requires Built(c) && p != Chatty && v in GridOf(p)
    ensures var fp := Fp(StatsOn(c), LabelsOn(c), p, v);
            if v <= Edge(c, p) then fp == Own(c, p) else fp >= c.k
  {
    if p == Responder { AlarmsOfResponder(c, v); } else { AlarmsOfVisitor(c, v); }
  }

  lemma HitsOn(c: Screen, p: Pattern, v: real)
    requires Built(c) && DistinctSenders(c.lurkers) && p != Chatty
    ensures Tp(StatsOn(c), LabelsOn(c), p, v) == Reach(c.lurkers, p, v)
  {
    ScreenCanOccur(c);
    HitsAreCounts(c.lurkers, OthersOn(c), LabelsOn(c), Firing(p, v));
  }

  // The screens are too many for any hits at the floor.
  predicate Dense(c: Screen, floor: real)
    requires floor > 0.0
  {
    c.k > Allowed(floor, |c.lurkers|)
  }

  /** On a screened cohort exactly the thresholds below the screen whose hits carry the pattern's own
      alarms are at the floor. */
  lemma ScreenedExactlyWhen(c: Screen, floor: real, p: Pattern, v: real)
    requires Built(c) && DistinctSenders(c.lurkers) && 0.0 < floor <= 1.0 && Dense(c, floor) && p != Chatty && v in GridOf(p)
    ensures MeetsFloor(StatsOn(c), LabelsOn(c), p, floor, v) <==>
            v <= Edge(c, p) && Reach(c.lurkers, p, v) > 0 && Own(c, p) <= Allowed(floor, Reach(c.lurkers, p, v))
  {
    HitsOn(c, p, v);
    AlarmsOfEither(c, p, v);
    AllowedMonotone(floor, Reach(c.lurkers, p, v), |c.lurkers|);
    AtFloorExactlyWhen(Tp(StatsOn(c), LabelsOn(c), p, v), Fp(StatsOn(c), LabelsOn(c), p, v), floor);
  }

  // A tighter threshold matches fewer lurkers.
  lemma ReachGrows(lurkers: seq<Stats>, p: Pattern, v: real, w: real)
    requires p != Chatty && v <= w
    ensures Reach(lurkers, p, v) <= Reach(lurkers, p, w)
  {
    CountMonotone(lurkers, Firing(p, v), Firing(p, w));
  }

  // A search whose edge is at the floor keeps a threshold that matches the same lurkers.
  lemma KeepsEdge(c: Screen, floor: real, p: Pattern, best: Option<Best>)
    requires Built(c) && DistinctSenders(c.lurkers) && 0.0 < floor <= 1.0 && Dense(c, floor) && p != Chatty
    requires Kept(best, StatsOn(c), LabelsOn(c), p, floor, GridOf(p))
    requires Reach(c.lurkers, p, Edge(c, p)) > 0 && Own(c, p) <= Allowed(floor, Reach(c.lurkers, p, Edge(c, p)))
    ensures best.Some? && best.value.t in GridOf(p) && best.value.t <= Edge(c, p)
    ensures Reach(c.lurkers, p, best.value.t) == Reach(c.lurkers, p, Edge(c, p))
  {
    ScreenedExactlyWhen(c, floor, p, Edge(c, p));
    KeptIsAhead(StatsOn(c), LabelsOn(c), p, floor, best, GridOf(p), Edge(c, p));
    var v := best.value.t;
    ScreenedExactlyWhen(c, floor, p, v);
    HitsOn(c, p, v);
    HitsOn(c, p, Edge(c, p));
    ReachGrows(c.lurkers, p, v, Edge(c, p));
  }

  // A search whose edge is under the floor keeps nothing, one at the floor no more than the edge.
  lemma KeepsAtMostEdge(c: Screen, floor: real, p: Pattern, best: Option<Best>)
    requires Built(c) && DistinctSenders(c.lurkers) && 0.0 < floor <= 1.0 && Dense(c, floor) && p != Chatty
    requires Kept(best, StatsOn(c), LabelsOn(c), p, floor, GridOf(p)) && best.Some?
    ensures Own(c, p) <= Allowed(floor, Reach(c.lurkers, p, Edge(c, p))) && best.value.tp <= Reach(c.lurkers, p, Edge(c, p))
  {
    var v := best.value.t;
    ScreenedExactlyWhen(c, floor, p, v);
    HitsOn(c, p, v);
    ReachGrows(c.lurkers, p, v, Edge(c, p));
    AllowedMonotone(floor, Reach(c.lurkers, p, v), Reach(c.lurkers, p, Edge(c, p)));
  }

  // Counting as many as a looser predicate means matching the same actors.
  lemma AsManyMatchSame(lurkers: seq<Stats>, f: Stats -> bool, loose: Stats -> bool, x: Stats)
    requires forall s :: s in lurkers && f(s) ==> loose(s)
    requires Count(lurkers, f) >= Count(lurkers, loose) && x in lurkers && loose(x)
    ensures f(x) && Count(lurkers, f) == Count(lurkers, loose)
  {
    CountMonotone(lurkers, f, loose);
    if !f(x) { CountStrict(lurkers, f, loose, x); }
  }

  // Thresholds that reach as many lurkers as the edges do reach the same ones together.
  lemma SameJointReach(lurkers: seq<Stats>, v: real, w: real, t: real, u: real)
    requires v <= t && w <= u
    requires Reach(lurkers, Responder, v) == Reach(lurkers, Responder, t) && Reach(lurkers, Visitor, w) == Reach(lurkers, Visitor, u)
    ensures JointReach(lurkers, v, w) == JointReach(lurkers, t, u)
  {
    var pair, edges := Either(Firing(Responder, v), Firing(Visitor, w)), Either(Firing(Responder, t), Firing(Visitor, u));
    CountMonotone(lurkers, pair, edges);
    forall s | s in lurkers && edges(s) ensures pair(s) {
      if Firing(Responder, t)(s) {
        AsManyMatchSame(lurkers, Firing(Responder, v), Firing(Responder, t), s);
      } else {
        AsManyMatchSame(lurkers, Firing(Visitor, w), Firing(Visitor, u), s);
      }
    }
    CountMonotone(lurkers, edges, pair);
  }

  // ----- The floor, at one floor -----

  /** Whatever other actors the cohort has, the joined recipe meets the floor. */
  ghost predicate AlwaysMeetsFloorAt(lurkers: seq<Stats>, floor: real) {
    forall others, labels, a, b ::
      Extension(lurkers, others, labels) && Outcome(lurkers + others, labels, floor, a, b) ==>
        JoinedMeetsFloor(lurkers + others, labels, floor, a, b)
  }

  // Each pattern is given all the alarms it may have.
  lemma FullMissesFloor(c: Screen, floor: real, a: Option<Best>, b: Option<Best>)
    requires Built(c) && DistinctSenders(c.lurkers) && 0.0 < floor <= 1.0 && Dense(c, floor)
    requires c.p == Allowed(floor, Reach(c.lurkers, Responder, c.t)) && c.q == Allowed(floor, Reach(c.lurkers, Visitor, c.u))
    requires Reach(c.lurkers, Responder, c.t) > 0 && Reach(c.lurkers, Visitor, c.u) > 0
    requires !AlarmsFit(c.lurkers, floor, c.t, c.u) && Outcome(StatsOn(c), LabelsOn(c), floor, a, b)
    ensures !JoinedMeetsFloor(StatsOn(c), LabelsOn(c), floor, a, b)
  {
    KeepsEdge(c, floor, Responder, a);
    KeepsEdge(c, floor, Visitor, b);
    var v, w := a.value.t, b.value.t;
    SameJointReach(c.lurkers, v, w, c.t, c.u);
    AlarmsOfPair(c, v, w);
    ScreenCanOccur(c);
    HitsAreReach(c.lurkers, OthersOn(c), LabelsOn(c), v, w);
    AtFloorExactlyWhen(PairHits(StatsOn(c), LabelsOn(c), v, w, true), PairHits(StatsOn(c), LabelsOn(c), v, w, false), floor);
  }

  lemma NoReachFits(lurkers: seq<Stats>, floor: real, t: real, u: real)
    requires floor > 0.0 && (floor > 1.0 || Reach(lurkers, Responder, t) == 0 || Reach(lurkers, Visitor, u) == 0)
    ensures AlarmsFit(lurkers, floor, t, u)
  {
    var a, b, pair := Reach(lurkers, Responder, t), Reach(lurkers, Visitor, u), JointReach(lurkers, t, u);
    ReachOfPair(lurkers, t, u);
    if floor > 1.0 { AllowedNone(floor, a); AllowedNone(floor, b); }
    AllowedMonotone(floor, a, pair);
    AllowedMonotone(floor, b, pair);
  }

  lemma UnfitMissesFloor(lurkers: seq<Stats>, floor: real, t: real, u: real)
    requires DistinctSenders(lurkers) && floor > 0.0 && GridPair(t, u) && !AlarmsFit(lurkers, floor, t, u)
    ensures !AlwaysMeetsFloorAt(lurkers, floor)
  {
    if floor > 1.0 || Reach(lurkers, Responder, t) == 0 || Reach(lurkers, Visitor, u) == 0 {
      NoReachFits(lurkers, floor, t, u);
    } else {
      var m := TenDays(u);
      var c := Screen(lurkers, Allowed(floor, Reach(lurkers, Responder, t)), Allowed(floor, Reach(lurkers, Visitor, u)),
                      Allowed(floor, |lurkers|) + 1, t, u, m);
      var a := SweepHasOutcome(StatsOn(c), LabelsOn(c), Responder, floor, InitRateGrid());
      var b := SweepHasOutcome(StatsOn(c), LabelsOn(c), Visitor, floor, DAILY_GRID);
      ScreenCanOccur(c);
      FullMissesFloor(c, floor, a, b);
      assert Extension(lurkers, OthersOn(c), LabelsOn(c)) && Outcome(lurkers + OthersOn(c), LabelsOn(c), floor, a, b);
    }
  }

  /** The floor, decided by how many lurkers the two patterns match: whatever cohort the lurkers are
      part of, the joined recipe meets this floor exactly when at every pair of grid thresholds the
      alarms that each pattern may have add up to no more than the pair may have. */
  lemma MeetsFloorAtExactlyWhen(lurkers: seq<Stats>, floor: real)
    requires AllProducible(lurkers) && DistinctSenders(lurkers) && floor > 0.0
    ensures AlwaysMeetsFloorAt(lurkers, floor) <==> forall t, u :: GridPair(t, u) ==> AlarmsFit(lurkers, floor, t, u)
  {
    if forall t, u :: GridPair(t, u) ==> AlarmsFit(lurkers, floor, t, u) {
      forall others, labels, a, b | Extension(lurkers, others, labels) && Outcome(lurkers + others, labels, floor, a, b)
        ensures JoinedMeetsFloor(lurkers + others, labels, floor, a, b)
      {
        FitMeetsFloor(lurkers, others, labels, floor, a, b);
      }
    } else {
      var t, u :| GridPair(t, u) && !AlarmsFit(lurkers, floor, t, u);
      UnfitMissesFloor(lurkers, floor, t, u);
    }
  }

  // ----- The recall, at one floor -----

  /** Whatever other actors the cohort has, no pair at the floor hits more than the search. */
  ghost predicate AlwaysMostRecallAt(lurkers: seq<Stats>, floor: real) {
    forall others, labels, a, b ::
      Extension(lurkers, others, labels) && Outcome(lurkers + others, labels, floor, a, b) ==>
        MostRecall(lurkers + others, labels, floor, a, b)
  }

  // One pattern has one alarm too many, so the search reports what the other matches at most.
  lemma ScreenedReport(c: Screen, floor: real, a: Option<Best>, b: Option<Best>)
    requires Built(c) && DistinctSenders(c.lurkers) && 0.0 < floor <= 1.0 && Dense(c, floor)
    requires Outcome(StatsOn(c), LabelsOn(c), floor, a, b)
    ensures c.p > Allowed(floor, Reach(c.lurkers, Responder, c.t)) ==>
              Reported(StatsOn(c), LabelsOn(c), a, b, true) <= Reach(c.lurkers, Visitor, c.u)
    ensures c.q > Allowed(floor, Reach(c.lurkers, Visitor, c.u)) ==>
              Reported(StatsOn(c), LabelsOn(c), a, b, true) <= Reach(c.lurkers, Responder, c.t)
  {
    if a.Some? { KeepsAtMostEdge(c, floor, Responder, a); }
    if b.Some? { KeepsAtMostEdge(c, floor, Visitor, b); }
  }

  lemma EdgesAtFloor(c: Screen, floor: real)
    requires Built(c) && DistinctSenders(c.lurkers) && 0.0 < floor <= 1.0
    requires c.p + c.q <= Allowed(floor, JointReach(c.lurkers, c.t, c.u)) && JointReach(c.lurkers, c.t, c.u) > 0
    ensures PairMeetsFloor(StatsOn(c), LabelsOn(c), floor, c.t, c.u)
    ensures PairHits(StatsOn(c), LabelsOn(c), c.t, c.u, true) == JointReach(c.lurkers, c.t, c.u)
  {
    AlarmsOfPair(c, c.t, c.u);
    ScreenCanOccur(c);
    HitsAreReach(c.lurkers, OthersOn(c), LabelsOn(c), c.t, c.u);
    AtFloorExactlyWhen(PairHits(StatsOn(c), LabelsOn(c), c.t, c.u, true), PairHits(StatsOn(c), LabelsOn(c), c.t, c.u, false), floor);
  }

  lemma ScreenMissesRecall(c: Screen, floor: real)
    requires Built(c) && DistinctSenders(c.lurkers) && 0.0 < floor <= 1.0 && Dense(c, floor)
    requires c.p + c.q <= Allowed(floor, JointReach(c.lurkers, c.t, c.u))
    requires || (c.p > Allowed(floor, Reach(c.lurkers, Responder, c.t)) && Reach(c.lurkers, Visitor, c.u) < JointReach(c.lurkers, c.t, c.u))
             || (c.q > Allowed(floor, Reach(c.lurkers, Visitor, c.u)) && Reach(c.lurkers, Responder, c.t) < JointReach(c.lurkers, c.t, c.u))
    ensures !AlwaysMostRecallAt(c.lurkers, floor)
  {
    var stats, labels := StatsOn(c), LabelsOn(c);
    var a := SweepHasOutcome(stats, labels, Responder, floor, InitRateGrid());
    var b := SweepHasOutcome(stats, labels, Visitor, floor, DAILY_GRID);
    ScreenCanOccur(c);
    ScreenedReport(c, floor, a, b);
    EdgesAtFloor(c, floor);
    assert !MostRecall(stats, labels, floor, a, b);
    assert Extension(c.lurkers, OthersOn(c), labels) && Outcome(c.lurkers + OthersOn(c), labels, floor, a, b);
  }

  lemma UnbackedMissesRecall(lurkers: seq<Stats>, floor: real, t: real, u: real)
    requires DistinctSenders(lurkers) && floor > 0.0 && GridPair(t, u) && !EachBacks(lurkers, floor, t, u)
    ensures !AlwaysMostRecallAt(lurkers, floor)
  {
    var a, b, pair := Reach(lurkers, Responder, t), Reach(lurkers, Visitor, u), JointReach(lurkers, t, u);
    ReachOfPair(lurkers, t, u);
    if floor > 1.0 {
      AllowedNone(floor, pair);
    } else {
      var k := Allowed(floor, |lurkers|) + 1;
      var m := TenDays(u);
      if Allowed(floor, a) < Allowed(floor, pair) && b < pair {
        ScreenMissesRecall(Screen(lurkers, Allowed(floor, a) + 1, 0, k, t, u, m), floor);
      } else {
        ScreenMissesRecall(Screen(lurkers, 0, Allowed(floor, b) + 1, k, t, u, m), floor);
      }
    }
  }

  /** The recall, decided by the same counts: whatever cohort the lurkers are part of, no pair at this
      floor hits more than the search exactly when at every pair of grid thresholds each pattern may
      have as many alarms as the pair, or the other alone matches as many lurkers as the pair. */
  lemma MostRecallAtExactlyWhen(lurkers: seq<Stats>, floor: real)
    requires AllProducible(lurkers) && DistinctSenders(lurkers) && floor > 0.0
    ensures AlwaysMostRecallAt(lurkers, floor) <==> forall t, u :: GridPair(t, u) ==> EachBacks(lurkers, floor, t, u)
  {
    if forall t, u :: GridPair(t, u) ==> EachBacks(lurkers, floor, t, u) {
      forall others, labels, a, b | Extension(lurkers, others, labels) && Outcome(lurkers + others, labels, floor, a, b)
        ensures MostRecall(lurkers + others, labels, floor, a, b)
      {
        BackedMostRecall(lurkers, others, labels, floor, a, b);
      }
    } else {
      var t, u :| GridPair(t, u) && !EachBacks(lurkers, floor, t, u);
      UnbackedMissesRecall(lurkers, floor, t, u);
    }
  }

  /** At the shipped floor of 0.70 the counts are sevenths: seven hits carry three alarms. */
  lemma ShippedFloorExactlyWhen(lurkers: seq<Stats>, floor: real)
    requires AllProducible(lurkers) && DistinctSenders(lurkers) && floor == 0.7
    ensures AlwaysMeetsFloorAt(lurkers, floor) <==>
            forall t, u :: GridPair(t, u) ==>
              3 * Reach(lurkers, Responder, t) / 7 + 3 * Reach(lurkers, Visitor, u) / 7 <= 3 * JointReach(lurkers, t, u) / 7
  {
    MeetsFloorAtExactlyWhen(lurkers, floor);
    forall t, u | GridPair(t, u)
      ensures AlarmsFit(lurkers, floor, t, u) <==>
              3 * Reach(lurkers, Responder, t) / 7 + 3 * Reach(lurkers, Visitor, u) / 7 <= 3 * JointReach(lurkers, t, u) / 7
    {
      AllowedAtShipped(floor, Reach(lurkers, Responder, t));
      AllowedAtShipped(floor, Reach(lurkers, Visitor, u));
      AllowedAtShipped(floor, JointReach(lurkers, t, u));
    }
  }

  // ----- All floors together -----

  ghost predicate AlwaysMeetsFloor(lurkers: seq<Stats>) {
    forall floor :: floor > 0.0 ==> AlwaysMeetsFloorAt(lurkers, floor)
  }

  ghost predicate AlwaysMostRecall(lurkers: seq<Stats>) {
    forall floor :: floor > 0.0 ==> AlwaysMostRecallAt(lurkers, floor)
  }

  lemma SharedIsBoth(s: Stats)
    ensures Shared(s) <==> Firing(Responder, 0.95)(s) && Firing(Visitor, 10.0)(s)
  {
  }

  lemma LoosestPair(t: real, u: real)
    requires t == 0.95 && u == 10.0
    ensures GridPair(t, u)
  {
    GridPoint(19);
    assert DAILY_GRID[10] == 10.0;
  }

  lemma SharedDoesNotFit(lurkers: seq<Stats>, x: Stats, t: real, u: real, floor: real)
    requires x in lurkers && Firing(Responder, t)(x) && Firing(Visitor, u)(x) && floor == 0.5
    ensures !AlarmsFit(lurkers, floor, t, u)
  {
    var f, g := Firing(Responder, t), Firing(Visitor, u);
    CountEither(lurkers, f, g);
    CountPositive(lurkers, Both(f, g), x);
    AllowedAtHalf(floor, Reach(lurkers, Responder, t));
    AllowedAtHalf(floor, Reach(lurkers, Visitor, u));
    AllowedAtHalf(floor, JointReach(lurkers, t, u));
  }

  /** Over all floors together the claim of the floor holds exactly when no lurker is within reach of
      both patterns. */
  lemma MeetsFloorExactlyWhen(lurkers: seq<Stats>)
    requires AllProducible(lurkers) && DistinctSenders(lurkers)
    ensures AlwaysMeetsFloor(lurkers) <==> forall s :: s in lurkers ==> !Shared(s)
  {
    if x :| x in lurkers && Shared(x) {
      var t, u, floor := 0.95, 10.0, 0.5;
      LoosestPair(t, u);
      SharedIsBoth(x);
      SharedDoesNotFit(lurkers, x, t, u, floor);
      UnfitMissesFloor(lurkers, floor, t, u);
    } else {
      forall floor, others, labels, a, b | Extension(lurkers, others, labels) && Outcome(lurkers + others, labels, floor, a, b)
        ensures JoinedMeetsFloor(lurkers + others, labels, floor, a, b)
      {
        LurkersInCohort(lurkers, others, labels);
        UnsharedMeetsFloor(lurkers + others, labels, floor, a, b);
      }
    }
  }

  ghost predicate Within(lurkers: seq<Stats>, f: Stats -> bool, g: Stats -> bool) {
    forall s :: s in lurkers && f(s) ==> g(s)
  }

  /** Below initiation rate 1, whatever the two thresholds, one pattern matches no lurker the other
      misses. */
  ghost predicate NestedReach(lurkers: seq<Stats>) {
    forall t, u :: GridPair(t, u) ==>
      Within(lurkers, Firing(Responder, t), Firing(Visitor, u)) || Within(lurkers, Firing(Visitor, u), Firing(Responder, t))
  }

  lemma WithinExactlyWhen(lurkers: seq<Stats>, t: real, u: real)
    ensures Within(lurkers, Firing(Visitor, u), Firing(Responder, t)) <==> Reach(lurkers, Responder, t) == JointReach(lurkers, t, u)
    ensures Within(lurkers, Firing(Responder, t), Firing(Visitor, u)) <==> Reach(lurkers, Visitor, u) == JointReach(lurkers, t, u)
  {
    ReachOfPair(lurkers, t, u);
    CoversExactlyWhen(lurkers, Firing(Responder, t), Firing(Visitor, u), Firing(Responder, t));
    CoversExactlyWhen(lurkers, Firing(Responder, t), Firing(Visitor, u), Firing(Visitor, u));
  }

  // One of two predicates counts as many as both together exactly when the other adds nothing.
  lemma CoversExactlyWhen(lurkers: seq<Stats>, f: Stats -> bool, g: Stats -> bool, one: Stats -> bool)
    requires one == f || one == g
    ensures Within(lurkers, Either(f, g), one) <==> Count(lurkers, one) == Count(lurkers, Either(f, g))
  {
    CountMonotone(lurkers, one, Either(f, g));
    if Within(lurkers, Either(f, g), one) {
      CountMonotone(lurkers, Either(f, g), one);
    } else {
      var x :| x in lurkers && Either(f, g)(x) && !one(x);
      CountStrict(lurkers, one, Either(f, g), x);
    }
  }

  lemma BacksAtHalf(lurkers: seq<Stats>, t: real, u: real, floor: real)
    requires floor == 0.5 && EachBacks(lurkers, floor, t, u)
    ensures Reach(lurkers, Responder, t) == JointReach(lurkers, t, u) || Reach(lurkers, Visitor, u) == JointReach(lurkers, t, u)
  {
    ReachOfPair(lurkers, t, u);
    AllowedAtHalf(floor, Reach(lurkers, Responder, t));
    AllowedAtHalf(floor, JointReach(lurkers, t, u));
  }

  /** Over all floors together the claim of most recall holds exactly when the reaches of the two
      patterns are nested among the lurkers. */
  lemma MostRecallExactlyWhen(lurkers: seq<Stats>)
    requires AllProducible(lurkers) && DistinctSenders(lurkers)
    ensures AlwaysMostRecall(lurkers) <==> NestedReach(lurkers)
  {
    forall t, u ensures
      Within(lurkers, Firing(Responder, t), Firing(Visitor, u)) || Within(lurkers, Firing(Visitor, u), Firing(Responder, t)) <==>
      Reach(lurkers, Responder, t) == JointReach(lurkers, t, u) || Reach(lurkers, Visitor, u) == JointReach(lurkers, t, u)
    {
      WithinExactlyWhen(lurkers, t, u);
    }
    if NestedReach(lurkers) {
      forall floor | floor > 0.0 ensures AlwaysMostRecallAt(lurkers, floor) { MostRecallAtExactlyWhen(lurkers, floor); }
    }
    if AlwaysMostRecall(lurkers) {
      var floor := 0.5;
      MostRecallAtExactlyWhen(lurkers, floor);
      forall t, u | GridPair(t, u)
        ensures Reach(lurkers, Responder, t) == JointReach(lurkers, t, u) || Reach(lurkers, Visitor, u) == JointReach(lurkers, t, u)
      {
        BacksAtHalf(lurkers, t, u, floor);
      }
    }
  }
}
