/** Cohorts at the shipped floor of 0.70 that break both halves of the claim. */
module LurkerCohorts {
  import opened Wrappers
  import opened Ratios
  import opened Recipes
  import opened LurkerRecipe
  import opened Cohorts
  import opened LurkerClaims
  import opened LurkerFloors

  // One first post: the first pattern where it matches everybody, and nothing else.
  const NEWCOMER := Stats(0, 1, 0.0, 1.0, 1.0, 0.0)

  lemma NewcomerCanOccur()
    ensures Producible(NEWCOMER)
  {
    Round4Multiple(0.0, 0);
    Round4Multiple(1.0, 10000);
    assert FromMessages(NEWCOMER, 1, 0);
  }

  function Trio(repliers: nat, visitors: nat, newcomers: nat): seq<Group> {
    [Group(repliers, REPLIER), Group(visitors, VISITOR), Group(newcomers, NEWCOMER)]
  }

  function TrioStats(lurkers: seq<Stats>, p: nat, q: nat, r: nat): seq<Stats> { lurkers + Others(lurkers, Trio(p, q, r)) }
  function TrioLabels(lurkers: seq<Stats>, p: nat, q: nat, r: nat): Labels { LabelsOf(lurkers, Trio(p, q, r)) }

  lemma TrioCounts(lurkers: seq<Stats>, p: nat, q: nat, r: nat, f: Stats -> bool)
    requires IgnoresSender(f)
    ensures var stats, labels := TrioStats(lurkers, p, q, r), TrioLabels(lurkers, p, q, r);
            && Hits(stats, labels, f, true) == Count(lurkers, f)
            && Hits(stats, labels, f, false)
               == (if f(REPLIER) then p else 0) + (if f(VISITOR) then q else 0) + (if f(NEWCOMER) then r else 0)
  {
    HitsInCohort(lurkers, Trio(p, q, r), f);
    MatchedOfThree(Group(p, REPLIER), Group(q, VISITOR), Group(r, NEWCOMER), f);
  }

  // Repliers are alarms of the first pattern, visitors of the second, and at initiation rate 1
  // everybody is one of the first.
  lemma TrioA(lurkers: seq<Stats>, p: nat, q: nat, r: nat, t: real)
    requires t in InitRateGrid()
    ensures var stats, labels := TrioStats(lurkers, p, q, r), TrioLabels(lurkers, p, q, r);
            && Tp(stats, labels, Responder, t) == Count(lurkers, Firing(Responder, t))
            && Fp(stats, labels, Responder, t) == p + if t == 1.0 then q + r else 0
  {
    GridRange(t);
    PatternsIgnoreSender(Responder, t, Visitor, 0.0);
    TrioCounts(lurkers, p, q, r, Firing(Responder, t));
  }

  lemma TrioB(lurkers: seq<Stats>, p: nat, q: nat, r: nat, u: real)
    requires u in DAILY_GRID
    ensures var stats, labels := TrioStats(lurkers, p, q, r), TrioLabels(lurkers, p, q, r);
            && Tp(stats, labels, Visitor, u) == Count(lurkers, Firing(Visitor, u))
            && Fp(stats, labels, Visitor, u) == q
  {
    DailyRange(u);
    PatternsIgnoreSender(Visitor, u, Visitor, 0.0);
    TrioCounts(lurkers, p, q, r, Firing(Visitor, u));
  }

  lemma TrioPair(lurkers: seq<Stats>, p: nat, q: nat, r: nat, t: real, u: real)
    requires t in InitRateGrid() && t <= 0.95 && u in DAILY_GRID
    ensures var stats, labels := TrioStats(lurkers, p, q, r), TrioLabels(lurkers, p, q, r);
            && PairHits(stats, labels, t, u, true) == Count(lurkers, Either(Firing(Responder, t), Firing(Visitor, u)))
            && PairHits(stats, labels, t, u, false) == p + q
  {
    GridRange(t);
    DailyRange(u);
    PatternsIgnoreSender(Responder, t, Visitor, u);
    TrioCounts(lurkers, p, q, r, Either(Firing(Responder, t), Firing(Visitor, u)));
  }

  lemma LoosestDaily()
    ensures 10.0 in DAILY_GRID
  {
    assert DAILY_GRID[10] == 10.0;
  }

  lemma {:induction false} CountOfCopies(first: int, n: nat, kind: Stats, f: Stats -> bool)
    requires IgnoresSender(f)
    ensures Count(Copies(first, n, kind), f) == if f(kind) then n else 0
  {
    if n > 0 {
      CountOfCopies(first, n - 1, kind, f);
      assert f(kind.(sender := first + n - 1)) == f(kind);
    }
  }

  lemma {:induction false} CountOfBoth(s: seq<Stats>, t: seq<Stats>, f: Stats -> bool)
    ensures Count(s + t, f) == Count(s, f) + Count(t, f)
  {
    if t == [] {
      assert s + t == s;
    } else {
      CountOfBoth(s, t[..|t| - 1], f);
      assert (s + t)[..|s + t| - 1] == s + t[..|t| - 1];
    }
  }

  lemma SeventyPrecision(tp: nat, fp: nat)
    ensures Precision(tp, fp) >= 0.7 <==> tp + fp > 0 && 3 * tp >= 7 * fp
  {
    SlackIsPrecision(tp, fp, 0.7);
  }

  // A lurker both patterns match: two replies ten days apart.
  const BOTH_WAYS := Stats(0, 2, 10.0, 0.2, 0.0, 0.0)

  function SevenLurkers(): seq<Stats> { Copies(0, 7, BOTH_WAYS) }

  lemma SevenCount(t: real, u: real)
    requires t >= 0.05 && u >= 0.5
    ensures Count(SevenLurkers(), Firing(Responder, t)) == Count(SevenLurkers(), Firing(Visitor, u)) == 7
    ensures Count(SevenLurkers(), Either(Firing(Responder, t), Firing(Visitor, u))) == 7
  {
    PatternsIgnoreSender(Responder, t, Visitor, u);
    PatternsIgnoreSender(Visitor, u, Visitor, u);
    CountOfCopies(0, 7, BOTH_WAYS, Firing(Responder, t));
    CountOfCopies(0, 7, BOTH_WAYS, Firing(Visitor, u));
    CountOfCopies(0, 7, BOTH_WAYS, Either(Firing(Responder, t), Firing(Visitor, u)));
  }

  lemma SevenCanOccur()
    ensures AllProducible(SevenLurkers())
    ensures Extension(SevenLurkers(), Others(SevenLurkers(), Trio(3, 3, 0)), TrioLabels(SevenLurkers(), 3, 3, 0))
  {
    Round4Multiple(0.0, 0);
    Round4Multiple(0.2, 2000);
    Round4Multiple(10.0, 100000);
    assert FromMessages(BOTH_WAYS, 0, 864000);
    forall s | s in SevenLurkers() ensures Producible(s) {
      ProducibleAnySender(BOTH_WAYS, s.sender);
    }
    KindsCanOccur();
    NewcomerCanOccur();
    GroupsExtend(SevenLurkers(), Trio(3, 3, 0));
  }

  lemma EligibleA(lurkers: seq<Stats>, p: nat, q: nat, r: nat, t: real)
    requires t in InitRateGrid() && Count(lurkers, Firing(Responder, t)) == 7 && p == 3 && q == 3 && r == 0
    ensures var stats, labels := TrioStats(lurkers, p, q, r), TrioLabels(lurkers, p, q, r);
            && Tp(stats, labels, Responder, t) == 7 && (t <= 0.95 ==> Fp(stats, labels, Responder, t) == 3)
            && (MeetsFloor(stats, labels, Responder, 0.7, t) <==> t <= 0.95)
  {
    GridRange(t);
    TrioA(lurkers, p, q, r, t);
    SeventyPrecision(7, 3);
    SeventyPrecision(7, 6);
  }

  lemma EligibleB(lurkers: seq<Stats>, p: nat, q: nat, r: nat, u: real)
    requires u in DAILY_GRID && Count(lurkers, Firing(Visitor, u)) == 7 && p == 3 && q == 3 && r == 0
    ensures var stats, labels := TrioStats(lurkers, p, q, r), TrioLabels(lurkers, p, q, r);
            && Tp(stats, labels, Visitor, u) == 7 && Fp(stats, labels, Visitor, u) == 3
            && MeetsFloor(stats, labels, Visitor, 0.7, u)
  {
    TrioB(lurkers, p, q, r, u);
    SeventyPrecision(7, 3);
  }

  lemma SevenA(lurkers: seq<Stats>, p: nat, q: nat, r: nat, a: Option<Best>)
    requires lurkers == SevenLurkers() && p == 3 && q == 3 && r == 0
    requires Kept(a, TrioStats(lurkers, p, q, r), TrioLabels(lurkers, p, q, r), Responder, 0.7, InitRateGrid())
    ensures a.Some? && a.value.t in InitRateGrid() && a.value.t <= 0.95 && a.value.tp == 7 && a.value.fp == 3
  {
    GridPoint(19);
    SevenCount(0.95, 0.5);
    EligibleA(lurkers, p, q, r, 0.95);
    KeptIsAhead(TrioStats(lurkers, p, q, r), TrioLabels(lurkers, p, q, r), Responder, 0.7, a, InitRateGrid(), 0.95);
    GridRange(a.value.t);
    SevenCount(a.value.t, 0.5);
    EligibleA(lurkers, p, q, r, a.value.t);
  }

  lemma SevenB(lurkers: seq<Stats>, p: nat, q: nat, r: nat, b: Option<Best>)
    requires lurkers == SevenLurkers() && p == 3 && q == 3 && r == 0
    requires Kept(b, TrioStats(lurkers, p, q, r), TrioLabels(lurkers, p, q, r), Visitor, 0.7, DAILY_GRID)
    ensures b.Some? && b.value.t in DAILY_GRID && b.value.tp == 7 && b.value.fp == 3
  {
    LoosestDaily();
    SevenCount(0.95, 10.0);
    EligibleB(lurkers, p, q, r, 10.0);
    KeptIsAhead(TrioStats(lurkers, p, q, r), TrioLabels(lurkers, p, q, r), Visitor, 0.7, b, DAILY_GRID, 10.0);
    DailyRange(b.value.t);
    SevenCount(0.95, b.value.t);
    EligibleB(lurkers, p, q, r, b.value.t);
  }

  /** Seven lurkers both patterns match, three repliers, three visitors, floor 0.70: each pattern keeps
      seven hits and three alarms, the joined recipe seven hits and six alarms. */
  lemma JoinedMissesShippedFloor(lurkers: seq<Stats>, p: nat, q: nat, r: nat, a: Option<Best>, b: Option<Best>)
    requires lurkers == SevenLurkers() && p == 3 && q == 3 && r == 0
    requires Outcome(TrioStats(lurkers, p, q, r), TrioLabels(lurkers, p, q, r), 0.7, a, b)
    ensures var stats, labels := TrioStats(lurkers, p, q, r), TrioLabels(lurkers, p, q, r);
            && a.Some? && b.Some? && a.value.tp == b.value.tp == 7 && a.value.fp == b.value.fp == 3
            && Reported(stats, labels, a, b, true) == 7 && Reported(stats, labels, a, b, false) == 6
            && !JoinedMeetsFloor(stats, labels, 0.7, a, b)
  {
    SevenA(lurkers, p, q, r, a);
    SevenB(lurkers, p, q, r, b);
    TrioPair(lurkers, p, q, r, a.value.t, b.value.t);
    GridRange(a.value.t);
    DailyRange(b.value.t);
    SevenCount(a.value.t, b.value.t);
    SeventyPrecision(7, 6);
  }

  function TenLurkers(): seq<Stats> { Copies(0, 3, REPLIER) + Copies(3, 7, VISITOR) }

  lemma TenCount(f: Stats -> bool)
    requires IgnoresSender(f)
    ensures Count(TenLurkers(), f) == (if f(REPLIER) then 3 else 0) + (if f(VISITOR) then 7 else 0)
  {
    CountOfBoth(Copies(0, 3, REPLIER), Copies(3, 7, VISITOR), f);
    CountOfCopies(0, 3, REPLIER, f);
    CountOfCopies(3, 7, VISITOR, f);
  }

  lemma TenCounts(t: real, u: real)
    requires t >= 0.05 && u >= 0.5
    ensures Count(TenLurkers(), Firing(Responder, t)) == if t < 1.0 then 3 else 10
    ensures Count(TenLurkers(), Firing(Visitor, u)) == 7
    ensures Count(TenLurkers(), Either(Firing(Responder, t), Firing(Visitor, u))) == 10
  {
    PatternsIgnoreSender(Responder, t, Visitor, u);
    PatternsIgnoreSender(Visitor, u, Visitor, u);
    TenCount(Firing(Responder, t));
    TenCount(Firing(Visitor, u));
    TenCount(Either(Firing(Responder, t), Firing(Visitor, u)));
  }

  lemma TenCanOccur()
    ensures AllProducible(TenLurkers())
    ensures Extension(TenLurkers(), Others(TenLurkers(), Trio(2, 0, 3)), TrioLabels(TenLurkers(), 2, 0, 3))
  {
    KindsCanOccur();
    NewcomerCanOccur();
    forall s | s in TenLurkers() ensures Producible(s) {
      ProducibleAnySender(REPLIER, s.sender);
      ProducibleAnySender(VISITOR, s.sender);
    }
    GroupsExtend(TenLurkers(), Trio(2, 0, 3));
  }

  lemma TenA(lurkers: seq<Stats>, p: nat, q: nat, r: nat, a: Option<Best>)
    requires lurkers == TenLurkers() && p == 2 && q == 0 && r == 3
    requires Kept(a, TrioStats(lurkers, p, q, r), TrioLabels(lurkers, p, q, r), Responder, 0.7, InitRateGrid())
    ensures a.None?
  {
    if a.Some? {
      var t := a.value.t;
      GridRange(t);
      TrioA(lurkers, p, q, r, t);
      TenCounts(t, 0.5);
      SeventyPrecision(a.value.tp, a.value.fp);
    }
  }

  lemma TenB(lurkers: seq<Stats>, p: nat, q: nat, r: nat, b: Option<Best>)
    requires lurkers == TenLurkers() && p == 2 && q == 0 && r == 3
    requires Kept(b, TrioStats(lurkers, p, q, r), TrioLabels(lurkers, p, q, r), Visitor, 0.7, DAILY_GRID)
    ensures b.Some? && b.value.tp == 7
  {
    LoosestDaily();
    TrioB(lurkers, p, q, r, 10.0);
    TenCounts(0.05, 10.0);
    SeventyPrecision(7, 0);
    KeptIsAhead(TrioStats(lurkers, p, q, r), TrioLabels(lurkers, p, q, r), Visitor, 0.7, b, DAILY_GRID, 10.0);
    DailyRange(b.value.t);
    TrioB(lurkers, p, q, r, b.value.t);
    TenCounts(0.05, b.value.t);
  }

  lemma TightestPair(t: real, u: real)
    requires t == 0.05 && u == 0.5
    ensures t in InitRateGrid() && u in DAILY_GRID
  {
    GridPoint(1);
    assert DAILY_GRID[0] == 0.5;
  }

  lemma TenPairHits(lurkers: seq<Stats>, p: nat, q: nat, r: nat, t: real, u: real)
    requires t in InitRateGrid() && t <= 0.95 && u in DAILY_GRID && p + q == 2
    requires Count(lurkers, Either(Firing(Responder, t), Firing(Visitor, u))) == 10
    ensures var stats, labels := TrioStats(lurkers, p, q, r), TrioLabels(lurkers, p, q, r);
            PairHits(stats, labels, t, u, true) == 10 && PairHits(stats, labels, t, u, false) == 2
  {
    TrioPair(lurkers, p, q, r, t, u);
  }

  lemma TenOverTwelve(stats: seq<Stats>, labels: Labels, t: real, u: real)
    requires t in InitRateGrid() && u in DAILY_GRID
    requires PairHits(stats, labels, t, u, true) == 10 && PairHits(stats, labels, t, u, false) == 2
    ensures PairMeetsFloor(stats, labels, 0.7, t, u)
  {
    SeventyPrecision(10, 2);
  }

  lemma TenPair(lurkers: seq<Stats>, p: nat, q: nat, r: nat, t: real, u: real)
    requires lurkers == TenLurkers() && p == 2 && q == 0 && r == 3 && t == 0.05 && u == 0.5
    ensures var stats, labels := TrioStats(lurkers, p, q, r), TrioLabels(lurkers, p, q, r);
            PairMeetsFloor(stats, labels, 0.7, t, u) && PairHits(stats, labels, t, u, true) == 10
  {
    TightestPair(t, u);
    TenCounts(t, u);
    TenPairHits(lurkers, p, q, r, t, u);
    TenOverTwelve(TrioStats(lurkers, p, q, r), TrioLabels(lurkers, p, q, r), t, u);
  }

  /** Three lurkers that reply, seven that visit, two repliers and three newcomers, floor 0.70: the
      search reports seven hits, while the tightest pair hits ten at precision 10/12. */
  lemma SearchMissesRecall(lurkers: seq<Stats>, p: nat, q: nat, r: nat, t: real, u: real, a: Option<Best>, b: Option<Best>)
    requires lurkers == TenLurkers() && p == 2 && q == 0 && r == 3 && t == 0.05 && u == 0.5
    requires Outcome(TrioStats(lurkers, p, q, r), TrioLabels(lurkers, p, q, r), 0.7, a, b)
    ensures var stats, labels := TrioStats(lurkers, p, q, r), TrioLabels(lurkers, p, q, r);
            && Reported(stats, labels, a, b, true) == 7
            && PairMeetsFloor(stats, labels, 0.7, t, u) && PairHits(stats, labels, t, u, true) == 10
  {
    TenA(lurkers, p, q, r, a);
    TenB(lurkers, p, q, r, b);
    TenPair(lurkers, p, q, r, t, u);
  }
}
