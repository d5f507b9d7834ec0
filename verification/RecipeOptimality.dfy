/** How good the chosen recipe thresholds are among all thresholds there could be. */
module RecipeOptimality {
  import opened Wrappers
  import opened Sorting
  import opened Recipes

  ghost predicate Beats(stats: seq<Stats>, labels: Labels, floor: real, t: real, tp: nat, fp: nat) {
    && MeetsFloor(stats, labels, Chatty, floor, t)
    && (Tp(stats, labels, Chatty, t) > tp || (Tp(stats, labels, Chatty, t) == tp && Fp(stats, labels, Chatty, t) < fp))
  }

  // No real threshold at or above the floor has more hits, or as many with fewer false alarms.
  ghost predicate OptimalOverReals(stats: seq<Stats>, labels: Labels, floor: real, tp: nat, fp: nat) {
    forall t: real :: !Beats(stats, labels, floor, t, tp, fp)
  }

  ghost predicate IsCandidate(stats: seq<Stats>, c: real) {
    exists s :: s in stats && s.msgCount as real == c
  }

  lemma LeastOf(s: set<int>) returns (m: int)
    requires s != {}
    ensures m in s && forall x :: x in s ==> m <= x
  {
    var first := SomeMember(s);
    var rest := s - {first};
    assert forall x :: x in s ==> x == first || x in rest;
    m := first;
    if rest != {} {
      var k := LeastOf(rest);
      if k < m { m := k; }
    }
  }

  // A threshold some actor reaches acts like the smallest message count that reaches it.
  lemma SnapToCandidate(stats: seq<Stats>, labels: Labels, t: real) returns (c: real)
    requires exists s :: s in stats && s.msgCount as real >= t
    ensures IsCandidate(stats, c)
    ensures Tp(stats, labels, Chatty, t) == Tp(stats, labels, Chatty, c) && Fp(stats, labels, Chatty, t) == Fp(stats, labels, Chatty, c)
  {
    var reaching := set s | s in stats && s.msgCount as real >= t :: s.msgCount;
    var s :| s in stats && s.msgCount as real >= t;
    assert s.msgCount in reaching;
    var least := LeastOf(reaching);
    c := least as real;
    forall s | s in stats ensures Firing(Chatty, t)(s) == Firing(Chatty, c)(s) {
      if s.msgCount as real >= t { assert s.msgCount in reaching; }
    }
    CellSame(stats, labels, Positive(Chatty), Firing(Chatty, t), Firing(Chatty, c), true, true);
    CellSame(stats, labels, Positive(Chatty), Firing(Chatty, t), Firing(Chatty, c), false, true);
  }

  lemma NobodyReaches(stats: seq<Stats>, labels: Labels, t: real)
    requires forall s :: s in stats ==> !(s.msgCount as real >= t)
    ensures Tp(stats, labels, Chatty, t) == 0 && Fp(stats, labels, Chatty, t) == 0
  {
    CellEmpty(stats, labels, Positive(Chatty), Firing(Chatty, t), true);
    CellEmpty(stats, labels, Positive(Chatty), Firing(Chatty, t), false);
  }

  // The counts a search with this outcome reports.
  function ReportedTp(best: Option<Best>): nat { if best.None? then 0 else best.value.tp }
  function ReportedFp(best: Option<Best>): nat { if best.None? then 0 else best.value.fp }

  // A threshold that somebody reaches never beats the sweep.
  lemma ReachedDoesNotBeat(stats: seq<Stats>, labels: Labels, floor: real, best: Option<Best>, candidates: seq<real>, t: real)
    requires forall c :: c in candidates <==> IsCandidate(stats, c)
    requires Kept(best, stats, labels, Chatty, floor, candidates)
    requires exists s :: s in stats && s.msgCount as real >= t
    ensures !Beats(stats, labels, floor, t, ReportedTp(best), ReportedFp(best))
  {
    var c := SnapToCandidate(stats, labels, t);
    assert c in candidates;
  }

  /** For a positive floor the search over message counts is optimal over all real thresholds. */
  lemma ChattyIsOptimal(stats: seq<Stats>, labels: Labels, floor: real, best: Option<Best>, candidates: seq<real>)
    requires forall c :: c in candidates <==> IsCandidate(stats, c)
    requires Kept(best, stats, labels, Chatty, floor, candidates) && floor > 0.0
    ensures OptimalOverReals(stats, labels, floor, ReportedTp(best), ReportedFp(best))
  {
    forall t: real ensures !Beats(stats, labels, floor, t, ReportedTp(best), ReportedFp(best)) {
      if exists s :: s in stats && s.msgCount as real >= t {
        ReachedDoesNotBeat(stats, labels, floor, best, candidates, t);
      } else {
        NobodyReaches(stats, labels, t);
      }
    }
  }

  ghost predicate SomebodyChatty(stats: seq<Stats>, labels: Labels) {
    exists s :: s in stats && s.sender in labels && labels[s.sender] == Positive(Chatty)
  }

  ghost predicate IsBusiest(stats: seq<Stats>, s: Stats) {
    s in stats && forall o :: o in stats ==> o.msgCount <= s.msgCount
  }

  ghost predicate BusiestLabelled(stats: seq<Stats>, labels: Labels) {
    exists s :: IsBusiest(stats, s) && s.sender in labels
  }

  lemma {:induction false} CellCounts(stats: seq<Stats>, labels: Labels, positive: string, f: Stats -> bool, isPos: bool, s: Stats)
    requires s in stats && s.sender in labels && (labels[s.sender] == positive) == isPos && f(s)
    ensures Cell(stats, labels, positive, f, isPos, true) >= 1
  {
    var n := |stats| - 1;
    if s != stats[n] {
      assert s in stats[..n];
      CellCounts(stats[..n], labels, positive, f, isPos, s);
    }
  }

  lemma {:induction false} CellNone(stats: seq<Stats>, labels: Labels, positive: string, f: Stats -> bool, isPos: bool)
    requires forall s :: s in stats && s.sender in labels && f(s) ==> (labels[s.sender] == positive) != isPos
    ensures Cell(stats, labels, positive, f, isPos, true) == 0
  {
    if stats != [] {
      assert stats[|stats| - 1] in stats;
      CellNone(stats[..|stats| - 1], labels, positive, f, isPos);
    }
  }

  // With a floor of zero or less, thresholds nobody reaches are eligible with no hits and no alarms.
  lemma UnreachedThreshold(stats: seq<Stats>, labels: Labels, floor: real, s: Stats, tp: nat, fp: nat)
    requires IsBusiest(stats, s) && floor <= 0.0 && tp == 0 && fp > 0
    ensures Beats(stats, labels, floor, s.msgCount as real + 1.0, tp, fp)
  {
    NobodyReaches(stats, labels, s.msgCount as real + 1.0);
  }

  lemma FloorIsMet(stats: seq<Stats>, labels: Labels, floor: real, t: real)
    requires floor <= 0.0
    ensures MeetsFloor(stats, labels, Chatty, floor, t)
  {
    var tp, fp := Tp(stats, labels, Chatty, t), Fp(stats, labels, Chatty, t);
    if tp + fp > 0 { assert tp as real / (tp + fp) as real >= 0.0; }
  }

  lemma OnlyFalseAlarms(stats: seq<Stats>, labels: Labels, floor: real, best: Option<Best>, candidates: seq<real>)
    requires forall c :: c in candidates <==> IsCandidate(stats, c)
    requires Kept(best, stats, labels, Chatty, floor, candidates) && floor <= 0.0
    requires !SomebodyChatty(stats, labels) && BusiestLabelled(stats, labels)
    ensures !OptimalOverReals(stats, labels, floor, ReportedTp(best), ReportedFp(best))
  {
    var s :| IsBusiest(stats, s) && s.sender in labels;
    assert IsCandidate(stats, s.msgCount as real);
    FloorIsMet(stats, labels, floor, s.msgCount as real);
    assert best.Some?;
    var t := best.value.t;
    CellNone(stats, labels, Positive(Chatty), Firing(Chatty, t), true);
    assert IsCandidate(stats, best.value.t);
    CellCounts(stats, labels, Positive(Chatty), Firing(Chatty, t), false, s);
    UnreachedThreshold(stats, labels, floor, s, ReportedTp(best), ReportedFp(best));
  }

  lemma TiesBusiest(stats: seq<Stats>, s: Stats, o: Stats)
    requires IsBusiest(stats, s) && o in stats && o.msgCount >= s.msgCount
    ensures IsBusiest(stats, o)
  {
  }

  lemma KeptIsCandidate(stats: seq<Stats>, labels: Labels, floor: real, best: Option<Best>, candidates: seq<real>)
    requires forall c :: c in candidates <==> IsCandidate(stats, c)
    requires Kept(best, stats, labels, Chatty, floor, candidates) && best.Some?
    ensures IsCandidate(stats, best.value.t)
  {
    assert best.value.t in candidates;
  }

  lemma NothingLost(stats: seq<Stats>, labels: Labels, floor: real, best: Option<Best>, candidates: seq<real>, t: real)
    requires forall c :: c in candidates <==> IsCandidate(stats, c)
    requires Kept(best, stats, labels, Chatty, floor, candidates) && floor <= 0.0
    requires SomebodyChatty(stats, labels) || !BusiestLabelled(stats, labels)
    requires forall s :: s in stats ==> !(s.msgCount as real >= t)
    ensures !Beats(stats, labels, floor, t, ReportedTp(best), ReportedFp(best))
  {
    NobodyReaches(stats, labels, t);
    if SomebodyChatty(stats, labels) {
      var s :| s in stats && s.sender in labels && labels[s.sender] == Positive(Chatty);
      assert IsCandidate(stats, s.msgCount as real);
      FloorIsMet(stats, labels, floor, s.msgCount as real);
      CellCounts(stats, labels, Positive(Chatty), Firing(Chatty, s.msgCount as real), true, s);
    } else if stats != [] {
      var s := BusiestActor(stats);
      assert IsCandidate(stats, s.msgCount as real);
      var c := s.msgCount as real;
      FloorIsMet(stats, labels, floor, c);
      forall o | o in stats && o.sender in labels ensures !Firing(Chatty, c)(o) {
        if o.msgCount as real >= c { TiesBusiest(stats, s, o); }
      }
      CellNone(stats, labels, Positive(Chatty), Firing(Chatty, c), true);
      CellNone(stats, labels, Positive(Chatty), Firing(Chatty, c), false);
    } else {
      if best.Some? { KeptIsCandidate(stats, labels, floor, best, candidates); }
    }
  }

  lemma {:induction false} BusiestActor(stats: seq<Stats>) returns (s: Stats)
    requires stats != []
    ensures IsBusiest(stats, s)
  {
    var n := |stats| - 1;
    s := stats[n];
    if n > 0 {
      var k := BusiestActor(stats[..n]);
      assert forall o :: o in stats ==> o in stats[..n] || o == stats[n];
      if k.msgCount > s.msgCount { s := k; }
    }
  }

  /** For any floor at all: the search misses a better threshold exactly when the floor is not
      positive, no actor in the cohort is labelled chatty, and a busiest actor is labelled. */
  lemma ChattyOptimalExactlyWhen(stats: seq<Stats>, labels: Labels, floor: real, best: Option<Best>, candidates: seq<real>)
    requires forall c :: c in candidates <==> IsCandidate(stats, c)
    requires Kept(best, stats, labels, Chatty, floor, candidates)
    ensures OptimalOverReals(stats, labels, floor, ReportedTp(best), ReportedFp(best)) <==>
            floor > 0.0 || SomebodyChatty(stats, labels) || !BusiestLabelled(stats, labels)
  {
    if floor > 0.0 {
      ChattyIsOptimal(stats, labels, floor, best, candidates);
    } else if !SomebodyChatty(stats, labels) && BusiestLabelled(stats, labels) {
      OnlyFalseAlarms(stats, labels, floor, best, candidates);
    } else {
      forall t: real ensures !Beats(stats, labels, floor, t, ReportedTp(best), ReportedFp(best)) {
        if exists s :: s in stats && s.msgCount as real >= t {
          ReachedDoesNotBeat(stats, labels, floor, best, candidates, t);
        } else {
          NothingLost(stats, labels, floor, best, candidates, t);
        }
      }
    }
  }

  const LONE := Stats(0, 1, 0.0, 1.0, 1.0, 0.0)
  const LONE_LABELS: Labels := map[0 := "normal"]

  /** One labelled actor that is not chatty, floor 0: the sweep keeps its count with one false alarm,
      although two messages, which nobody sent, would raise none. */
  lemma ZeroFloorMissesBetter(best: Option<Best>)
    requires Kept(best, [LONE], LONE_LABELS, Chatty, 0.0, [1.0])
    ensures best == Some(Best(1.0, 0, 1)) && Beats([LONE], LONE_LABELS, 0.0, 2.0, 0, 1)
    ensures !OptimalOverReals([LONE], LONE_LABELS, 0.0, ReportedTp(best), ReportedFp(best))
  {
    CellOfMore([], LONE, LONE_LABELS, Positive(Chatty), Firing(Chatty, 1.0), true, true);
    CellOfMore([], LONE, LONE_LABELS, Positive(Chatty), Firing(Chatty, 1.0), false, true);
    assert [] + [LONE] == [LONE];
    assert 1.0 in [1.0] && Tp([LONE], LONE_LABELS, Chatty, 1.0) == 0 && Fp([LONE], LONE_LABELS, Chatty, 1.0) == 1;
    FloorIsMet([LONE], LONE_LABELS, 0.0, 1.0);
    NobodyReaches([LONE], LONE_LABELS, 2.0);
    FloorIsMet([LONE], LONE_LABELS, 0.0, 2.0);
    assert best.Some?;
    assert best.value.t == 1.0;
    assert best.value == Best(1.0, 0, 1);
    assert Beats([LONE], LONE_LABELS, 0.0, 2.0, 0, 1);
  }

  // Every smaller message count at the floor has worse counts.
  ghost predicate SmallestOfTies(stats: seq<Stats>, labels: Labels, floor: real, b: Best) {
    forall t :: IsCandidate(stats, t) && t < b.t && MeetsFloor(stats, labels, Chatty, floor, t) ==> Improves(b, stats, labels, Chatty, t)
  }

  lemma FirstIsSmallest(stats: seq<Stats>, labels: Labels, floor: real, b: Best, candidates: seq<real>)
    requires forall c :: c in candidates <==> IsCandidate(stats, c)
    requires forall i, j :: 0 <= i < j < |candidates| ==> candidates[i] < candidates[j]
    requires KeptFirst(Some(b), stats, labels, Chatty, floor, candidates)
    ensures SmallestOfTies(stats, labels, floor, b)
  {
    var i :| FirstAt(b, i, stats, labels, Chatty, floor, candidates);
    forall t | IsCandidate(stats, t) && t < b.t && MeetsFloor(stats, labels, Chatty, floor, t)
      ensures Improves(b, stats, labels, Chatty, t)
    {
      assert t in candidates;
      var k :| 0 <= k < |candidates| && candidates[k] == t;
      assert k < i;
    }
  }

  /** search_chatty_member: the reported counts are those of the chosen threshold, the smallest of
      those that tie; they cover every labelled actor, and no real threshold does better except in the case named. */
  method SearchChattyMember(stats: seq<Stats>, labels: Labels, floor: real) returns (rc: Calibrated)
    ensures rc.positive == "chatty_member" && rc.tp + rc.fp + rc.tn + rc.fn == Labelled(stats, labels)
    ensures RatiosFit(rc) && rc.tp + rc.fn == Positives(stats, labels, rc.positive)
    ensures rc.groups == [] ==> rc.tp == 0 && rc.fp == 0
    ensures rc.groups != [] ==> exists c: real ::
              rc.groups == [GroupOf(Chatty, c)] && IsCandidate(stats, c)
              && MeetsFloor(stats, labels, Chatty, floor, c)
              && rc.tp == Tp(stats, labels, Chatty, c) && rc.fp == Fp(stats, labels, Chatty, c)
              && SmallestOfTies(stats, labels, floor, Best(c, rc.tp, rc.fp))
    ensures OptimalOverReals(stats, labels, floor, rc.tp, rc.fp) <==>
            floor > 0.0 || SomebodyChatty(stats, labels) || !BusiestLabelled(stats, labels)
  {
    var candidates := DistinctCounts(stats);
    var best := Sweep(stats, labels, Chatty, floor, candidates);
    rc := PopulateMetrics(stats, labels, Positive(Chatty), GroupsOf(Chatty, best));
    ReportedCounts(stats, labels, Chatty, best, true);
    ReportedCounts(stats, labels, Chatty, best, false);
    ChattyOptimalExactlyWhen(stats, labels, floor, best, candidates);
    if best.Some? {
      assert best.value.t in candidates;
      FirstIsSmallest(stats, labels, floor, best.value, candidates);
    }
  }
}
