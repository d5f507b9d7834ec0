/** search_lurker_or_observer: two patterns searched apart and joined by OR
    (eyenet/calibration/recipes_grid.py), and what that does to precision. */
module LurkerRecipe {
  import opened Wrappers
  import opened Recipes
  import opened Ratios
  import opened Rounding

  const LURKER := Positive(Responder)

  function InitRateGrid(): seq<real> {
    seq(20, i requires 0 <= i < 20 => (i + 1) as real * 0.05)
  }

  const DAILY_GRID := [0.5, 1.0, 1.5, 2.0, 2.5, 3.0, 3.5, 4.0, 5.0, 7.0, 10.0]

  function Either(f: Stats -> bool, g: Stats -> bool): Stats -> bool {
    (s: Stats) => f(s) || g(s)
  }

  function Both(f: Stats -> bool, g: Stats -> bool): Stats -> bool {
    (s: Stats) => f(s) && g(s)
  }

  function Hits(stats: seq<Stats>, labels: Labels, f: Stats -> bool, isPos: bool): nat {
    Cell(stats, labels, LURKER, f, isPos, true)
  }

  // Inclusion and exclusion in one column of the confusion matrix.
  lemma {:induction false} HitsOfEither(stats: seq<Stats>, labels: Labels, f: Stats -> bool, g: Stats -> bool, isPos: bool)
    ensures Hits(stats, labels, Either(f, g), isPos) + Hits(stats, labels, Both(f, g), isPos)
            == Hits(stats, labels, f, isPos) + Hits(stats, labels, g, isPos)
    ensures Hits(stats, labels, Both(f, g), isPos) <= Hits(stats, labels, f, isPos)
    ensures Hits(stats, labels, Both(f, g), isPos) <= Hits(stats, labels, g, isPos)
  {
    if stats != [] { HitsOfEither(stats[..|stats| - 1], labels, f, g, isPos); }
  }

  // How far hits and alarms stay above the floor, in units of actors.
  function Slack(tp: nat, fp: nat, floor: real): real {
    tp as real - floor * (tp + fp) as real
  }

  lemma SlackIsPrecision(tp: nat, fp: nat, floor: real)
    requires floor > 0.0
    ensures Precision(tp, fp) >= floor <==> tp + fp > 0 && Slack(tp, fp, floor) >= 0.0
  {
    var n := (tp + fp) as real;
    if tp + fp > 0 {
      var q := tp as real / n;
      assert q * n == tp as real;
      if q >= floor { Scale(floor, q, n); }
      if q < floor { ScaleStrict(q, floor, n); }
    }
  }

  lemma Scale(a: real, b: real, n: real)
    requires a <= b && n >= 0.0
    ensures a * n <= b * n
  {
  }

  lemma ScaleStrict(a: real, b: real, n: real)
    requires a < b && n > 0.0
    ensures a * n < b * n
  {
  }

  lemma SumOfBounds(ta: real, fa: real, tb: real, fb: real, t: real, f: real, w: real, floor: real)
    requires w >= 0.0 && floor >= 0.0 && w * ta >= floor * fa && w * tb >= floor * fb
    requires ta <= t && tb <= t && f <= fa + fb
    ensures floor * f <= w * t + w * t
  {
    Scale(ta, t, w);
    Scale(tb, t, w);
    Scale(f, fa + fb, floor);
    assert w * ta == ta * w && w * tb == tb * w && w * t == t * w;
    assert (fa + fb) * floor == floor * fa + floor * fb && f * floor == floor * f;
  }

  // Alarms add up at most, hits do not shrink: the merged precision is at least floor / (2 - floor).
  lemma MergedCounts(ta: nat, fa: nat, tb: nat, fb: nat, t: nat, f: nat, floor: real)
    requires 0.0 < floor <= 1.0 && Slack(ta, fa, floor) >= 0.0 && Slack(tb, fb, floor) >= 0.0
    requires ta <= t && tb <= t && f <= fa + fb
    ensures SureOf(t, f, floor)
  {
    var w := 1.0 - floor;
    Expand(ta, fa, floor, w);
    Expand(tb, fb, floor, w);
    SumOfBounds(ta as real, fa as real, tb as real, fb as real, t as real, f as real, w, floor);
    Collect(t as real, f as real, w, floor);
  }

  // precision >= floor / (2 - floor), cross-multiplied
  predicate SureOf(tp: nat, fp: nat, floor: real) {
    tp as real * (2.0 - floor) >= floor * (tp + fp) as real
  }

  lemma Collect(t: real, f: real, w: real, floor: real)
    requires w == 1.0 - floor && floor * f <= w * t + w * t
    ensures t * (2.0 - floor) >= floor * (t + f)
  {
    assert floor * (t + f) == floor * t + floor * f;
    assert t * (2.0 - floor) == 2.0 * t - floor * t;
    assert w * t == t - floor * t;
  }

  lemma Expand(t: nat, f: nat, floor: real, w: real)
    requires w == 1.0 - floor
    ensures Slack(t, f, floor) == w * t as real - floor * f as real
  {
    assert floor * (t + f) as real == floor * t as real + floor * f as real;
    assert w * t as real == t as real - floor * t as real;
  }

  lemma SlackAdds(t: nat, f: nat, tb: nat, fb: nat, floor: real)
    ensures Slack(t + tb, f + fb, floor) == Slack(t, f, floor) + Slack(tb, fb, floor)
  {
    var x, y := (t + f) as real, (tb + fb) as real;
    assert floor * (x + y) == floor * x + floor * y;
  }

  // The patterns that survived their own sweep, at their thresholds.
  ghost predicate BothKept(a: Option<Best>, b: Option<Best>, stats: seq<Stats>, labels: Labels, floor: real) {
    && a.Some? && b.Some?
    && Kept(a, stats, labels, Responder, floor, InitRateGrid())
    && Kept(b, stats, labels, Visitor, floor, DAILY_GRID)
  }

  function Merged(a: Best, b: Best): Stats -> bool {
    Either(Firing(Responder, a.t), Firing(Visitor, b.t))
  }

  function Overlap(a: Best, b: Best): Stats -> bool {
    Both(Firing(Responder, a.t), Firing(Visitor, b.t))
  }

  lemma PrecisionIsShare(tp: nat, fp: nat)
    ensures 0.0 <= Precision(tp, fp) <= 1.0
  {
    if tp + fp > 0 {
      var q, n := Precision(tp, fp), (tp + fp) as real;
      assert q * n == tp as real;
      if q > 1.0 { ScaleStrict(1.0, q, n); }
      if q < 0.0 { ScaleStrict(q, 0.0, n); }
    }
  }

  /** Although each pattern alone meets the floor, the merged recipe is only sure of
      floor / (2 - floor). */
  lemma MergedPrecisionBound(a: Option<Best>, b: Option<Best>, stats: seq<Stats>, labels: Labels, floor: real)
    requires BothKept(a, b, stats, labels, floor) && floor > 0.0
    ensures var f := Merged(a.value, b.value);
            var tp, fp := Hits(stats, labels, f, true), Hits(stats, labels, f, false);
            && tp >= a.value.tp && tp >= b.value.tp
            && SureOf(tp, fp, floor)
  {
    var f, g := Firing(Responder, a.value.t), Firing(Visitor, b.value.t);
    HitsOfEither(stats, labels, f, g, true);
    HitsOfEither(stats, labels, f, g, false);
    PrecisionIsShare(a.value.tp, a.value.fp);
    SlackIsPrecision(a.value.tp, a.value.fp, floor);
    SlackIsPrecision(b.value.tp, b.value.fp, floor);
    MergedCounts(a.value.tp, a.value.fp, b.value.tp, b.value.fp,
                 Hits(stats, labels, Either(f, g), true), Hits(stats, labels, Either(f, g), false), floor);
  }

  // The accounting behind the exact conditions: the merged recipe meets the floor exactly when the
  // actors both patterns match use up no more slack than the two patterns have.
  lemma MergedFloorBySlack(a: Option<Best>, b: Option<Best>, stats: seq<Stats>, labels: Labels, floor: real)
    requires BothKept(a, b, stats, labels, floor) && floor > 0.0
    ensures var f, both := Merged(a.value, b.value), Overlap(a.value, b.value);
            Precision(Hits(stats, labels, f, true), Hits(stats, labels, f, false)) >= floor <==>
            Slack(Hits(stats, labels, both, true), Hits(stats, labels, both, false), floor)
              <= Slack(a.value.tp, a.value.fp, floor) + Slack(b.value.tp, b.value.fp, floor)
  {
    var f, g := Firing(Responder, a.value.t), Firing(Visitor, b.value.t);
    HitsOfEither(stats, labels, f, g, true);
    HitsOfEither(stats, labels, f, g, false);
    var t, n := Hits(stats, labels, Either(f, g), true), Hits(stats, labels, Either(f, g), false);
    var tb, nb := Hits(stats, labels, Both(f, g), true), Hits(stats, labels, Both(f, g), false);
    SlackIsPrecision(a.value.tp, a.value.fp, floor);
    SlackIsPrecision(t, n, floor);
    SlackAdds(t, n, tb, nb, floor);
    SlackAdds(a.value.tp, a.value.fp, b.value.tp, b.value.fp, floor);
  }

  // ----- The search -----

  lemma MergedGroups(a: Best, b: Best, s: Stats)
    ensures Matches(GroupsOf(Responder, Some(a)) + GroupsOf(Visitor, Some(b)), s) <==> Merged(a, b)(s)
  {
    var groups := GroupsOf(Responder, Some(a)) + GroupsOf(Visitor, Some(b));
    assert groups == [GroupOf(Responder, a.t), GroupOf(Visitor, b.t)];
    GroupIsPattern(Responder, a.t, s);
    GroupIsPattern(Visitor, b.t, s);
    assert groups[0] in groups && groups[1] in groups;
  }

  /** Whom the lurker recipe matches: actors that start little, or that write little over at least seven
      days; a pattern that did not survive matches nobody. */
  lemma LurkerMatches(a: Option<Best>, b: Option<Best>, s: Stats)
    ensures Matches(GroupsOf(Responder, a) + GroupsOf(Visitor, b), s) <==>
            || (a.Some? && s.initRate <= a.value.t)
            || (b.Some? && s.msgPerDay <= b.value.t && s.spanDays >= 7.0)
  {
    var groups := GroupsOf(Responder, a) + GroupsOf(Visitor, b);
    if a.Some? {
      GroupIsPattern(Responder, a.value.t, s);
      assert groups[0] == GroupOf(Responder, a.value.t) && groups[0] in groups;
    }
    if b.Some? {
      GroupIsPattern(Visitor, b.value.t, s);
      assert groups[|groups| - 1] == GroupOf(Visitor, b.value.t) && groups[|groups| - 1] in groups;
    }
    forall g | g in groups ensures (a.Some? && g == GroupOf(Responder, a.value.t)) || (b.Some? && g == GroupOf(Visitor, b.value.t)) {
      assert g in GroupsOf(Responder, a) || g in GroupsOf(Visitor, b);
    }
  }

  // What the recipe reports in one column, by which patterns survived.
  function Reported(stats: seq<Stats>, labels: Labels, a: Option<Best>, b: Option<Best>, isPos: bool): nat {
    if a.Some? && b.Some? then Hits(stats, labels, Merged(a.value, b.value), isPos)
    else if a.Some? then Hits(stats, labels, Firing(Responder, a.value.t), isPos)
    else if b.Some? then Hits(stats, labels, Firing(Visitor, b.value.t), isPos)
    else 0
  }

  lemma MatchingIsReported(stats: seq<Stats>, labels: Labels, a: Option<Best>, b: Option<Best>, isPos: bool)
    ensures Hits(stats, labels, Matching(GroupsOf(Responder, a) + GroupsOf(Visitor, b)), isPos)
            == Reported(stats, labels, a, b, isPos)
  {
    var groups := GroupsOf(Responder, a) + GroupsOf(Visitor, b);
    if a.Some? && b.Some? {
      forall s | s in stats ensures Matching(groups)(s) == Merged(a.value, b.value)(s) {
        MergedGroups(a.value, b.value, s);
      }
      CellSame(stats, labels, LURKER, Matching(groups), Merged(a.value, b.value), isPos, true);
    } else if a.Some? {
      assert groups == GroupsOf(Responder, a);
      ReportedCounts(stats, labels, Responder, a, isPos);
    } else {
      assert groups == GroupsOf(Visitor, b);
      ReportedCounts(stats, labels, Visitor, b, isPos);
    }
  }

  /** search_lurker_or_observer */
  method SearchLurkerOrObserver(stats: seq<Stats>, labels: Labels, floor: real)
    returns (rc: Calibrated, ghost a: Option<Best>, ghost b: Option<Best>)
    ensures Kept(a, stats, labels, Responder, floor, InitRateGrid())
    ensures Kept(b, stats, labels, Visitor, floor, DAILY_GRID)
    ensures KeptFirst(a, stats, labels, Responder, floor, InitRateGrid()) && KeptFirst(b, stats, labels, Visitor, floor, DAILY_GRID)
    ensures rc.positive == "lurker" && rc.tp + rc.fn == Positives(stats, labels, rc.positive)
    ensures rc.groups == GroupsOf(Responder, a) + GroupsOf(Visitor, b)
    ensures rc.tp == Reported(stats, labels, a, b, true) && rc.fp == Reported(stats, labels, a, b, false)
    ensures rc.tp + rc.fp + rc.tn + rc.fn == Labelled(stats, labels) && RatiosFit(rc)
  {
    var best := Sweep(stats, labels, Responder, floor, InitRateGrid());
    var other := Sweep(stats, labels, Visitor, floor, DAILY_GRID);
    rc := PopulateMetrics(stats, labels, LURKER, GroupsOf(Responder, best) + GroupsOf(Visitor, other));
    a, b := best, other;
    MatchingIsReported(stats, labels, a, b, true);
    MatchingIsReported(stats, labels, a, b, false);
  }

  lemma AloneBound(tp: nat, fp: nat, floor: real)
    requires floor > 0.0 && Precision(tp, fp) >= floor
    ensures SureOf(tp, fp, floor)
  {
    PrecisionIsShare(tp, fp);
    SlackIsPrecision(tp, fp, floor);
    MergedCounts(tp, fp, tp, fp, tp, fp, floor);
  }

  // A cross-multiplied bound, divided out.
  lemma SureOfShare(tp: nat, fp: nat, floor: real)
    requires 0.0 < floor <= 1.0 && tp + fp > 0 && SureOf(tp, fp, floor)
    ensures Precision(tp, fp) >= floor / (2.0 - floor)
  {
    var n, q, w := (tp + fp) as real, Precision(tp, fp), 2.0 - floor;
    var bound := floor / w;
    assert q * n == tp as real && bound * w == floor;
    assert bound * n * w == bound * w * n;
    if q < bound {
      ScaleStrict(q, bound, n);
      ScaleStrict(q * n, bound * n, w);
    }
  }

  // Counts that contain those of a pattern at the floor are not empty.
  lemma AtFloorCounts(tp: nat, fp: nat, floor: real)
    requires floor > 0.0 && Precision(tp, fp) >= floor
    ensures tp > 0 && floor <= 1.0
  {
    PrecisionIsShare(tp, fp);
  }

  /** What the search reports: nothing when no pattern survives; at least the floor when one does; at
      least floor / (2 - floor) when both do, and at least that bound's own rounding once rounded. */
  lemma ReportedBound(stats: seq<Stats>, labels: Labels, a: Option<Best>, b: Option<Best>, floor: real)
    requires floor > 0.0
    requires Kept(a, stats, labels, Responder, floor, InitRateGrid()) && Kept(b, stats, labels, Visitor, floor, DAILY_GRID)
    ensures var tp, fp := Reported(stats, labels, a, b, true), Reported(stats, labels, a, b, false);
            && (a.None? && b.None? ==> tp == 0 && fp == 0 && Precision(tp, fp) == 0.0)
            && (a.Some? != b.Some? ==> Precision(tp, fp) >= floor)
            && (a.Some? || b.Some? ==>
                  && floor <= 1.0 && Precision(tp, fp) >= floor / (2.0 - floor)
                  && Round4(Precision(tp, fp)) >= Round4(floor / (2.0 - floor)))
  {
    var tp, fp := Reported(stats, labels, a, b, true), Reported(stats, labels, a, b, false);
    if a.Some? || b.Some? {
      if a.Some? && b.Some? {
        MergedPrecisionBound(a, b, stats, labels, floor);
        AtFloorCounts(a.value.tp, a.value.fp, floor);
      } else {
        AloneBound(tp, fp, floor);
        AtFloorCounts(tp, fp, floor);
      }
      SureOfShare(tp, fp, floor);
      Round4Monotone(floor / (2.0 - floor), Precision(tp, fp));
    }
  }

  // The rounded number can be under the unrounded bound: one hit and two alarms at floor one half.
  lemma RoundedUnderBound()
    ensures Precision(1, 2) == 0.5 / (2.0 - 0.5) && Round4(Precision(1, 2)) < 0.5 / (2.0 - 0.5)
  {
    assert 0.3333 < 1.0 / 3.0 < 0.33335;
  }
}
