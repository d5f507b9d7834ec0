/** Recipe thresholds against operator labels (eyenet/calibration/recipes_grid.py). */
module Recipes {
  import opened Wrappers
  import opened Sorting
  import opened Ratios
  import opened Rounding

  // The fields of ActorStats that recipes read.
  datatype Stats = Stats(sender: int, msgCount: int, spanDays: real, msgPerDay: real, initRate: real, lengthCv: real)

  datatype Feature = MsgCount | SpanDays | MsgPerDay | InitRate | LengthCv

  datatype Op = Le | Ge | Lt | Gt

  function Value(s: Stats, f: Feature): real {
    match f
    case MsgCount => s.msgCount as real
    case SpanDays => s.spanDays
    case MsgPerDay => s.msgPerDay
    case InitRate => s.initRate
    case LengthCv => s.lengthCv
  }

  datatype AxisThreshold = AxisThreshold(feature: Feature, op: Op, value: real) {
    predicate Evaluate(s: Stats) {
      var v := Value(s, feature);
      match op
      case Le => v <= value
      case Ge => v >= value
      case Lt => v < value
      case Gt => v > value
    }
  }

  datatype AxisGroup = AxisGroup(axes: seq<AxisThreshold>) {
    predicate Evaluate(s: Stats) {
      forall a :: a in axes ==> a.Evaluate(s)
    }
  }

  // A recipe matches when any of its groups does.
  predicate Matches(groups: seq<AxisGroup>, s: Stats) {
    exists g :: g in groups && g.Evaluate(s)
  }

  datatype Calibrated = Calibrated(positive: string, groups: seq<AxisGroup>, tp: nat, fp: nat, tn: nat, fn: nat,
                                   precision: real, recall: real, f1: real)

  type Labels = map<int, string>

  // How many labelled actors fall in one cell of the confusion matrix.
  function Cell(stats: seq<Stats>, labels: Labels, positive: string, pred: Stats -> bool, isPos: bool, predicted: bool): nat {
    if stats == [] then 0 else
    var s := stats[|stats| - 1];
    Cell(stats[..|stats| - 1], labels, positive, pred, isPos, predicted)
    + if s.sender in labels && (labels[s.sender] == positive) == isPos && pred(s) == predicted then 1 else 0
  }

  function Labelled(stats: seq<Stats>, labels: Labels): nat {
    if stats == [] then 0 else
    Labelled(stats[..|stats| - 1], labels) + if stats[|stats| - 1].sender in labels then 1 else 0
  }

  // The actors a cell counts, by position.
  ghost function InCell(stats: seq<Stats>, labels: Labels, positive: string, pred: Stats -> bool, isPos: bool, predicted: bool): set<nat> {
    set i: nat | i < |stats| && stats[i].sender in labels && (labels[stats[i].sender] == positive) == isPos && pred(stats[i]) == predicted
  }

  lemma InCellMore(stats: seq<Stats>, labels: Labels, positive: string, pred: Stats -> bool, isPos: bool, predicted: bool)
    requires stats != []
    ensures var n := |stats| - 1;
            InCell(stats, labels, positive, pred, isPos, predicted)
            == InCell(stats[..n], labels, positive, pred, isPos, predicted)
               + if stats[n].sender in labels && (labels[stats[n].sender] == positive) == isPos && pred(stats[n]) == predicted then {n} else {}
  {
  }

  lemma SizeWithOne(s: set<nat>, n: nat, more: bool)
    requires n !in s
    ensures |s + if more then {n} else {}| == |s| + if more then 1 else 0
  {
  }

  lemma {:induction false} CellIsCount(stats: seq<Stats>, labels: Labels, positive: string, pred: Stats -> bool, isPos: bool, predicted: bool)
    ensures Cell(stats, labels, positive, pred, isPos, predicted) == |InCell(stats, labels, positive, pred, isPos, predicted)|
  {
    if stats != [] {
      var n := |stats| - 1;
      CellIsCount(stats[..n], labels, positive, pred, isPos, predicted);
      InCellMore(stats, labels, positive, pred, isPos, predicted);
      SizeWithOne(InCell(stats[..n], labels, positive, pred, isPos, predicted), n,
                  stats[n].sender in labels && (labels[stats[n].sender] == positive) == isPos && pred(stats[n]) == predicted);
    }
  }

  // How many actors carry the label.
  ghost function Positives(stats: seq<Stats>, labels: Labels, positive: string): nat {
    |set i: nat | i < |stats| && stats[i].sender in labels && labels[stats[i].sender] == positive|
  }

  /** Hits and misses together are the actors with the label. */
  lemma HitsAndMisses(stats: seq<Stats>, labels: Labels, positive: string, pred: Stats -> bool)
    ensures Cell(stats, labels, positive, pred, true, true) + Cell(stats, labels, positive, pred, true, false)
            == Positives(stats, labels, positive)
  {
    CellIsCount(stats, labels, positive, pred, true, true);
    CellIsCount(stats, labels, positive, pred, true, false);
    var hit, missed := InCell(stats, labels, positive, pred, true, true), InCell(stats, labels, positive, pred, true, false);
    assert hit !! missed;
    assert (set i: nat | i < |stats| && stats[i].sender in labels && labels[stats[i].sender] == positive) == hit + missed;
  }

  // _confusion
  method Confusion(stats: seq<Stats>, labels: Labels, positive: string, pred: Stats -> bool)
    returns (tp: nat, fp: nat, tn: nat, fn: nat)
    ensures tp == Cell(stats, labels, positive, pred, true, true)
    ensures fp == Cell(stats, labels, positive, pred, false, true)
    ensures tn == Cell(stats, labels, positive, pred, false, false)
    ensures fn == Cell(stats, labels, positive, pred, true, false)
    ensures tp + fp + tn + fn == Labelled(stats, labels)
  {
    tp, fp, tn, fn := 0, 0, 0, 0;
    for i := 0 to |stats|
      invariant tp == Cell(stats[..i], labels, positive, pred, true, true)
      invariant fp == Cell(stats[..i], labels, positive, pred, false, true)
      invariant tn == Cell(stats[..i], labels, positive, pred, false, false)
      invariant fn == Cell(stats[..i], labels, positive, pred, true, false)
      invariant tp + fp + tn + fn == Labelled(stats[..i], labels)
    {
      var s := stats[i];
      assert stats[..i + 1][..i] == stats[..i];
      if s.sender in labels {
        var isPositive := labels[s.sender] == positive;
        var predicted := pred(s);
        if predicted && isPositive {
          tp := tp + 1;
        } else if predicted && !isPositive {
          fp := fp + 1;
        } else if !predicted && isPositive {
          fn := fn + 1;
        } else {
          tn := tn + 1;
        }
      }
    }
    assert stats[..|stats|] == stats;
  }

  datatype Best = Best(t: real, tp: nat, fp: nat)

  // _picker_prefers
  predicate PickerPrefers(current: Option<Best>, tp: nat, fp: nat) {
    current.None? || tp > current.value.tp || (tp == current.value.tp && fp < current.value.fp)
  }

  // The one-parameter patterns whose threshold is searched.
  datatype Pattern = Chatty | Responder | Visitor

  const SPAN_FLOOR: real := 7.0

  function Positive(p: Pattern): string {
    if p.Chatty? then "chatty_member" else "lurker"
  }

  predicate Fires(p: Pattern, t: real, s: Stats) {
    match p
    case Chatty => s.msgCount as real >= t
    case Responder => s.initRate <= t
    case Visitor => s.msgPerDay <= t && s.spanDays >= SPAN_FLOOR
  }

  function Firing(p: Pattern, t: real): Stats -> bool {
    (s: Stats) => Fires(p, t, s)
  }

  function Tp(stats: seq<Stats>, labels: Labels, p: Pattern, t: real): nat {
    Cell(stats, labels, Positive(p), Firing(p, t), true, true)
  }

  function Fp(stats: seq<Stats>, labels: Labels, p: Pattern, t: real): nat {
    Cell(stats, labels, Positive(p), Firing(p, t), false, true)
  }

  predicate MeetsFloor(stats: seq<Stats>, labels: Labels, p: Pattern, floor: real, t: real) {
    Precision(Tp(stats, labels, p, t), Fp(stats, labels, p, t)) >= floor
  }

  // best is what a sweep over the candidates seen so far has kept.
  ghost predicate Kept(best: Option<Best>, stats: seq<Stats>, labels: Labels, p: Pattern, floor: real, seen: seq<real>) {
    && (best.Some? ==>
          var b: Best := best.value;
          b.t in seen && MeetsFloor(stats, labels, p, floor, b.t)
          && b.tp == Tp(stats, labels, p, b.t) && b.fp == Fp(stats, labels, p, b.t))
    && forall t :: t in seen && MeetsFloor(stats, labels, p, floor, t) ==>
         !PickerPrefers(best, Tp(stats, labels, p, t), Fp(stats, labels, p, t))
  }

  // The counts b are better than those of threshold t.
  predicate Improves(b: Best, stats: seq<Stats>, labels: Labels, p: Pattern, t: real) {
    PickerPrefers(Some(Best(t, Tp(stats, labels, p, t), Fp(stats, labels, p, t))), b.tp, b.fp)
  }

  // b stands at position i and improves on every candidate at the floor that stands before.
  ghost predicate FirstAt(b: Best, i: nat, stats: seq<Stats>, labels: Labels, p: Pattern, floor: real, seen: seq<real>) {
    && i < |seen| && seen[i] == b.t
    && forall k :: 0 <= k < i && MeetsFloor(stats, labels, p, floor, seen[k]) ==> Improves(b, stats, labels, p, seen[k])
  }

  // Of candidates with equal hits and alarms, the first is kept.
  ghost predicate KeptFirst(best: Option<Best>, stats: seq<Stats>, labels: Labels, p: Pattern, floor: real, seen: seq<real>) {
    best.Some? ==> exists i :: FirstAt(best.value, i, stats, labels, p, floor, seen)
  }

  lemma NewBestIsFirst(best: Option<Best>, b: Best, stats: seq<Stats>, labels: Labels, p: Pattern, floor: real, seen: seq<real>)
    requires Kept(best, stats, labels, p, floor, seen) && PickerPrefers(best, b.tp, b.fp)
    ensures KeptFirst(Some(b), stats, labels, p, floor, seen + [b.t])
  {
    var more := seen + [b.t];
    forall k | 0 <= k < |seen| && MeetsFloor(stats, labels, p, floor, more[k]) ensures Improves(b, stats, labels, p, more[k]) {
      assert seen[k] in seen && more[k] == seen[k];
    }
    assert FirstAt(b, |seen|, stats, labels, p, floor, more);
  }

  lemma OldBestStaysFirst(best: Option<Best>, t: real, stats: seq<Stats>, labels: Labels, p: Pattern, floor: real, seen: seq<real>)
    requires KeptFirst(best, stats, labels, p, floor, seen)
    ensures KeptFirst(best, stats, labels, p, floor, seen + [t])
  {
    if best.Some? {
      var i :| FirstAt(best.value, i, stats, labels, p, floor, seen);
      assert FirstAt(best.value, i, stats, labels, p, floor, seen + [t]);
    }
  }

  // One round of the sweep, once a candidate has been counted.
  lemma SweepRound(best: Option<Best>, t: real, tp: nat, fp: nat, stats: seq<Stats>, labels: Labels, p: Pattern, floor: real, seen: seq<real>)
    requires Kept(best, stats, labels, p, floor, seen) && KeptFirst(best, stats, labels, p, floor, seen)
    requires tp == Tp(stats, labels, p, t) && fp == Fp(stats, labels, p, t)
    ensures var next := if Precision(tp, fp) >= floor && PickerPrefers(best, tp, fp) then Some(Best(t, tp, fp)) else best;
            Kept(next, stats, labels, p, floor, seen + [t]) && KeptFirst(next, stats, labels, p, floor, seen + [t])
  {
    if Precision(tp, fp) >= floor && PickerPrefers(best, tp, fp) {
      NewBestIsFirst(best, Best(t, tp, fp), stats, labels, p, floor, seen);
    } else {
      OldBestStaysFirst(best, t, stats, labels, p, floor, seen);
    }
  }

  // The sweep loop the searches share.
  method Sweep(stats: seq<Stats>, labels: Labels, p: Pattern, floor: real, candidates: seq<real>) returns (best: Option<Best>)
    ensures Kept(best, stats, labels, p, floor, candidates) && KeptFirst(best, stats, labels, p, floor, candidates)
  {
    best := None;
    for i := 0 to |candidates|
      invariant Kept(best, stats, labels, p, floor, candidates[..i]) && KeptFirst(best, stats, labels, p, floor, candidates[..i])
    {
      var t := candidates[i];
      assert candidates[..i + 1] == candidates[..i] + [t];
      var tp, fp, _, _ := Confusion(stats, labels, Positive(p), Firing(p, t));
      SweepRound(best, t, tp, fp, stats, labels, p, floor, candidates[..i]);
      if Precision(tp, fp) >= floor && PickerPrefers(best, tp, fp) {
        best := Some(Best(t, tp, fp));
      }
    }
    assert candidates[..|candidates|] == candidates;
  }

  predicate Smaller(x: real, y: real) { x < y }

  // Every message count in the cohort, smallest first.
  method DistinctCounts(stats: seq<Stats>) returns (candidates: seq<real>)
    ensures forall t :: t in candidates <==> exists s :: s in stats && s.msgCount as real == t
    ensures forall i, j :: 0 <= i < j < |candidates| ==> candidates[i] < candidates[j]
  {
    var distinct := set s | s in stats :: s.msgCount as real;
    var listed := Listing(distinct);
    candidates := Sort(Smaller, listed);
    SortInOrder(Smaller, listed);
    DistinctListing(candidates, distinct);
    forall t ensures t in candidates <==> t in distinct { assert t in candidates <==> t in multiset(candidates); }
  }

  // The AND-group a pattern contributes to a recipe.
  function GroupOf(p: Pattern, t: real): AxisGroup {
    match p
    case Chatty => AxisGroup([AxisThreshold(MsgCount, Ge, t)])
    case Responder => AxisGroup([AxisThreshold(InitRate, Le, t)])
    case Visitor => AxisGroup([AxisThreshold(MsgPerDay, Le, t), AxisThreshold(SpanDays, Ge, SPAN_FLOOR)])
  }

  function GroupsOf(p: Pattern, best: Option<Best>): seq<AxisGroup> {
    if best.None? then [] else [GroupOf(p, best.value.t)]
  }

  // What a recipe's own matcher predicts.
  function Matching(groups: seq<AxisGroup>): Stats -> bool {
    (s: Stats) => Matches(groups, s)
  }

  // The rounded ratios a calibration carries are those of its counts.
  predicate RatiosFit(rc: Calibrated) {
    && rc.precision == Round4(Precision(rc.tp, rc.fp)) && rc.recall == Round4(Precision(rc.tp, rc.fn))
    && rc.f1 == Round4(F1(Precision(rc.tp, rc.fp), Precision(rc.tp, rc.fn)))
  }

  // _populate_metrics
  method PopulateMetrics(stats: seq<Stats>, labels: Labels, positive: string, groups: seq<AxisGroup>) returns (rc: Calibrated)
    ensures rc.positive == positive && rc.groups == groups
    ensures rc.tp == Cell(stats, labels, positive, Matching(groups), true, true)
    ensures rc.fp == Cell(stats, labels, positive, Matching(groups), false, true)
    ensures rc.tn == Cell(stats, labels, positive, Matching(groups), false, false)
    ensures rc.fn == Cell(stats, labels, positive, Matching(groups), true, false)
    ensures rc.tp + rc.fp + rc.tn + rc.fn == Labelled(stats, labels)
    ensures RatiosFit(rc) && rc.tp + rc.fn == Positives(stats, labels, positive)
  {
    var tp, fp, tn, fn := Confusion(stats, labels, positive, Matching(groups));
    HitsAndMisses(stats, labels, positive, Matching(groups));
    var precision, recall := Precision(tp, fp), Precision(tp, fn);
    rc := Calibrated(positive, groups, tp, fp, tn, fn, Round4(precision), Round4(recall), Round4(F1(precision, recall)));
  }

  // What one actor adds to a cell.
  function CellOfOne(s: Stats, labels: Labels, positive: string, f: Stats -> bool, isPos: bool, predicted: bool): nat {
    if s.sender in labels && (labels[s.sender] == positive) == isPos && f(s) == predicted then 1 else 0
  }

  lemma CellOfMore(stats: seq<Stats>, s: Stats, labels: Labels, positive: string, f: Stats -> bool, isPos: bool, predicted: bool)
    ensures Cell(stats + [s], labels, positive, f, isPos, predicted)
            == Cell(stats, labels, positive, f, isPos, predicted) + CellOfOne(s, labels, positive, f, isPos, predicted)
  {
    assert (stats + [s])[..|stats|] == stats;
  }

  // Predicates that agree on every actor fill the matrix alike.
  lemma {:induction false} CellSame(stats: seq<Stats>, labels: Labels, positive: string, f: Stats -> bool, g: Stats -> bool, isPos: bool, predicted: bool)
    requires forall s :: s in stats ==> f(s) == g(s)
    ensures Cell(stats, labels, positive, f, isPos, predicted) == Cell(stats, labels, positive, g, isPos, predicted)
  {
    if stats != [] {
      assert stats[|stats| - 1] in stats;
      CellSame(stats[..|stats| - 1], labels, positive, f, g, isPos, predicted);
    }
  }

  lemma {:induction false} CellEmpty(stats: seq<Stats>, labels: Labels, positive: string, f: Stats -> bool, isPos: bool)
    requires forall s :: s in stats ==> !f(s)
    ensures Cell(stats, labels, positive, f, isPos, true) == 0
  {
    if stats != [] {
      assert stats[|stats| - 1] in stats;
      CellEmpty(stats[..|stats| - 1], labels, positive, f, isPos);
    }
  }

  // A group evaluates to what its pattern says.
  lemma GroupIsPattern(p: Pattern, t: real, s: Stats)
    ensures GroupOf(p, t).Evaluate(s) <==> Fires(p, t, s)
  {
    var axes := GroupOf(p, t).axes;
    assert axes[0] in axes;
    if p.Visitor? { assert axes[1] in axes; }
  }

  // The recipe's own matcher counts what the sweep counted.
  lemma ReportedCounts(stats: seq<Stats>, labels: Labels, p: Pattern, best: Option<Best>, isPos: bool)
    ensures Cell(stats, labels, Positive(p), Matching(GroupsOf(p, best)), isPos, true)
            == if best.None? then 0 else Cell(stats, labels, Positive(p), Firing(p, best.value.t), isPos, true)
  {
    var f := Matching(GroupsOf(p, best));
    if best.None? {
      CellEmpty(stats, labels, Positive(p), f, isPos);
    } else {
      forall s ensures f(s) == Firing(p, best.value.t)(s) {
        assert GroupOf(p, best.value.t) in GroupsOf(p, best);
        GroupIsPattern(p, best.value.t, s);
      }
      CellSame(stats, labels, Positive(p), f, Firing(p, best.value.t), isPos, true);
    }
  }

  /** Whom a chatty-member recipe matches. */
  lemma ChattyMatches(t: real, tp: nat, fp: nat, s: Stats)
    ensures Matches(GroupsOf(Chatty, Some(Best(t, tp, fp))), s) <==> s.msgCount as real >= t
  {
    GroupIsPattern(Chatty, t, s);
    assert GroupOf(Chatty, t) in GroupsOf(Chatty, Some(Best(t, tp, fp)));
  }
}
