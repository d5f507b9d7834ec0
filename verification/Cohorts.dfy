/** Cohorts of actors: the rows that statistics can produce (eyenet/calibration/interaction.py), and
    how lurkers and other actors add up in a confusion matrix. */
module Cohorts {
  import opened Rounding
  import opened Recipes
  import opened LurkerRecipe

  // compute_actor_stats for an actor with inits first posts among its messages, over so many seconds.
  ghost predicate FromMessages(s: Stats, inits: nat, seconds: nat) {
    var n, days := s.msgCount as real, seconds as real / 86400.0;
    && 1 <= s.msgCount && inits <= s.msgCount && (s.msgCount == 1 ==> seconds == 0 && s.lengthCv == 0.0)
    && s.spanDays == Round4(days) && s.lengthCv >= 0.0
    && s.msgPerDay == Round4(n / if days > 1.0 then days else 1.0)
    && s.initRate == Round4(inits as real / n)
  }

  ghost predicate Producible(s: Stats) {
    exists inits: nat, seconds: nat :: FromMessages(s, inits, seconds)
  }

  lemma InitRateIsShare(s: Stats)
    requires Producible(s)
    ensures s.initRate <= 1.0
  {
    var inits: nat, seconds: nat :| FromMessages(s, inits, seconds);
    ShareAtMostOne(inits, s.msgCount);
    Round4Monotone(inits as real / s.msgCount as real, 1.0);
    Round4Fixes();
  }

  lemma ShareAtMostOne(i: nat, n: nat)
    requires i <= n && n > 0
    ensures i as real / n as real <= 1.0
  {
  }

  ghost predicate DistinctSenders(stats: seq<Stats>) {
    forall i, j :: 0 <= i < j < |stats| ==> stats[i].sender != stats[j].sender
  }

  ghost predicate AllLurkers(lurkers: seq<Stats>, labels: Labels) {
    forall s :: s in lurkers ==> s.sender in labels && labels[s.sender] == LURKER
  }

  ghost predicate NoLurkers(others: seq<Stats>, labels: Labels) {
    forall s :: s in others ==> Producible(s) && !(s.sender in labels && labels[s.sender] == LURKER)
  }

  /** others joins the labelled lurkers to make a cohort: producible rows, nobody twice, and no
      further lurker. */
  ghost predicate Extension(lurkers: seq<Stats>, others: seq<Stats>, labels: Labels) {
    AllLurkers(lurkers, labels) && NoLurkers(others, labels) && DistinctSenders(lurkers + others)
  }

  // How many actors a predicate matches.
  function Count(stats: seq<Stats>, f: Stats -> bool): (n: nat)
    ensures n <= |stats|
  {
    if stats == [] then 0 else Count(stats[..|stats| - 1], f) + if f(stats[|stats| - 1]) then 1 else 0
  }

  lemma {:induction false} CountMonotone(stats: seq<Stats>, f: Stats -> bool, g: Stats -> bool)
    requires forall s :: s in stats && f(s) ==> g(s)
    ensures Count(stats, f) <= Count(stats, g)
  {
    if stats != [] {
      assert stats[|stats| - 1] in stats;
      CountMonotone(stats[..|stats| - 1], f, g);
    }
  }

  lemma {:induction false} CountStrict(stats: seq<Stats>, f: Stats -> bool, g: Stats -> bool, x: Stats)
    requires forall s :: s in stats && f(s) ==> g(s)
    requires x in stats && g(x) && !f(x)
    ensures Count(stats, f) < Count(stats, g)
  {
    var n := |stats| - 1;
    assert stats[n] in stats;
    if x == stats[n] {
      CountMonotone(stats[..n], f, g);
    } else {
      assert x in stats[..n];
      CountStrict(stats[..n], f, g, x);
    }
  }

  lemma {:induction false} CountEither(stats: seq<Stats>, f: Stats -> bool, g: Stats -> bool)
    ensures Count(stats, Either(f, g)) + Count(stats, Both(f, g)) == Count(stats, f) + Count(stats, g)
  {
    if stats != [] { CountEither(stats[..|stats| - 1], f, g); }
  }

  lemma CountPositive(stats: seq<Stats>, f: Stats -> bool, x: Stats)
    requires x in stats && f(x)
    ensures Count(stats, f) > 0
  {
    CountStrict(stats, (s: Stats) => false, f, x);
  }

  lemma {:induction false} HitsOfLurkers(lurkers: seq<Stats>, labels: Labels, f: Stats -> bool)
    requires AllLurkers(lurkers, labels)
    ensures Hits(lurkers, labels, f, true) == Count(lurkers, f) && Hits(lurkers, labels, f, false) == 0
  {
    if lurkers != [] {
      assert lurkers[|lurkers| - 1] in lurkers;
      HitsOfLurkers(lurkers[..|lurkers| - 1], labels, f);
    }
  }

  lemma {:induction false} HitsOfBoth(s: seq<Stats>, t: seq<Stats>, labels: Labels, f: Stats -> bool, isPos: bool)
    ensures Hits(s + t, labels, f, isPos) == Hits(s, labels, f, isPos) + Hits(t, labels, f, isPos)
  {
    if t == [] {
      assert s + t == s;
    } else {
      var n := |t| - 1;
      HitsOfBoth(s, t[..n], labels, f, isPos);
      assert (s + t)[..|s + t| - 1] == s + t[..n];
    }
  }

  // ----- Groups of alike actors -----

  datatype Group = Group(size: nat, kind: Stats)

  function Copies(first: int, n: nat, kind: Stats): (r: seq<Stats>)
    ensures |r| == n && forall i :: 0 <= i < n ==> r[i] == kind.(sender := first + i)
  {
    if n == 0 then [] else Copies(first, n - 1, kind) + [kind.(sender := first + n - 1)]
  }

  function Size(groups: seq<Group>): nat {
    if groups == [] then 0 else groups[0].size + Size(groups[1..])
  }

  // The members of all groups, numbered from first on.
  function Members(first: int, groups: seq<Group>): (r: seq<Stats>)
    ensures |r| == Size(groups)
    decreases |groups|
  {
    if groups == [] then [] else Copies(first, groups[0].size, groups[0].kind) + Members(first + groups[0].size, groups[1..])
  }

  function Matched(groups: seq<Group>, f: Stats -> bool): nat {
    if groups == [] then 0 else (if f(groups[0].kind) then groups[0].size else 0) + Matched(groups[1..], f)
  }

  ghost predicate IgnoresSender(f: Stats -> bool) {
    forall s: Stats, i: int :: f(s.(sender := i)) == f(s)
  }

  lemma PatternsIgnoreSender(p: Pattern, t: real, q: Pattern, u: real)
    ensures IgnoresSender(Firing(p, t)) && IgnoresSender(Either(Firing(p, t), Firing(q, u)))
    ensures IgnoresSender(Both(Firing(p, t), Firing(q, u)))
  {
  }

  // Labelled, and as something else than a lurker.
  ghost predicate AllOther(stats: seq<Stats>, labels: Labels) {
    forall s :: s in stats ==> s.sender in labels && labels[s.sender] != LURKER
  }

  lemma AllOtherParts(s: seq<Stats>, t: seq<Stats>, labels: Labels)
    requires AllOther(s + t, labels)
    ensures AllOther(s, labels) && AllOther(t, labels)
  {
    forall x | x in s || x in t ensures x.sender in labels && labels[x.sender] != LURKER { assert x in s + t; }
  }

  // Neither column counts anyone but the others that f matches.
  ghost predicate Alarms(stats: seq<Stats>, labels: Labels, f: Stats -> bool, n: nat) {
    Hits(stats, labels, f, false) == n && Hits(stats, labels, f, true) == 0
  }

  lemma AlarmsAdd(s: seq<Stats>, t: seq<Stats>, labels: Labels, f: Stats -> bool, m: nat, n: nat)
    requires Alarms(s, labels, f, m) && Alarms(t, labels, f, n)
    ensures Alarms(s + t, labels, f, m + n)
  {
    HitsOfBoth(s, t, labels, f, false);
    HitsOfBoth(s, t, labels, f, true);
  }

  lemma AlarmOfOne(s: Stats, labels: Labels, f: Stats -> bool)
    requires AllOther([s], labels)
    ensures Alarms([s], labels, f, if f(s) then 1 else 0)
  {
    assert s in [s];
    CellOfMore([], s, labels, LURKER, f, false, true);
    CellOfMore([], s, labels, LURKER, f, true, true);
    assert [] + [s] == [s];
  }

  lemma {:induction false} AlarmsOfCopies(first: int, n: nat, kind: Stats, labels: Labels, f: Stats -> bool)
    requires IgnoresSender(f) && AllOther(Copies(first, n, kind), labels)
    ensures Alarms(Copies(first, n, kind), labels, f, if f(kind) then n else 0)
  {
    if n > 0 {
      var rest, s := Copies(first, n - 1, kind), kind.(sender := first + n - 1);
      AllOtherParts(rest, [s], labels);
      AlarmsOfCopies(first, n - 1, kind, labels, f);
      AlarmOfOne(s, labels, f);
      assert f(s) == f(kind);
      AlarmsAdd(rest, [s], labels, f, if f(kind) then n - 1 else 0, if f(s) then 1 else 0);
    }
  }

  lemma FirstGroup(first: int, groups: seq<Group>, f: Stats -> bool)
    requires groups != []
    ensures var g, rest := groups[0], groups[1..];
            && Members(first, groups) == Copies(first, g.size, g.kind) + Members(first + g.size, rest)
            && Matched(groups, f) == (if f(g.kind) then g.size else 0) + Matched(rest, f)
  {
  }

  lemma AlarmsOfFirst(own: seq<Stats>, more: seq<Stats>, all: seq<Stats>, labels: Labels, f: Stats -> bool, m: nat, n: nat, k: nat)
    requires all == own + more && k == m + n && Alarms(own, labels, f, m) && Alarms(more, labels, f, n)
    ensures Alarms(all, labels, f, k)
  {
    AlarmsAdd(own, more, labels, f, m, n);
  }

  lemma {:induction false} AlarmsOfMembers(first: int, groups: seq<Group>, all: seq<Stats>, labels: Labels, f: Stats -> bool)
    requires IgnoresSender(f) && all == Members(first, groups) && AllOther(all, labels)
    ensures Alarms(all, labels, f, Matched(groups, f))
    decreases |groups|
  {
    if |groups| > 0 {
      var g, rest := groups[0], groups[1..];
      var own, more := Copies(first, g.size, g.kind), Members(first + g.size, rest);
      FirstGroup(first, groups, f);
      AllOtherParts(own, more, labels);
      AlarmsOfCopies(first, g.size, g.kind, labels, f);
      AlarmsOfMembers(first + g.size, rest, more, labels, f);
      AlarmsOfFirst(own, more, all, labels, f, if f(g.kind) then g.size else 0, Matched(rest, f), Matched(groups, f));
    }
  }

  // Members are numbered in order and look like their group.
  lemma {:induction false} MembersNumbered(first: int, groups: seq<Group>, i: nat) returns (g: Group)
    requires i < Size(groups)
    ensures g in groups && Members(first, groups)[i] == g.kind.(sender := first + i)
    decreases |groups|
  {
    if i < groups[0].size {
      g := groups[0];
    } else {
      g := MembersNumbered(first + groups[0].size, groups[1..], i - groups[0].size);
    }
  }

  // ----- Adding groups to a list of lurkers -----

  // A number above every sender.
  function Fresh(stats: seq<Stats>): (n: int)
    ensures forall s :: s in stats ==> s.sender < n
  {
    if stats == [] then 0
    else
      var m, last := Fresh(stats[..|stats| - 1]), stats[|stats| - 1];
      assert stats == stats[..|stats| - 1] + [last];
      if m > last.sender then m else last.sender + 1
  }

  function Others(lurkers: seq<Stats>, groups: seq<Group>): seq<Stats> {
    Members(Fresh(lurkers), groups)
  }

  function LabelsOf(lurkers: seq<Stats>, groups: seq<Group>): Labels {
    (map s | s in lurkers :: s.sender := LURKER) + (map s | s in Others(lurkers, groups) :: s.sender := "normal")
  }

  ghost predicate AllProducible(stats: seq<Stats>) {
    forall s :: s in stats ==> Producible(s)
  }

  ghost predicate KindsProducible(groups: seq<Group>) {
    forall g :: g in groups ==> Producible(g.kind)
  }

  lemma ProducibleAnySender(s: Stats, i: int)
    requires Producible(s)
    ensures Producible(s.(sender := i))
  {
    var inits: nat, seconds: nat :| FromMessages(s, inits, seconds);
    assert FromMessages(s.(sender := i), inits, seconds);
  }

  lemma OthersAreFresh(lurkers: seq<Stats>, groups: seq<Group>, s: Stats)
    requires s in Others(lurkers, groups)
    ensures s.sender >= Fresh(lurkers)
  {
    var i :| 0 <= i < |Others(lurkers, groups)| && Others(lurkers, groups)[i] == s;
    var g := MembersNumbered(Fresh(lurkers), groups, i);
  }

  lemma LurkersKeepLabel(lurkers: seq<Stats>, groups: seq<Group>)
    ensures AllLurkers(lurkers, LabelsOf(lurkers, groups))
    ensures AllOther(Others(lurkers, groups), LabelsOf(lurkers, groups))
  {
    forall s | s in Others(lurkers, groups) ensures s.sender >= Fresh(lurkers) {
      OthersAreFresh(lurkers, groups, s);
    }
  }

  lemma OthersNoLurkers(lurkers: seq<Stats>, groups: seq<Group>)
    requires KindsProducible(groups)
    ensures NoLurkers(Others(lurkers, groups), LabelsOf(lurkers, groups))
  {
    var others, labels := Others(lurkers, groups), LabelsOf(lurkers, groups);
    LurkersKeepLabel(lurkers, groups);
    forall s | s in others ensures Producible(s) && !(s.sender in labels && labels[s.sender] == LURKER) {
      var i :| 0 <= i < |others| && others[i] == s;
      var g := MembersNumbered(Fresh(lurkers), groups, i);
      ProducibleAnySender(g.kind, s.sender);
    }
  }

  lemma OthersDistinct(lurkers: seq<Stats>, groups: seq<Group>)
    requires DistinctSenders(lurkers)
    ensures DistinctSenders(lurkers + Others(lurkers, groups))
  {
    var n, all := |lurkers|, lurkers + Others(lurkers, groups);
    forall i, j | 0 <= i < j < |all| ensures all[i].sender != all[j].sender {
      if j >= n {
        var h := MembersNumbered(Fresh(lurkers), groups, j - n);
        if i >= n {
          var g := MembersNumbered(Fresh(lurkers), groups, i - n);
        } else {
          assert all[i] in lurkers;
        }
      }
    }
  }

  lemma GroupsExtend(lurkers: seq<Stats>, groups: seq<Group>)
    requires DistinctSenders(lurkers) && KindsProducible(groups)
    ensures Extension(lurkers, Others(lurkers, groups), LabelsOf(lurkers, groups))
  {
    LurkersKeepLabel(lurkers, groups);
    OthersNoLurkers(lurkers, groups);
    OthersDistinct(lurkers, groups);
  }

  // In that cohort a predicate hits the lurkers it matches and raises alarms for the others.
  lemma HitsInCohort(lurkers: seq<Stats>, groups: seq<Group>, f: Stats -> bool)
    requires IgnoresSender(f)
    ensures var stats, labels := lurkers + Others(lurkers, groups), LabelsOf(lurkers, groups);
            Hits(stats, labels, f, true) == Count(lurkers, f) && Hits(stats, labels, f, false) == Matched(groups, f)
  {
    var labels := LabelsOf(lurkers, groups);
    LurkersKeepLabel(lurkers, groups);
    HitsOfLurkers(lurkers, labels, f);
    AlarmsOfMembers(Fresh(lurkers), groups, Others(lurkers, groups), labels, f);
    HitsOfBoth(lurkers, Others(lurkers, groups), labels, f, true);
    HitsOfBoth(lurkers, Others(lurkers, groups), labels, f, false);
  }

  lemma MatchedOfThree(g: Group, h: Group, k: Group, f: Stats -> bool)
    ensures Matched([g, h, k], f)
            == (if f(g.kind) then g.size else 0) + (if f(h.kind) then h.size else 0) + (if f(k.kind) then k.size else 0)
  {
    assert [g, h, k][1..] == [h, k] && [h, k][1..] == [k];
    assert Matched([k], f) == if f(k.kind) then k.size else 0;
    assert Matched([h, k], f) == (if f(h.kind) then h.size else 0) + Matched([k], f);
  }

  lemma MatchedOfFour(g: Group, h: Group, k: Group, l: Group, f: Stats -> bool)
    ensures Matched([g, h, k, l], f)
            == (if f(g.kind) then g.size else 0) + (if f(h.kind) then h.size else 0)
               + (if f(k.kind) then k.size else 0) + (if f(l.kind) then l.size else 0)
  {
    assert [g, h, k, l][1..] == [h, k, l];
    MatchedOfThree(h, k, l, f);
  }
}
