/** Consecutive publishes to a queue group share the deliveries out evenly. */
module GroupFairness {
  import opened Wrappers
  import opened Sorting
  import opened MemoryBus

  // How many of n consecutive publishes reach s through its group g; only g's pointer matters and
  // only these publishes move it.
  function Received(subs: seq<Sub>, cancelled: set<int>, rr: map<string, nat>, subject: string, g: string, s: Sub, n: nat): nat
    decreases n
  {
    if n == 0 then 0
    else
      var after := rr[g := PointerAfter(subs, cancelled, rr, subject, g)];
      (if Chosen(subs, cancelled, rr, subject, g) == Some(s) then 1 else 0)
      + Received(subs, cancelled, after, subject, g, s, n - 1)
  }

  // The group's live matching members in sid order.
  function Ordered(subs: seq<Sub>, cancelled: set<int>, subject: string, g: string): seq<Sub> {
    Sort(SidBefore, Members(subs, cancelled, subject, Some(g)))
  }

  // One publish in terms of that order: the pointer's member is chosen and the pointer moves on.
  lemma OnePublish(subs: seq<Sub>, cancelled: set<int>, rr: map<string, nat>, subject: string, g: string, ordered: seq<Sub>)
    requires ordered == Ordered(subs, cancelled, subject, g) && ordered != []
    ensures Chosen(subs, cancelled, rr, subject, g) == Some(ordered[PickIndex(PointerOf(rr, g), |ordered|)])
    ensures PointerAfter(subs, cancelled, rr, subject, g) == NextPointer(PointerOf(rr, g), |ordered|)
  {
  }

  lemma SidsApart(members: seq<Sub>, a: Sub, b: Sub)
    requires DistinctSids(members) && a in members && b in members && a != b
    ensures a.sid != b.sid
  {
    var i :| 0 <= i < |members| && members[i] == a;
    var j :| 0 <= j < |members| && members[j] == b;
  }

  // Sorting distinct members by sid puts each before the ones of greater sid.
  lemma SortedBySid(members: seq<Sub>, ordered: seq<Sub>)
    requires DistinctSids(members) && ordered == Sort(SidBefore, members)
    ensures forall i, j :: 0 <= i < j < |ordered| ==> ordered[i].sid < ordered[j].sid
    ensures forall s :: s in ordered <==> s in members
  {
    SortInOrder(SidBefore, members);
    DistinctSubs(members);
    DistinctMultiset(members);
    DistinctListing(ordered, set m | m in members);
    forall i, j | 0 <= i < j < |ordered| ensures ordered[i].sid < ordered[j].sid {
      SameElements(members, ordered, ordered[i]);
      SameElements(members, ordered, ordered[j]);
      SidsApart(members, ordered[i], ordered[j]);
    }
    forall s ensures s in ordered <==> s in members { SameElements(members, ordered, s); }
  }

  lemma OrderedBySid(subs: seq<Sub>, cancelled: set<int>, subject: string, g: string, ordered: seq<Sub>)
    requires DistinctSids(subs) && ordered == Ordered(subs, cancelled, subject, g)
    ensures forall i, j :: 0 <= i < j < |ordered| ==> ordered[i].sid < ordered[j].sid
    ensures forall s :: s in ordered <==> Live(s, subs, cancelled, subject) && s.group == Some(g)
  {
    MembersDistinct(subs, cancelled, subject, Some(g));
    SortedBySid(Members(subs, cancelled, subject, Some(g)), ordered);
  }

  // A live member of the group.
  predicate IsMember(subs: seq<Sub>, cancelled: set<int>, subject: string, g: string, s: Sub) {
    Live(s, subs, cancelled, subject) && s.group == Some(g)
  }

  /** A group that was never served starts with its live member of least sid. */
  lemma FirstDelivery(subs: seq<Sub>, cancelled: set<int>, rr: map<string, nat>, subject: string, g: string, s: Sub)
    requires DistinctSids(subs) && g !in rr && IsMember(subs, cancelled, subject, g, s)
    ensures var c := Chosen(subs, cancelled, rr, subject, g);
            c.Some? && IsMember(subs, cancelled, subject, g, c.value) && c.value.sid <= s.sid
  {
    var ordered := Ordered(subs, cancelled, subject, g);
    OrderedBySid(subs, cancelled, subject, g, ordered);
    assert s in ordered;
    OnePublish(subs, cancelled, rr, subject, g, ordered);
    assert ordered[0] in ordered;
    assert Chosen(subs, cancelled, rr, subject, g) == Some(ordered[0]);
  }

  // d follows c among the members: the next greater sid, or the least when there is none.
  ghost predicate Follows(subs: seq<Sub>, cancelled: set<int>, subject: string, g: string, c: Sub, d: Sub) {
    if exists s :: IsMember(subs, cancelled, subject, g, s) && s.sid > c.sid
    then d.sid > c.sid && forall s :: IsMember(subs, cancelled, subject, g, s) && s.sid > c.sid ==> d.sid <= s.sid
    else forall s :: IsMember(subs, cancelled, subject, g, s) ==> d.sid <= s.sid
  }

  /** After one member it is the turn of the member with the next greater sid, and after the last of the
      first again. */
  lemma NextDelivery(subs: seq<Sub>, cancelled: set<int>, rr: map<string, nat>, subject: string, g: string, c: Sub)
    requires DistinctSids(subs) && Chosen(subs, cancelled, rr, subject, g) == Some(c)
    ensures var d := Chosen(subs, cancelled, rr[g := PointerAfter(subs, cancelled, rr, subject, g)], subject, g);
            d.Some? && IsMember(subs, cancelled, subject, g, d.value) && Follows(subs, cancelled, subject, g, c, d.value)
  {
    var ordered := Ordered(subs, cancelled, subject, g);
    var k, i := |ordered|, PickIndex(PointerOf(rr, g), |Members(subs, cancelled, subject, Some(g))|);
    var after := rr[g := PointerAfter(subs, cancelled, rr, subject, g)];
    OrderedBySid(subs, cancelled, subject, g, ordered);
    OnePublish(subs, cancelled, rr, subject, g, ordered);
    OnePublish(subs, cancelled, after, subject, g, ordered);
    PointerSet(rr, g, NextPointer(PointerOf(rr, g), k));
    WrapAround(i + 1, k);
    var d := ordered[if i + 1 == k then 0 else i + 1];
    assert d in ordered && Chosen(subs, cancelled, after, subject, g) == Some(d) && c == ordered[i];
    FollowsInOrder(ordered, i);
    if i + 1 < k { assert IsMember(subs, cancelled, subject, g, ordered[i + 1]); }
  }

  lemma FollowsInOrder(ordered: seq<Sub>, i: nat)
    requires i < |ordered| && forall k, l :: 0 <= k < l < |ordered| ==> ordered[k].sid < ordered[l].sid
    ensures forall s :: s in ordered && s.sid > ordered[i].sid ==> i + 1 < |ordered| && ordered[i + 1].sid <= s.sid
    ensures forall s :: s in ordered ==> ordered[0].sid <= s.sid
  {
    forall s | s in ordered
      ensures ordered[0].sid <= s.sid && (s.sid > ordered[i].sid ==> i + 1 < |ordered| && ordered[i + 1].sid <= s.sid)
    {
      var k :| 0 <= k < |ordered| && ordered[k] == s;
    }
  }

  ghost predicate StandsOnlyAt(ordered: seq<Sub>, s: Sub, j: nat) {
    j < |ordered| && forall i :: 0 <= i < |ordered| ==> (ordered[i] == s <==> i == j)
  }

  lemma DistinctSubs(members: seq<Sub>)
    requires DistinctSids(members)
    ensures forall i, j :: 0 <= i < j < |members| ==> members[i] != members[j]
  {
  }

  lemma PlaceInOrder(members: seq<Sub>, ordered: seq<Sub>, s: Sub) returns (j: nat)
    requires DistinctSids(members) && s in members && multiset(ordered) == multiset(members)
    ensures StandsOnlyAt(ordered, s, j)
  {
    DistinctSubs(members);
    DistinctMultiset(members);
    DistinctListing(ordered, set m | m in members);
    SameElements(members, ordered, s);
    j :| 0 <= j < |ordered| && ordered[j] == s;
  }

  // s is reached exactly when the pointer stands at its place.
  lemma ReceivedStep(subs: seq<Sub>, cancelled: set<int>, rr: map<string, nat>, subject: string, g: string, s: Sub, n: nat,
                     ordered: seq<Sub>, j: nat)
    requires ordered == Ordered(subs, cancelled, subject, g) && StandsOnlyAt(ordered, s, j) && n > 0
    ensures var r := PointerOf(rr, g);
            Received(subs, cancelled, rr, subject, g, s, n)
            == (if PickIndex(r, |ordered|) == j then 1 else 0)
               + Received(subs, cancelled, rr[g := NextPointer(r, |ordered|)], subject, g, s, n - 1)
  {
    OnePublish(subs, cancelled, rr, subject, g, ordered);
  }

  lemma PointerSet(rr: map<string, nat>, g: string, r: nat)
    ensures PointerOf(rr[g := r], g) == r
  {
  }

  lemma {:induction false} ReceivedIsPicks(subs: seq<Sub>, cancelled: set<int>, rr: map<string, nat>, subject: string, g: string,
                                           s: Sub, n: nat, ordered: seq<Sub>, j: nat)
    requires ordered == Ordered(subs, cancelled, subject, g) && StandsOnlyAt(ordered, s, j)
    ensures Received(subs, cancelled, rr, subject, g, s, n) == Picks(PointerOf(rr, g), |ordered|, n, j)
    decreases n
  {
    if n > 0 {
      var next := NextPointer(PointerOf(rr, g), |ordered|);
      ReceivedStep(subs, cancelled, rr, subject, g, s, n, ordered, j);
      ReceivedIsPicks(subs, cancelled, rr[g := next], subject, g, s, n - 1, ordered, j);
      PointerSet(rr, g, next);
    }
  }

  lemma PlaceOf(subs: seq<Sub>, cancelled: set<int>, subject: string, g: string, s: Sub) returns (ordered: seq<Sub>, j: nat)
    requires DistinctSids(subs) && s in Members(subs, cancelled, subject, Some(g))
    ensures ordered == Ordered(subs, cancelled, subject, g) && StandsOnlyAt(ordered, s, j)
    ensures |ordered| == |Members(subs, cancelled, subject, Some(g))|
  {
    MembersDistinct(subs, cancelled, subject, Some(g));
    ordered := Ordered(subs, cancelled, subject, g);
    j := PlaceInOrder(Members(subs, cancelled, subject, Some(g)), ordered, s);
  }

  /** Of n consecutive publishes, every live member of a group of k receives n/k, rounded down or
      up, wherever the group's pointer stood. */
  lemma EveryMemberGetsItsShare(subs: seq<Sub>, cancelled: set<int>, rr: map<string, nat>, subject: string, g: string, s: Sub, n: nat, k: nat)
    requires DistinctSids(subs) && s in Members(subs, cancelled, subject, Some(g))
    requires k == |Members(subs, cancelled, subject, Some(g))|
    ensures k > 0 && n / k <= Received(subs, cancelled, rr, subject, g, s, n) <= (n + k - 1) / k
  {
    var ordered, j := PlaceOf(subs, cancelled, subject, g, s);
    ReceivedIsPicks(subs, cancelled, rr, subject, g, s, n, ordered, j);
    RoundRobinIsFair(PointerOf(rr, g), k, n, j);
  }

  lemma TargetAtTurn(subs: seq<Sub>, cancelled: set<int>, rr: map<string, nat>, subject: string, g: string, s: Sub, ordered: seq<Sub>, j: nat)
    requires ordered == Ordered(subs, cancelled, subject, g) && StandsOnlyAt(ordered, s, j) && s.group == Some(g)
    ensures IsTarget(subs, cancelled, rr, subject, s) <==> PickIndex(PointerOf(rr, g), |ordered|) == j
    ensures PointerAfter(subs, cancelled, rr, subject, g) == NextPointer(PointerOf(rr, g), |ordered|)
  {
    OnePublish(subs, cancelled, rr, subject, g, ordered);
  }

  // One publish of a run: s is reached when it is its turn, and the group's pointer moves on.
  method PublishOnce(bus: Bus, subject: string, g: string, s: Sub, ghost ordered: seq<Sub>, ghost j: nat) returns (reached: bool)
    requires bus.Valid() && !bus.closed && s.group == Some(g)
    requires ordered == Ordered(bus.subs, bus.cancelled, subject, g) && StandsOnlyAt(ordered, s, j)
    modifies bus`rr
    ensures bus.Valid()
    ensures reached <==> PickIndex(PointerOf(old(bus.rr), g), |ordered|) == j
    ensures PointerOf(bus.rr, g) == NextPointer(PointerOf(old(bus.rr), g), |ordered|)
  {
    TargetAtTurn(bus.subs, bus.cancelled, bus.rr, subject, g, s, ordered, j);
    var p := bus.Publish(subject);
    reached := s in p.targets;
  }

  method PublishTurns(bus: Bus, subject: string, g: string, s: Sub, n: nat, ghost ordered: seq<Sub>, ghost j: nat) returns (received: nat)
    requires bus.Valid() && !bus.closed && s.group == Some(g)
    requires ordered == Ordered(bus.subs, bus.cancelled, subject, g) && StandsOnlyAt(ordered, s, j)
    modifies bus`rr
    ensures bus.Valid() && received == Picks(PointerOf(old(bus.rr), g), |ordered|, n, j)
  {
    ghost var start := PointerOf(bus.rr, g);
    received := 0;
    for i := 0 to n
      invariant bus.Valid() && received + Picks(PointerOf(bus.rr, g), |ordered|, n - i, j) == Picks(start, |ordered|, n, j)
    {
      var reached := PublishOnce(bus, subject, g, s, ordered, j);
      if reached { received := received + 1; }
    }
  }

  /** A client that publishes n times on an open bus while nobody joins or leaves: each live member of
      a group of k is reached n/k times, rounded down or up. */
  method PublishRun(bus: Bus, subject: string, g: string, s: Sub, n: nat, ghost k: nat) returns (received: nat)
    requires bus.Valid() && !bus.closed && s.group == Some(g)
    requires s in Members(bus.subs, bus.cancelled, subject, Some(g)) && k == |Members(bus.subs, bus.cancelled, subject, Some(g))|
    modifies bus`rr
    ensures bus.Valid() && received == Received(bus.subs, bus.cancelled, old(bus.rr), subject, g, s, n)
    ensures k > 0 && n / k <= received <= (n + k - 1) / k
  {
    ghost var ordered, j := PlaceOf(bus.subs, bus.cancelled, subject, g, s);
    ReceivedIsPicks(bus.subs, bus.cancelled, bus.rr, subject, g, s, n, ordered, j);
    RoundRobinIsFair(PointerOf(bus.rr, g), k, n, j);
    received := PublishTurns(bus, subject, g, s, n, ordered, j);
  }
}
