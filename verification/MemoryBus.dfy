/** The in-process bus: who a publish reaches (eyenet/bus/memory.py). */
module MemoryBus {
  import opened Wrappers
  import opened Sorting
  import opened Subjects

  // A subscription; handlers are left out, sid is the identifier drawn for it.
  datatype Sub = Sub(sid: int, pattern: string, group: Option<string>)

  predicate SidBefore(a: Sub, b: Sub) { a.sid < b.sid }

  // ----- Round robin -----

  // The member picked when the group's pointer is r, and the pointer afterwards.
  function PickIndex(r: nat, k: nat): (i: nat)
    requires k > 0
    ensures i < k
  {
    r % k
  }

  function NextPointer(r: nat, k: nat): nat
    requires k > 0
  {
    r % k + 1
  }

  // How often member j is picked in n consecutive deliveries to the same k members.
  function Picks(r: nat, k: nat, n: nat, j: nat): nat
    requires k > 0
    decreases n
  {
    if n == 0 then 0
    else (if PickIndex(r, k) == j then 1 else 0) + Picks(NextPointer(r, k), k, n - 1, j)
  }

  lemma WrapAround(m: nat, k: nat)
    requires 0 < m <= k
    ensures m % k == if m == k then 0 else m
  {
    if m == k { assert k == 1 * k + 0; }
  }

  // Deliveries until j's turn first comes.
  function Wait(i: nat, k: nat, j: nat): nat
    requires i < k && j < k
  {
    if j >= i then j - i else j + k - i
  }

  lemma OneRoundMore(p: int, k: int)
    ensures (p - 1) * k + k == p * k && p * k + k == (p + 1) * k
  {
  }

  // After p picks of j, between p - 1 and p full rounds have passed since its first turn.
  lemma {:induction false} PicksByRounds(r: nat, k: nat, n: nat, j: nat)
    requires k > 0 && j < k
    ensures var p, w := Picks(r, k, n, j), Wait(PickIndex(r, k), k, j);
            if n <= w then p == 0 else (p - 1) * k + w < n <= p * k + w
    decreases n
  {
    if n > 0 {
      var i := PickIndex(r, k);
      PicksByRounds(NextPointer(r, k), k, n - 1, j);
      WrapAround(i + 1, k);
      OneRoundMore(Picks(NextPointer(r, k), k, n - 1, j), k);
    }
  }

  lemma MoreRounds(p: nat, q: nat, k: nat)
    requires p <= q
    ensures p * k <= q * k
  {
  }

  lemma QuotientAtMost(n: nat, k: nat, p: nat)
    requires k > 0 && n < (p + 1) * k
    ensures n / k <= p
  {
    var q := n / k;
    if q > p { MoreRounds(p + 1, q, k); }
  }

  lemma QuotientAtLeast(n: nat, k: nat, p: nat)
    requires k > 0 && p * k <= n
    ensures p <= n / k
  {
    var q := n / k;
    if q < p { MoreRounds(q + 1, p, k); }
  }

  /** Over n consecutive deliveries to the same k members each gets n/k, rounded down or up,
      whatever the pointer was before. */
  lemma RoundRobinIsFair(r: nat, k: nat, n: nat, j: nat)
    requires k > 0 && j < k
    ensures n / k <= Picks(r, k, n, j) <= (n + k - 1) / k
  {
    var p := Picks(r, k, n, j);
    PicksByRounds(r, k, n, j);
    OneRoundMore(p, k);
    QuotientAtMost(n, k, p);
    QuotientAtLeast(n + k - 1, k, p);
  }

  // ----- The bus -----

  // The subscriptions a publish on this subject has to consider.
  predicate Live(s: Sub, subs: seq<Sub>, cancelled: set<int>, subject: string) {
    s in subs && s.sid !in cancelled && Walks(Split(s.pattern), Split(subject))
  }

  // The live matching members of a queue group, in subscription order.
  function Members(subs: seq<Sub>, cancelled: set<int>, subject: string, group: Option<string>): (r: seq<Sub>)
    ensures forall s :: s in r <==> Live(s, subs, cancelled, subject) && s.group == group
  {
    if subs == [] then []
    else
      var n := |subs| - 1;
      var r := Members(subs[..n], cancelled, subject, group);
      assert subs == subs[..n] + [subs[n]];
      if subs[n].sid !in cancelled && Walks(Split(subs[n].pattern), Split(subject)) && subs[n].group == group
      then r + [subs[n]] else r
  }

  predicate DistinctSids(subs: seq<Sub>) {
    forall i, j :: 0 <= i < j < |subs| ==> subs[i].sid != subs[j].sid
  }

  function PointerOf(rr: map<string, nat>, g: string): nat {
    if g in rr then rr[g] else 0
  }

  // The group member whose turn it is, if any member matches.
  function Chosen(subs: seq<Sub>, cancelled: set<int>, rr: map<string, nat>, subject: string, g: string): Option<Sub> {
    var members := Members(subs, cancelled, subject, Some(g));
    if members == [] then None
    else Some(Sort(SidBefore, members)[PickIndex(PointerOf(rr, g), |members|)])
  }

  // Where the group's pointer stands after a publish.
  function PointerAfter(subs: seq<Sub>, cancelled: set<int>, rr: map<string, nat>, subject: string, g: string): nat {
    var members := Members(subs, cancelled, subject, Some(g));
    if members == [] then PointerOf(rr, g) else NextPointer(PointerOf(rr, g), |members|)
  }

  // Who a publish reaches: every live broadcast match, and each group's chosen member.
  predicate IsTarget(subs: seq<Sub>, cancelled: set<int>, rr: map<string, nat>, subject: string, s: Sub) {
    if s.group.None? then Live(s, subs, cancelled, subject)
    else Chosen(subs, cancelled, rr, subject, s.group.value) == Some(s)
  }

  lemma {:induction false} MembersDistinct(subs: seq<Sub>, cancelled: set<int>, subject: string, group: Option<string>)
    requires DistinctSids(subs)
    ensures DistinctSids(Members(subs, cancelled, subject, group))
  {
    if subs != [] {
      var n := |subs| - 1;
      MembersDistinct(subs[..n], cancelled, subject, group);
      var r := Members(subs[..n], cancelled, subject, group);
      forall i | 0 <= i < |r| ensures r[i].sid != subs[n].sid { assert r[i] in r; }
    }
  }

  lemma ChosenIsMember(subs: seq<Sub>, cancelled: set<int>, rr: map<string, nat>, subject: string, g: string)
    ensures var c := Chosen(subs, cancelled, rr, subject, g);
            c.Some? ==> Live(c.value, subs, cancelled, subject) && c.value.group == Some(g)
  {
    var members := Members(subs, cancelled, subject, Some(g));
    if members != [] {
      var c := Chosen(subs, cancelled, rr, subject, g).value;
      assert c in Sort(SidBefore, members);
      SameElements(members, Sort(SidBefore, members), c);
    }
  }

  // The queue groups found so far with their matching members, in the order they were met.
  ghost predicate GroupsFit(groups: map<string, seq<Sub>>, names: seq<string>, subs: seq<Sub>, cancelled: set<int>, subject: string) {
    && multiset(names) == multiset(groups.Keys)
    && forall g :: if g in groups then groups[g] == Members(subs, cancelled, subject, Some(g)) && groups[g] != []
                   else Members(subs, cancelled, subject, Some(g)) == []
  }

  lemma MembersOfMore(subs: seq<Sub>, s: Sub, cancelled: set<int>, subject: string, group: Option<string>)
    ensures Members(subs + [s], cancelled, subject, group)
            == Members(subs, cancelled, subject, group)
               + if s.sid !in cancelled && Walks(Split(s.pattern), Split(subject)) && s.group == group then [s] else []
  {
    assert (subs + [s])[..|subs|] == subs;
  }

  lemma NamesOfMore(names: seq<string>, keys: set<string>, g: string)
    requires multiset(names) == multiset(keys)
    ensures multiset(if g in keys then names else names + [g]) == multiset(keys + {g})
  {
    if g in keys { assert keys + {g} == keys; }
  }

  lemma GroupsOfMore(groups: map<string, seq<Sub>>, names: seq<string>, subs: seq<Sub>, s: Sub, cancelled: set<int>, subject: string,
                     more: map<string, seq<Sub>>, moreNames: seq<string>)
    requires GroupsFit(groups, names, subs, cancelled, subject)
    requires var takes := s.sid !in cancelled && Walks(Split(s.pattern), Split(subject)) && s.group.Some?;
             if takes then
               var g := s.group.value;
               more == groups[g := (if g in groups then groups[g] else []) + [s]]
               && moreNames == (if g in groups then names else names + [g])
             else more == groups && moreNames == names
    ensures GroupsFit(more, moreNames, subs + [s], cancelled, subject)
  {
    forall g
      ensures if g in more then more[g] == Members(subs + [s], cancelled, subject, Some(g)) && more[g] != []
              else Members(subs + [s], cancelled, subject, Some(g)) == []
    {
      MembersOfMore(subs, s, cancelled, subject, Some(g));
    }
    if moreNames != names || more != groups {
      NamesOfMore(names, groups.Keys, s.group.value);
      assert more.Keys == groups.Keys + {s.group.value};
    }
  }

  // targets holds the broadcast matches and one member for each group served so far.
  ghost predicate Served(targets: seq<Sub>, subs: seq<Sub>, cancelled: set<int>, rr: map<string, nat>, subject: string, served: seq<string>) {
    && (forall s :: s in targets <==>
          if s.group.None? then Live(s, subs, cancelled, subject)
          else s.group.value in served && Chosen(subs, cancelled, rr, subject, s.group.value) == Some(s))
    && forall i, j :: 0 <= i < j < |targets| ==> targets[i] != targets[j]
  }

  lemma ServeMore(targets: seq<Sub>, subs: seq<Sub>, cancelled: set<int>, rr: map<string, nat>, subject: string, served: seq<string>, g: string, c: Sub)
    requires Served(targets, subs, cancelled, rr, subject, served) && g !in served
    requires Chosen(subs, cancelled, rr, subject, g) == Some(c)
    ensures Served(targets + [c], subs, cancelled, rr, subject, served + [g])
  {
    ChosenIsMember(subs, cancelled, rr, subject, g);
    assert c !in targets;
    forall s ensures s in targets + [c] <==>
      if s.group.None? then Live(s, subs, cancelled, subject)
      else s.group.value in served + [g] && Chosen(subs, cancelled, rr, subject, s.group.value) == Some(s)
    {
      assert s in targets + [c] <==> s in targets || s == c;
    }
  }

  // Pointers of the groups served so far have moved; the others stand where they stood.
  ghost predicate PointersFit(rr: map<string, nat>, subs: seq<Sub>, cancelled: set<int>, start: map<string, nat>, subject: string, served: seq<string>) {
    forall g :: PointerOf(rr, g) ==
      if g in served then PointerAfter(subs, cancelled, start, subject, g) else PointerOf(start, g)
  }

  lemma AllServed(targets: seq<Sub>, subs: seq<Sub>, cancelled: set<int>, start: map<string, nat>, rr: map<string, nat>, subject: string,
                  groups: map<string, seq<Sub>>, names: seq<string>)
    requires Served(targets, subs, cancelled, start, subject, names) && PointersFit(rr, subs, cancelled, start, subject, names)
    requires GroupsFit(groups, names, subs, cancelled, subject) && forall g :: g in names <==> g in groups
    ensures forall s :: s in targets <==> IsTarget(subs, cancelled, start, subject, s)
    ensures forall g :: PointerOf(rr, g) == PointerAfter(subs, cancelled, start, subject, g)
  {
  }

  /** A subscription cancelled before the publish is never reached by it. */
  lemma CancelledNeverReached(subs: seq<Sub>, cancelled: set<int>, rr: map<string, nat>, subject: string, s: Sub)
    requires s.sid in cancelled || s !in subs
    ensures !IsTarget(subs, cancelled, rr, subject, s)
  {
    if s.group.Some? { ChosenIsMember(subs, cancelled, rr, subject, s.group.value); }
  }

  /** A subscription with a valid pattern is reached only if the subject arises from the pattern, and
      without a queue group it is reached exactly then. */
  lemma TargetsMatch(subs: seq<Sub>, cancelled: set<int>, rr: map<string, nat>, subject: string, s: Sub)
    requires IsValidPattern(s.pattern)
    ensures IsTarget(subs, cancelled, rr, subject, s) ==>
              s in subs && s.sid !in cancelled && Arises(Split(s.pattern), Split(subject))
    ensures s.group.None? && s in subs && s.sid !in cancelled && Arises(Split(s.pattern), Split(subject)) ==>
              IsTarget(subs, cancelled, rr, subject, s)
  {
    MatchesExactlyExpansions(s.pattern, subject);
    if s.group.Some? { ChosenIsMember(subs, cancelled, rr, subject, s.group.value); }
  }

  /** Every queue group with a live match gets one delivery, and every target lies on a live match. */
  lemma OneTargetPerGroup(subs: seq<Sub>, cancelled: set<int>, rr: map<string, nat>, subject: string, s: Sub) returns (c: Sub)
    requires Live(s, subs, cancelled, subject) && s.group.Some?
    ensures IsTarget(subs, cancelled, rr, subject, c) && c.group == s.group && Live(c, subs, cancelled, subject)
    ensures forall o :: IsTarget(subs, cancelled, rr, subject, o) && o.group == s.group ==> o == c
  {
    var g := s.group.value;
    assert s in Members(subs, cancelled, subject, Some(g));
    ChosenIsMember(subs, cancelled, rr, subject, g);
    c := Chosen(subs, cancelled, rr, subject, g).value;
  }

  datatype Published = BusClosed | Delivered(targets: seq<Sub>)

  datatype Subscribed = InvalidPattern | Ok(sub: Sub)

  class Bus {
    var subs: seq<Sub>
    var cancelled: set<int>
    var rr: map<string, nat>
    var closed: bool

    ghost predicate Valid()
      reads this
    {
      DistinctSids(subs) && forall s :: s in subs ==> s.sid !in cancelled
    }

    constructor ()
      ensures Valid() && subs == [] && rr == map[] && !closed && cancelled == {}
    {
      subs, cancelled, rr, closed := [], {}, map[], false;
    }

    // subscribe; sid is a fresh uuid4.
    method Subscribe(subject: string, group: Option<string>, sid: int) returns (r: Subscribed)
      requires Valid() && sid !in cancelled && forall s :: s in subs ==> s.sid != sid
      modifies this`subs
      ensures Valid()
      ensures r.Ok? <==> IsValidPattern(subject)
      ensures r.Ok? ==> r.sub == Sub(sid, subject, group) && subs == old(subs) + [r.sub]
      ensures r.InvalidPattern? ==> subs == old(subs)
    {
      var ok := CheckPattern(subject);
      if !ok { return InvalidPattern; }
      var sub := Sub(sid, subject, group);
      subs := subs + [sub];
      r := Ok(sub);
    }

    // unsubscribe: marked first, then taken off the list if it is still there.
    method Unsubscribe(sub: Sub)
      requires Valid()
      modifies this`subs, this`cancelled
      ensures Valid()
      ensures cancelled == old(cancelled) + {sub.sid}
      ensures subs == RemoveSid(old(subs), sub.sid)
      ensures forall s :: s in subs <==> s in old(subs) && s.sid != sub.sid
    {
      cancelled := cancelled + {sub.sid};
      subs := RemoveSid(subs, sub.sid);
    }

    method Close()
      requires Valid()
      modifies this
      ensures Valid() && closed && subs == [] && rr == map[] && cancelled == old(cancelled)
    {
      closed, subs, rr := true, [], map[];
    }

    // _pick_round_robin
    method PickRoundRobin(group: string, members: seq<Sub>) returns (chosen: Option<Sub>)
      modifies this`rr
      ensures members == [] ==> chosen == None && rr == old(rr)
      ensures members != [] ==>
                var k, r := |members|, PointerOf(old(rr), group);
                chosen == Some(Sort(SidBefore, members)[PickIndex(r, k)]) && rr == old(rr)[group := NextPointer(r, k)]
    {
      if members == [] { return None; }
      var ordered := Sort(SidBefore, members);
      var idx := PointerOf(rr, group) % |ordered|;
      rr := rr[group := idx + 1];
      chosen := Some(ordered[idx]);
    }

    // One queue group of _fanout: pick its member and move its pointer.
    method ServeGroup(subject: string, targets: seq<Sub>, g: string, members: seq<Sub>, ghost start: map<string, nat>, ghost served: seq<string>)
      returns (more: seq<Sub>)
      requires Served(targets, subs, cancelled, start, subject, served) && PointersFit(rr, subs, cancelled, start, subject, served)
      requires members != [] && members == Members(subs, cancelled, subject, Some(g)) && g !in served
      modifies this`rr
      ensures Served(more, subs, cancelled, start, subject, served + [g])
      ensures PointersFit(rr, subs, cancelled, start, subject, served + [g])
    {
      assert PointerOf(rr, g) == PointerOf(start, g);
      var chosen := PickRoundRobin(g, members);
      ServeMore(targets, subs, cancelled, start, subject, served, g, chosen.value);
      more := targets + [chosen.value];
    }

    // publish and _fanout
    method Publish(subject: string) returns (p: Published)
      requires Valid()
      modifies this`rr
      ensures Valid()
      ensures p.BusClosed? <==> closed
      ensures p.BusClosed? ==> rr == old(rr)
      ensures p.Delivered? ==>
                && (forall s :: s in p.targets <==> IsTarget(subs, cancelled, old(rr), subject, s))
                && (forall i, j :: 0 <= i < j < |p.targets| ==> p.targets[i] != p.targets[j])
                && (forall g :: PointerOf(rr, g) == PointerAfter(subs, cancelled, old(rr), subject, g))
    {
      if closed { return BusClosed; }
      var broadcast, groups, names := Classify(subs, cancelled, subject);
      var targets := broadcast;
      MembersDistinct(subs, cancelled, subject, None);
      DistinctListing(names, groups.Keys);
      for k := 0 to |names|
        invariant Served(targets, subs, cancelled, old(rr), subject, names[..k])
        invariant PointersFit(rr, subs, cancelled, old(rr), subject, names[..k])
      {
        assert names[..k + 1] == names[..k] + [names[k]];
        targets := ServeGroup(subject, targets, names[k], groups[names[k]], old(rr), names[..k]);
      }
      assert names[..|names|] == names;
      AllServed(targets, subs, cancelled, old(rr), rr, subject, groups, names);
      p := Delivered(targets);
    }
  }

  // Sorting the subscriptions of one publish into broadcast matches and queue groups.
  method Classify(subs: seq<Sub>, cancelled: set<int>, subject: string)
    returns (broadcast: seq<Sub>, groups: map<string, seq<Sub>>, names: seq<string>)
    ensures broadcast == Members(subs, cancelled, subject, None)
    ensures GroupsFit(groups, names, subs, cancelled, subject)
  {
    broadcast, groups, names := [], map[], [];
    for i := 0 to |subs|
      invariant broadcast == Members(subs[..i], cancelled, subject, None)
      invariant GroupsFit(groups, names, subs[..i], cancelled, subject)
    {
      var sub := subs[i];
      assert subs[..i + 1] == subs[..i] + [sub];
      MembersOfMore(subs[..i], sub, cancelled, subject, None);
      var m := SubjectMatches(sub.pattern, subject);
      ghost var before, beforeNames := groups, names;
      if sub.sid !in cancelled && m {
        if sub.group.None? {
          broadcast := broadcast + [sub];
        } else {
          var g := sub.group.value;
          names := if g in groups then names else names + [g];
          groups := groups[g := (if g in groups then groups[g] else []) + [sub]];
        }
      }
      GroupsOfMore(before, beforeNames, subs[..i], sub, cancelled, subject, groups, names);
    }
    assert subs[..|subs|] == subs;
  }

  function RemoveSid(subs: seq<Sub>, sid: int): (r: seq<Sub>)
    ensures forall s :: s in r <==> s in subs && s.sid != sid
    ensures DistinctSids(subs) ==> DistinctSids(r)
  {
    if subs == [] then []
    else
      var rest := RemoveSid(subs[1..], sid);
      if subs[0].sid == sid then rest else [subs[0]] + rest
  }
}
