/** build_crews: from shared-infrastructure edges to crews (eyenet/linker/crews.py). */
module Crews {
  import opened UnionFind
  import opened Components
  import opened Sorting
  import opened Rounding

  const TOP_INFRA: nat := 8

  datatype Crew = Crew(members: seq<Actor>, topInfra: seq<string>, edgeCount: nat, maxScore: real, links: seq<Edge>)

  datatype Agg = Agg(members: set<Actor>, infra: map<string, nat>, edges: nat, maxScore: real, links: seq<Edge>)

  // ----- What a crew is -----

  // The edges that start inside a set of actors, in input order.
  function LinksIn(edges: seq<Edge>, members: set<Actor>): (r: seq<Edge>)
  {
    if edges == [] then [] else
    var e := edges[|edges| - 1];
    var r := LinksIn(edges[..|edges| - 1], members);
    if e.a in members then r + [e] else r
  }

  function PeakScore(links: seq<Edge>): real {
    if links == [] then 0.0 else
    var peak := PeakScore(links[..|links| - 1]);
    if links[|links| - 1].score > peak then links[|links| - 1].score else peak
  }

  // How often an indicator occurs over all links.
  function Occurrences(links: seq<Edge>, v: string): nat {
    if links == [] then 0 else
    Occurrences(links[..|links| - 1], v) + multiset(links[|links| - 1].shared)[v]
  }

  // Sort key (-count, indicator).
  predicate Better(m: nat, u: string, n: nat, v: string) {
    m > n || (m == n && LexLess(u, v))
  }

  ghost predicate Outranks(links: seq<Edge>, u: string, v: string) {
    Better(Occurrences(links, u), u, Occurrences(links, v), v)
  }

  // The indicators shared most often, best first, at most eight.
  ghost predicate IsTop(top: seq<string>, links: seq<Edge>) {
    && |top| <= TOP_INFRA
    && (forall i :: 0 <= i < |top| ==> Occurrences(links, top[i]) > 0)
    && (forall i, j :: 0 <= i < j < |top| ==> Outranks(links, top[i], top[j]))
    && (forall v :: Occurrences(links, v) > 0 && v !in top ==>
          |top| == TOP_INFRA && forall i :: 0 <= i < |top| ==> Outranks(links, top[i], v))
  }

  ghost predicate ListsSet(xs: seq<Actor>, s: set<Actor>) {
    && multiset(xs) == multiset(s)
    && forall i, j :: 0 <= i < j < |xs| ==> xs[i] < xs[j]
  }

  ghost function Component(edges: seq<Edge>, x: Actor): set<Actor> {
    set y | y in ClassesOf(edges).Keys && Connected(edges, x, y)
  }

  // Links of equal score stand as the edges did.
  ghost predicate KeepsEdgeOrder(sorted: seq<Edge>, links: seq<Edge>) {
    forall x: Edge :: Ties(Stronger, x, sorted) == Ties(Stronger, x, links)
  }

  predicate Stronger(e: Edge, f: Edge) { e.score > f.score }

  // The crew record for one connected component.
  ghost predicate Describes(crew: Crew, edges: seq<Edge>, members: set<Actor>) {
    var links := LinksIn(edges, members);
    && ListsSet(crew.members, members)
    && crew.edgeCount == |links|
    && crew.maxScore == Round4(PeakScore(links))
    && IsTop(crew.topInfra, links)
    && multiset(crew.links) == multiset(links)
    && (forall i, j :: 0 <= i < j < |crew.links| ==> crew.links[i].score >= crew.links[j].score)
    && KeepsEdgeOrder(crew.links, links)
  }

  // x belongs to a component of at least two actors.
  ghost predicate InGroup(edges: seq<Edge>, x: Actor) {
    IsEndpoint(edges, x) && |Component(edges, x)| >= 2
  }

  ghost predicate IsCrewOf(edges: seq<Edge>, crew: Crew, x: Actor) {
    InGroup(edges, x) && Describes(crew, edges, Component(edges, x))
  }

  ghost predicate IsSomeCrew(edges: seq<Edge>, crew: Crew) {
    exists x :: IsCrewOf(edges, crew, x)
  }

  ghost predicate HasCrew(crews: seq<Crew>, x: Actor) {
    exists crew :: crew in crews && x in crew.members
  }

  ghost predicate Disjoint(c: Crew, d: Crew) {
    forall x :: x in c.members ==> x !in d.members
  }

  // The position of the first edge that starts in a crew.
  function FirstLink(edges: seq<Edge>, crew: Crew): nat {
    if edges == [] || edges[0].a in crew.members then 0 else 1 + FirstLink(edges[1..], crew)
  }

  function MetBefore(edges: seq<Edge>): (Crew, Crew) -> bool {
    (c, d) => FirstLink(edges, c) < FirstLink(edges, d)
  }

  /** One crew for each connected component of two or more actors, largest first; crews of equal size
      and score in the order the input first mentions them. */
  ghost predicate IsCrewList(edges: seq<Edge>, crews: seq<Crew>) {
    && (forall i :: 0 <= i < |crews| ==> IsSomeCrew(edges, crews[i]))
    && (forall x :: InGroup(edges, x) ==> HasCrew(crews, x))
    && (forall i, j :: 0 <= i < j < |crews| ==> Disjoint(crews[i], crews[j]))
    && InOrder(CrewBefore, crews)
    && TiesInOrder(CrewBefore, MetBefore(edges), crews)
  }

  // Sort key (len(members), max_score), descending.
  predicate CrewBefore(a: Crew, b: Crew) {
    |a.members| > |b.members| || (|a.members| == |b.members| && a.maxScore > b.maxScore)
  }

  // ----- Aggregation -----

  const EMPTY_AGG := Agg({}, map[], 0, 0.0, [])

  ghost function Ends(links: seq<Edge>): set<Actor> {
    (set e | e in links :: e.a) + (set e | e in links :: e.b)
  }

  ghost predicate AggFits(agg: Agg, links: seq<Edge>) {
    && agg.members == Ends(links)
    && (forall v :: v in agg.infra <==> Occurrences(links, v) > 0)
    && (forall v :: v in agg.infra ==> agg.infra[v] == Occurrences(links, v))
    && agg.edges == |links| && agg.maxScore == PeakScore(links) && agg.links == links
  }

  method CountShared(infra: map<string, nat>, shared: seq<string>) returns (r: map<string, nat>)
    ensures forall v :: v in r <==> v in infra || v in shared
    ensures forall v :: v in r ==> r[v] == (if v in infra then infra[v] else 0) + multiset(shared)[v]
  {
    r := infra;
    for i := 0 to |shared|
      invariant forall v :: v in r <==> v in infra || v in shared[..i]
      invariant forall v :: v in r ==> r[v] == (if v in infra then infra[v] else 0) + multiset(shared[..i])[v]
    {
      var v := shared[i];
      assert shared[..i + 1] == shared[..i] + [v];
      assert v !in r ==> v !in shared[..i] && multiset(shared[..i])[v] == 0;
      r := r[v := (if v in r then r[v] else 0) + 1];
    }
    assert shared[..|shared|] == shared;
  }

  lemma EndsOfMore(links: seq<Edge>, e: Edge)
    ensures Ends(links + [e]) == Ends(links) + {e.a, e.b}
  {
  }

  lemma OccurrencesOfMore(links: seq<Edge>, e: Edge, v: string)
    ensures Occurrences(links + [e], v) == Occurrences(links, v) + multiset(e.shared)[v]
  {
    assert (links + [e])[..|links|] == links;
  }

  // One round of the second loop: fold an edge into its component's aggregate.
  method Absorb(agg: Agg, e: Edge, ghost links: seq<Edge>) returns (r: Agg)
    requires AggFits(agg, links)
    ensures AggFits(r, links + [e])
  {
    var infra := CountShared(agg.infra, e.shared);
    r := Agg(agg.members + {e.a, e.b}, infra, agg.edges + 1,
             if e.score > agg.maxScore then e.score else agg.maxScore, agg.links + [e]);
    EndsOfMore(links, e);
    assert (links + [e])[..|links|] == links;
    forall v
      ensures v in r.infra <==> Occurrences(links + [e], v) > 0
      ensures v in r.infra ==> r.infra[v] == Occurrences(links + [e], v)
    {
      OccurrencesOfMore(links, e, v);
      assert v in e.shared <==> multiset(e.shared)[v] > 0;
    }
  }

  // ----- Components as classes -----

  ghost function ClassMembers(cls: Classes, r: Actor): set<Actor> {
    set y | y in cls.Keys && cls[y] == r
  }

  ghost function Heads(cls: Classes, edges: seq<Edge>): set<Actor> {
    set e | e in edges && e.a in cls :: cls[e.a]
  }

  lemma ComponentIsClass(edges: seq<Edge>, x: Actor)
    requires x in ClassesOf(edges)
    ensures Component(edges, x) == ClassMembers(ClassesOf(edges), ClassesOf(edges)[x])
  {
    forall y | y in ClassesOf(edges) ensures y in Component(edges, x) <==> ClassesOf(edges)[y] == ClassesOf(edges)[x] {
      ClassesAreComponents(edges, x, y);
    }
  }

  lemma {:induction false} LinksInMembership(edges: seq<Edge>, members: set<Actor>, e: Edge)
    ensures e in LinksIn(edges, members) <==> e in edges && e.a in members
  {
    if edges != [] {
      var n := |edges| - 1;
      assert edges == edges[..n] + [edges[n]];
      LinksInMembership(edges[..n], members, e);
    }
  }

  // The edges of a component touch exactly its members.
  lemma EndsOfClass(edges: seq<Edge>, r: Actor)
    requires r in Heads(ClassesOf(edges), edges)
    ensures Ends(LinksIn(edges, ClassMembers(ClassesOf(edges), r))) == ClassMembers(ClassesOf(edges), r)
  {
    var cls := ClassesOf(edges);
    var c := ClassMembers(cls, r);
    forall x ensures x in Ends(LinksIn(edges, c)) <==> x in c {
      if x in Ends(LinksIn(edges, c)) {
        var e :| e in LinksIn(edges, c) && (e.a == x || e.b == x);
        LinksInMembership(edges, c, e);
        EdgesShareClass(edges, e);
      }
      if x in c {
        ClassesCoverEndpoints(edges);
        var e :| e in edges && (e.a == x || e.b == x);
        EdgesShareClass(edges, e);
        LinksInMembership(edges, c, e);
      }
    }
  }

  lemma {:induction false} NoLinksYet(edges: seq<Edge>, cls: Classes, r: Actor)
    requires r !in Heads(cls, edges)
    ensures LinksIn(edges, ClassMembers(cls, r)) == []
  {
    if edges != [] {
      var n := |edges| - 1;
      assert edges == edges[..n] + [edges[n]];
      assert edges[n] in edges;
      NoLinksYet(edges[..n], cls, r);
    }
  }

  lemma LinksOfMore(edges: seq<Edge>, e: Edge, members: set<Actor>)
    ensures LinksIn(edges + [e], members) == LinksIn(edges, members) + if e.a in members then [e] else []
  {
    assert (edges + [e])[..|edges|] == edges;
  }

  lemma HeadsOfMore(cls: Classes, edges: seq<Edge>, e: Edge)
    requires e.a in cls
    ensures Heads(cls, edges + [e]) == Heads(cls, edges) + {cls[e.a]}
  {
    assert forall x :: x in edges + [e] <==> x in edges || x == e;
    assert e in edges + [e];
  }

  // ----- The method -----

  method UnionAll(edges: seq<Edge>) returns (forest: Forest)
    ensures fresh(forest) && forest.Valid() && forest.top == ClassesOf(edges)
  {
    forest := new Forest();
    for i := 0 to |edges|
      invariant fresh(forest) && forest.Valid() && forest.top == ClassesOf(edges[..i])
    {
      assert edges[..i + 1][..i] == edges[..i];
      forest.Union(edges[i].a, edges[i].b);
    }
    assert edges[..|edges|] == edges;
  }

  ghost predicate AggsFit(aggs: map<Actor, Agg>, keys: seq<Actor>, cls: Classes, edges: seq<Edge>) {
    && aggs.Keys == Heads(cls, edges) && multiset(keys) == multiset(aggs.Keys)
    && forall r :: r in aggs ==> AggFits(aggs[r], LinksIn(edges, ClassMembers(cls, r)))
  }

  lemma ClassLinksOfMore(cls: Classes, edges: seq<Edge>, e: Edge, x: Actor)
    requires e.a in cls
    ensures LinksIn(edges + [e], ClassMembers(cls, x))
            == if x == cls[e.a] then LinksIn(edges, ClassMembers(cls, x)) + [e] else LinksIn(edges, ClassMembers(cls, x))
  {
    LinksOfMore(edges, e, ClassMembers(cls, x));
  }

  // The position of the first edge that starts in a class.
  function FirstOf(edges: seq<Edge>, cls: Classes, r: Actor): nat {
    if edges == [] || (edges[0].a in cls && cls[edges[0].a] == r) then 0 else 1 + FirstOf(edges[1..], cls, r)
  }

  ghost predicate KeysInOrder(keys: seq<Actor>, cls: Classes, edges: seq<Edge>) {
    forall i, j :: 0 <= i < j < |keys| ==> FirstOf(edges, cls, keys[i]) < FirstOf(edges, cls, keys[j])
  }

  lemma {:induction false} FirstOfMore(edges: seq<Edge>, e: Edge, cls: Classes, r: Actor)
    ensures r in Heads(cls, edges) ==> FirstOf(edges + [e], cls, r) == FirstOf(edges, cls, r) < |edges|
    ensures r !in Heads(cls, edges) && e.a in cls && cls[e.a] == r ==> FirstOf(edges + [e], cls, r) == |edges|
  {
    if edges == [] {
      assert [] + [e] == [e];
    } else {
      assert (edges + [e])[1..] == edges[1..] + [e];
      FirstOfMore(edges[1..], e, cls, r);
      HeadsOfRest(cls, edges, r);
    }
  }

  lemma HeadsOfRest(cls: Classes, edges: seq<Edge>, r: Actor)
    requires edges != []
    ensures r in Heads(cls, edges) <==> (edges[0].a in cls && cls[edges[0].a] == r) || r in Heads(cls, edges[1..])
  {
    assert edges == [edges[0]] + edges[1..];
    if r in Heads(cls, edges) {
      var e :| e in edges && e.a in cls && cls[e.a] == r;
      assert e == edges[0] || e in edges[1..];
    }
    assert edges[0] in edges;
  }

  lemma KeysOrderMore(keys: seq<Actor>, cls: Classes, edges: seq<Edge>, e: Edge)
    requires KeysInOrder(keys, cls, edges) && e.a in cls && forall r :: r in keys <==> r in Heads(cls, edges)
    ensures KeysInOrder(if cls[e.a] in Heads(cls, edges) then keys else keys + [cls[e.a]], cls, edges + [e])
  {
    var more := if cls[e.a] in Heads(cls, edges) then keys else keys + [cls[e.a]];
    forall i, j | 0 <= i < j < |more| ensures FirstOf(edges + [e], cls, more[i]) < FirstOf(edges + [e], cls, more[j]) {
      assert more[i] in keys;
      FirstOfMore(edges, e, cls, more[i]);
      FirstOfMore(edges, e, cls, more[j]);
      if j < |keys| { assert more[j] in keys; }
    }
  }

  lemma KeysOfMore(keys: seq<Actor>, seen: set<Actor>, root: Actor)
    requires multiset(keys) == multiset(seen)
    ensures multiset(if root in seen then keys else keys + [root]) == multiset(seen + {root})
  {
    if root in seen { assert seen + {root} == seen; }
  }

  lemma AggsFitMore(aggs: map<Actor, Agg>, keys: seq<Actor>, cls: Classes, edges: seq<Edge>, e: Edge, r: Agg)
    requires AggsFit(aggs, keys, cls, edges) && e.a in cls
    requires AggFits(r, LinksIn(edges, ClassMembers(cls, cls[e.a])) + [e])
    ensures var root := cls[e.a];
            AggsFit(aggs[root := r], if root in aggs then keys else keys + [root], cls, edges + [e])
  {
    var root := cls[e.a];
    HeadsOfMore(cls, edges, e);
    KeysOfMore(keys, aggs.Keys, root);
    var more := aggs[root := r];
    assert more.Keys == aggs.Keys + {root};
    forall x | x in more ensures AggFits(more[x], LinksIn(edges + [e], ClassMembers(cls, x))) {
      ClassLinksOfMore(cls, edges, e, x);
    }
  }

  lemma KeysAreHeads(aggs: map<Actor, Agg>, keys: seq<Actor>, cls: Classes, edges: seq<Edge>)
    requires AggsFit(aggs, keys, cls, edges)
    ensures forall r :: r in keys <==> r in Heads(cls, edges)
  {
    DistinctListing(keys, aggs.Keys);
  }

  // One round of the second loop, once find has named the edge's component.
  method AbsorbEdge(aggs: map<Actor, Agg>, keys: seq<Actor>, root: Actor, e: Edge, ghost cls: Classes, ghost before: seq<Edge>)
    returns (more: map<Actor, Agg>, moreKeys: seq<Actor>)
    requires AggsFit(aggs, keys, cls, before) && KeysInOrder(keys, cls, before) && e.a in cls && root == cls[e.a]
    ensures AggsFit(more, moreKeys, cls, before + [e]) && KeysInOrder(moreKeys, cls, before + [e])
  {
    KeysAreHeads(aggs, keys, cls, before);
    KeysOrderMore(keys, cls, before, e);
    if root !in aggs { NoLinksYet(before, cls, root); }
    var agg := if root in aggs then aggs[root] else EMPTY_AGG;
    var r := Absorb(agg, e, LinksIn(before, ClassMembers(cls, root)));
    AggsFitMore(aggs, keys, cls, before, e, r);
    more, moreKeys := aggs[root := r], if root in aggs then keys else keys + [root];
  }

  // find on an actor that is already in the forest.
  method FindKnown(forest: Forest, x: Actor) returns (root: Actor)
    requires forest.Valid() && x in forest.top
    modifies forest
    ensures forest.Valid() && forest.top == old(forest.top) && root == forest.top[x]
  {
    root := forest.Find(x);
  }

  // One round of the second loop.
  method AggregateOne(forest: Forest, edges: seq<Edge>, i: nat, aggs: map<Actor, Agg>, keys: seq<Actor>, ghost cls: Classes)
    returns (more: map<Actor, Agg>, moreKeys: seq<Actor>)
    requires forest.Valid() && forest.top == cls == ClassesOf(edges) && i < |edges|
    requires AggsFit(aggs, keys, cls, edges[..i]) && KeysInOrder(keys, cls, edges[..i])
    modifies forest
    ensures forest.Valid() && forest.top == cls
    ensures AggsFit(more, moreKeys, cls, edges[..i + 1]) && KeysInOrder(moreKeys, cls, edges[..i + 1])
  {
    EdgesShareClass(edges, edges[i]);
    var root := FindKnown(forest, edges[i].a);
    assert edges[..i + 1] == edges[..i] + [edges[i]];
    more, moreKeys := AbsorbEdge(aggs, keys, root, edges[i], cls, edges[..i]);
  }

  method Aggregate(forest: Forest, edges: seq<Edge>) returns (aggs: map<Actor, Agg>, keys: seq<Actor>)
    requires forest.Valid() && forest.top == ClassesOf(edges)
    modifies forest
    ensures AggsFit(aggs, keys, ClassesOf(edges), edges) && KeysInOrder(keys, ClassesOf(edges), edges)
  {
    ghost var cls := ClassesOf(edges);
    aggs, keys := map[], [];
    for i := 0 to |edges|
      invariant forest.Valid() && forest.top == cls
      invariant AggsFit(aggs, keys, cls, edges[..i]) && KeysInOrder(keys, cls, edges[..i])
    {
      aggs, keys := AggregateOne(forest, edges, i, aggs, keys, cls);
    }
    assert edges[..|edges|] == edges;
  }

  // ----- Crews out of aggregates -----

  function CountOf(infra: map<string, nat>, v: string): nat {
    if v in infra then infra[v] else 0
  }

  function Ranking(infra: map<string, nat>): (string, string) -> bool {
    (u, v) => Better(CountOf(infra, u), u, CountOf(infra, v), v)
  }

  // The rank of one indicator before another is a strict total order.
  lemma BetterIsStrict(m: nat, u: string, n: nat, v: string)
    ensures !(Better(m, u, n, v) && Better(n, v, m, u))
    ensures (m == n && u == v) || Better(m, u, n, v) || Better(n, v, m, u)
  {
    LexIsStrict(u, v);
  }

  lemma BetterTransitive(l: nat, u: string, m: nat, v: string, n: nat, w: string)
    requires !Better(l, u, m, v) && !Better(m, v, n, w)
    ensures !Better(l, u, n, w)
  {
    BetterIsStrict(l, u, m, v);
    BetterIsStrict(m, v, n, w);
    BetterIsStrict(l, u, n, w);
    if LexLess(w, v) && LexLess(v, u) { LexTransitive(w, v, u); }
  }

  lemma RankingIsOrder(infra: map<string, nat>)
    ensures StrictWeakOrder(Ranking(infra))
  {
    var before := Ranking(infra);
    forall u, v | before(u, v) ensures !before(v, u) {
      BetterIsStrict(CountOf(infra, u), u, CountOf(infra, v), v);
    }
    forall u, v, w | !before(u, v) && !before(v, w) ensures !before(u, w) {
      BetterTransitive(CountOf(infra, u), u, CountOf(infra, v), v, CountOf(infra, w), w);
    }
  }

  // sorted(agg.infra, key=(-count, v))[:8]
  method TopInfra(infra: map<string, nat>, ghost links: seq<Edge>) returns (top: seq<string>)
    requires forall v :: v in infra <==> Occurrences(links, v) > 0
    requires forall v :: v in infra ==> infra[v] == Occurrences(links, v)
    ensures IsTop(top, links)
  {
    var keys := Listing(infra.Keys);
    var ranked := Sort(Ranking(infra), keys);
    RankingIsOrder(infra);
    SortInOrder(Ranking(infra), keys);
    DistinctListing(ranked, infra.Keys);
    top := ranked[..if |ranked| < TOP_INFRA then |ranked| else TOP_INFRA];
    PrefixIsTop(infra, ranked, top, links);
  }

  lemma RankedOutranks(infra: map<string, nat>, ranked: seq<string>, links: seq<Edge>, i: nat, j: nat)
    requires forall v :: v in infra <==> Occurrences(links, v) > 0
    requires forall v :: v in infra ==> infra[v] == Occurrences(links, v)
    requires InOrder(Ranking(infra), ranked) && i < j < |ranked| && ranked[i] != ranked[j]
    requires ranked[i] in infra && ranked[j] in infra
    ensures Outranks(links, ranked[i], ranked[j])
  {
    var u, v := ranked[i], ranked[j];
    assert !Ranking(infra)(v, u);
    BetterIsStrict(infra[u], u, infra[v], v);
  }

  lemma PrefixIsTop(infra: map<string, nat>, ranked: seq<string>, top: seq<string>, links: seq<Edge>)
    requires forall v :: v in infra <==> Occurrences(links, v) > 0
    requires forall v :: v in infra ==> infra[v] == Occurrences(links, v)
    requires InOrder(Ranking(infra), ranked)
    requires forall i, j :: 0 <= i < j < |ranked| ==> ranked[i] != ranked[j]
    requires forall v :: v in ranked <==> v in infra
    requires top == ranked[..if |ranked| < TOP_INFRA then |ranked| else TOP_INFRA]
    ensures IsTop(top, links)
  {
    forall i, j | 0 <= i < j < |top| ensures Outranks(links, top[i], top[j]) {
      RankedOutranks(infra, ranked, links, i, j);
    }
    forall v | Occurrences(links, v) > 0 && v !in top
      ensures |top| == TOP_INFRA && forall i :: 0 <= i < |top| ==> Outranks(links, top[i], v)
    {
      var j :| 0 <= j < |ranked| && ranked[j] == v;
      forall i | 0 <= i < |top| ensures Outranks(links, top[i], v) {
        RankedOutranks(infra, ranked, links, i, j);
      }
    }
  }

  predicate Below(x: Actor, y: Actor) { x < y }

  // The Crew(...) record of one aggregate.
  method MakeCrew(agg: Agg, ghost edges: seq<Edge>) returns (crew: Crew)
    requires AggFits(agg, LinksIn(edges, agg.members))
    ensures Describes(crew, edges, agg.members)
  {
    var top := TopInfra(agg.infra, agg.links);
    var listed := Listing(agg.members);
    var members := Sort(Below, listed);
    SortInOrder(Below, listed);
    DistinctListing(members, agg.members);
    var links := Sort(Stronger, agg.links);
    SortInOrder(Stronger, agg.links);
    forall x: Edge ensures Ties(Stronger, x, links) == Ties(Stronger, x, agg.links) { SortIsStable(Stronger, agg.links, x); }
    crew := Crew(members, top, agg.edges, Round4(agg.maxScore), links);
  }

  // crews[i] describes the class named from[i]; every large class met so far is among them.
  ghost predicate Emitted(crews: seq<Crew>, from: seq<Actor>, met: seq<Actor>, edges: seq<Edge>) {
    var cls := ClassesOf(edges);
    && |from| == |crews|
    && (forall i :: 0 <= i < |crews| ==> from[i] in met && |ClassMembers(cls, from[i])| >= 2)
    && (forall i :: 0 <= i < |crews| ==> Describes(crews[i], edges, ClassMembers(cls, from[i])))
    && (forall i, j :: 0 <= i < j < |from| ==> from[i] != from[j])
    && (forall r :: r in met && |ClassMembers(cls, r)| >= 2 ==> r in from)
  }

  lemma EmitMore(crews: seq<Crew>, from: seq<Actor>, met: seq<Actor>, edges: seq<Edge>, r: Actor, crew: Crew)
    requires Emitted(crews, from, met, edges) && r !in met
    requires |ClassMembers(ClassesOf(edges), r)| >= 2 && Describes(crew, edges, ClassMembers(ClassesOf(edges), r))
    ensures Emitted(crews + [crew], from + [r], met + [r], edges)
  {
    forall q | q in met + [r] && |ClassMembers(ClassesOf(edges), q)| >= 2 ensures q in from + [r] {
      if q != r { assert q in met; }
    }
  }

  lemma MembersListed(crew: Crew, edges: seq<Edge>, members: set<Actor>, x: Actor)
    requires Describes(crew, edges, members)
    ensures x in crew.members <==> x in members
  {
    DistinctListing(crew.members, members);
  }

  lemma EmittedApart(crews: seq<Crew>, from: seq<Actor>, met: seq<Actor>, edges: seq<Edge>, i: nat, j: nat)
    requires Emitted(crews, from, met, edges) && i < j < |crews|
    ensures Disjoint(crews[i], crews[j]) && crews[i] != crews[j]
  {
    var cls := ClassesOf(edges);
    forall x | x in crews[i].members ensures x !in crews[j].members {
      MembersListed(crews[i], edges, ClassMembers(cls, from[i]), x);
      MembersListed(crews[j], edges, ClassMembers(cls, from[j]), x);
    }
    var x := SomeMember(ClassMembers(cls, from[i]));
    MembersListed(crews[i], edges, ClassMembers(cls, from[i]), x);
  }

  // Rearranging pairwise different, pairwise disjoint crews keeps them disjoint.
  lemma RearrangedApart(crews: seq<Crew>, sorted: seq<Crew>, i: nat, j: nat)
    requires multiset(crews) == multiset(sorted) && i < j < |sorted|
    requires forall k, l :: 0 <= k < l < |crews| ==> Disjoint(crews[k], crews[l]) && crews[k] != crews[l]
    ensures Disjoint(sorted[i], sorted[j])
  {
    var all := set c | c in crews;
    DistinctMultiset(crews);
    DistinctListing(sorted, all);
    SameElements(crews, sorted, sorted[i]);
    SameElements(crews, sorted, sorted[j]);
    var k :| 0 <= k < |crews| && crews[k] == sorted[i];
    var l :| 0 <= l < |crews| && crews[l] == sorted[j];
    if k > l { assert Disjoint(crews[l], crews[k]); }
  }

  lemma CrewExists(crews: seq<Crew>, from: seq<Actor>, met: seq<Actor>, edges: seq<Edge>, x: Actor)
    requires Emitted(crews, from, met, edges) && InGroup(edges, x)
    requires forall r :: r in met <==> r in Heads(ClassesOf(edges), edges)
    ensures HasCrew(crews, x)
  {
    var cls := ClassesOf(edges);
    ClassesCoverEndpoints(edges);
    ComponentIsClass(edges, x);
    var e :| e in edges && (e.a == x || e.b == x);
    EdgesShareClass(edges, e);
    assert cls[x] in met;
    var i :| 0 <= i < |from| && from[i] == cls[x];
    MembersListed(crews[i], edges, ClassMembers(cls, from[i]), x);
    assert crews[i] in crews;
  }

  lemma CrewIsReal(crews: seq<Crew>, from: seq<Actor>, met: seq<Actor>, edges: seq<Edge>, i: nat)
    requires Emitted(crews, from, met, edges) && i < |crews|
    ensures IsSomeCrew(edges, crews[i])
  {
    var x := SomeMember(ClassMembers(ClassesOf(edges), from[i]));
    ClassesCoverEndpoints(edges);
    ComponentIsClass(edges, x);
    assert IsCrewOf(edges, crews[i], x);
  }

  lemma {:induction false} FirstLinkIsFirst(edges: seq<Edge>, crew: Crew, cls: Classes, r: Actor)
    requires forall x :: x in crew.members <==> x in cls && cls[x] == r
    ensures FirstLink(edges, crew) == FirstOf(edges, cls, r)
  {
    if edges != [] { FirstLinkIsFirst(edges[1..], crew, cls, r); }
  }

  lemma MetInOrder(crews: seq<Crew>, from: seq<Actor>, met: seq<Actor>, edges: seq<Edge>, i: nat, j: nat)
    requires Emitted(crews, from, met, edges) && KeysInOrder(from, ClassesOf(edges), edges) && i < j < |crews|
    ensures MetBefore(edges)(crews[i], crews[j])
  {
    var cls := ClassesOf(edges);
    forall x ensures x in crews[i].members <==> x in cls && cls[x] == from[i] {
      MembersListed(crews[i], edges, ClassMembers(cls, from[i]), x);
    }
    forall x ensures x in crews[j].members <==> x in cls && cls[x] == from[j] {
      MembersListed(crews[j], edges, ClassMembers(cls, from[j]), x);
    }
    FirstLinkIsFirst(edges, crews[i], cls, from[i]);
    FirstLinkIsFirst(edges, crews[j], cls, from[j]);
  }

  lemma FromOrderMore(from: seq<Actor>, keys: seq<Actor>, k: nat, cls: Classes, edges: seq<Edge>)
    requires KeysInOrder(keys, cls, edges) && k < |keys| && KeysInOrder(from, cls, edges)
    requires forall r :: r in from ==> r in keys[..k]
    ensures KeysInOrder(from + [keys[k]], cls, edges)
  {
    forall i | 0 <= i < |from| ensures FirstOf(edges, cls, from[i]) < FirstOf(edges, cls, keys[k]) {
      assert from[i] in from;
      var j :| 0 <= j < |keys[..k]| && keys[..k][j] == from[i];
    }
  }

  lemma FromIsMet(crews: seq<Crew>, from: seq<Actor>, met: seq<Actor>, edges: seq<Edge>)
    requires Emitted(crews, from, met, edges)
    ensures forall r :: r in from ==> r in met
  {
  }

  lemma SortedCrewList(crews: seq<Crew>, from: seq<Actor>, met: seq<Actor>, edges: seq<Edge>)
    requires Emitted(crews, from, met, edges) && KeysInOrder(from, ClassesOf(edges), edges)
    requires forall r :: r in met <==> r in Heads(ClassesOf(edges), edges)
    ensures IsCrewList(edges, Sort(CrewBefore, crews))
  {
    var sorted := Sort(CrewBefore, crews);
    SortInOrder(CrewBefore, crews);
    forall i | 0 <= i < |sorted| ensures IsSomeCrew(edges, sorted[i]) {
      SameElements(crews, sorted, sorted[i]);
      var k :| 0 <= k < |crews| && crews[k] == sorted[i];
      CrewIsReal(crews, from, met, edges, k);
    }
    forall x | InGroup(edges, x) ensures HasCrew(sorted, x) {
      CrewExists(crews, from, met, edges, x);
      var crew :| crew in crews && x in crew.members;
      SameElements(crews, sorted, crew);
    }
    forall k, l | 0 <= k < l < |crews| ensures Disjoint(crews[k], crews[l]) && crews[k] != crews[l] {
      EmittedApart(crews, from, met, edges, k, l);
    }
    forall i, j | 0 <= i < j < |crews| ensures MetBefore(edges)(crews[i], crews[j]) {
      MetInOrder(crews, from, met, edges, i, j);
    }
    SortKeepsOrder(CrewBefore, MetBefore(edges), crews);
    forall i, j | 0 <= i < j < |sorted| ensures Disjoint(sorted[i], sorted[j]) {
      RearrangedApart(crews, sorted, i, j);
    }
  }

  lemma EmitNothing(crews: seq<Crew>, from: seq<Actor>, met: seq<Actor>, edges: seq<Edge>, r: Actor)
    requires Emitted(crews, from, met, edges) && |ClassMembers(ClassesOf(edges), r)| < 2
    ensures Emitted(crews, from, met + [r], edges)
  {
  }

  // One round of the third loop: a crew, unless the component has a single member.
  method Emit(agg: Agg, ghost r: Actor, found: seq<Crew>, ghost from: seq<Actor>, ghost met: seq<Actor>, ghost edges: seq<Edge>)
    returns (more: seq<Crew>, ghost moreFrom: seq<Actor>)
    requires Emitted(found, from, met, edges) && r !in met && r in Heads(ClassesOf(edges), edges)
    requires AggFits(agg, LinksIn(edges, ClassMembers(ClassesOf(edges), r)))
    ensures Emitted(more, moreFrom, met + [r], edges)
    ensures moreFrom == from || moreFrom == from + [r]
  {
    EndsOfClass(edges, r);
    if |agg.members| >= 2 {
      var crew := MakeCrew(agg, edges);
      EmitMore(found, from, met, edges, r, crew);
      more, moreFrom := found + [crew], from + [r];
    } else {
      EmitNothing(found, from, met, edges, r);
      more, moreFrom := found, from;
    }
  }

  /** build_crews */
  method BuildCrews(edges: seq<Edge>) returns (crews: seq<Crew>)
    ensures IsCrewList(edges, crews)
  {
    var forest := UnionAll(edges);
    var aggs, keys := Aggregate(forest, edges);
    DistinctListing(keys, aggs.Keys);
    var found: seq<Crew> := [];
    ghost var from := [];
    for k := 0 to |keys|
      invariant Emitted(found, from, keys[..k], edges) && KeysInOrder(from, ClassesOf(edges), edges)
    {
      assert keys[..k + 1] == keys[..k] + [keys[k]];
      FromIsMet(found, from, keys[..k], edges);
      FromOrderMore(from, keys, k, ClassesOf(edges), edges);
      found, from := Emit(aggs[keys[k]], keys[k], found, from, keys[..k], edges);
    }
    assert keys[..|keys|] == keys;
    SortedCrewList(found, from, keys, edges);
    crews := Sort(CrewBefore, found);
  }
}
