/** What a crew list means to its reader, and that edge order does not matter. */
module CrewProperties {
  import opened UnionFind
  import opened Components
  import opened Sorting
  import opened Crews

  lemma CrewIsComponent(edges: seq<Edge>, crews: seq<Crew>, crew: Crew) returns (x: Actor)
    requires IsCrewList(edges, crews) && crew in crews
    ensures IsCrewOf(edges, crew, x)
    ensures forall y :: y in crew.members <==> IsEndpoint(edges, y) && Connected(edges, x, y)
  {
    var i :| 0 <= i < |crews| && crews[i] == crew;
    assert IsSomeCrew(edges, crews[i]);
    x :| IsCrewOf(edges, crew, x);
    ClassesCoverEndpoints(edges);
    forall y ensures y in crew.members <==> IsEndpoint(edges, y) && Connected(edges, x, y) {
      MembersListed(crew, edges, Component(edges, x), y);
    }
  }

  /** Two actors are in the same crew exactly when a chain of input edges joins them. */
  lemma SameCrewIffConnected(edges: seq<Edge>, crews: seq<Crew>, crew: Crew, y: Actor, z: Actor)
    requires IsCrewList(edges, crews) && crew in crews && y in crew.members
    ensures z in crew.members <==> Connected(edges, y, z) && IsEndpoint(edges, z)
  {
    var x := CrewIsComponent(edges, crews, crew);
    ConnectedSymmetric(edges, x, y);
    if Connected(edges, y, z) { ConnectedTransitive(edges, x, y, z); }
    if Connected(edges, x, z) { ConnectedTransitive(edges, y, x, z); }
  }

  /** Every edge between two different actors, and every self-loop of an actor with other links, lies
      in a crew, and in one crew only. */
  lemma EdgeHasOneCrew(edges: seq<Edge>, crews: seq<Crew>, e: Edge) returns (crew: Crew)
    requires IsCrewList(edges, crews) && e in edges && (e.a != e.b || InGroup(edges, e.a))
    ensures crew in crews && e.a in crew.members && e.b in crew.members
    ensures forall other :: other in crews && (e.a in other.members || e.b in other.members) ==> other == crew
  {
    ClassesCoverEndpoints(edges);
    ConnectedSelf(edges, e.a);
    ConnectedByEdge(edges, e);
    assert IsEndpoint(edges, e.a) && IsEndpoint(edges, e.b);
    if e.a != e.b { TwoInComponent(Component(edges, e.a), e.a, e.b); }
    assert InGroup(edges, e.a);
    assert HasCrew(crews, e.a);
    crew :| crew in crews && e.a in crew.members;
    SameCrewIffConnected(edges, crews, crew, e.a, e.b);
    forall other | other in crews && (e.a in other.members || e.b in other.members) ensures other == crew {
      CrewsApart(crews, crew, other, if e.a in other.members then e.a else e.b, edges);
    }
  }

  lemma TwoInComponent(c: set<Actor>, x: Actor, y: Actor)
    requires x in c && y in c && x != y
    ensures |c| >= 2
  {
    assert {x, y} <= c;
    var rest := c - {x};
    assert y in rest;
    assert c == rest + {x};
  }

  lemma CrewsApart(crews: seq<Crew>, c: Crew, d: Crew, x: Actor, edges: seq<Edge>)
    requires IsCrewList(edges, crews) && c in crews && d in crews && x in c.members && x in d.members
    ensures c == d
  {
    var i :| 0 <= i < |crews| && crews[i] == c;
    var j :| 0 <= j < |crews| && crews[j] == d;
    SamePlace(crews, i, j, x);
  }

  lemma ApartPlaces(crews: seq<Crew>, i: nat, j: nat, x: Actor)
    requires forall k, l :: 0 <= k < l < |crews| ==> Disjoint(crews[k], crews[l])
    requires i < j < |crews|
    ensures !(x in crews[i].members && x in crews[j].members)
  {
    assert Disjoint(crews[i], crews[j]);
  }

  lemma SamePlace(crews: seq<Crew>, i: nat, j: nat, x: Actor)
    requires forall k, l :: 0 <= k < l < |crews| ==> Disjoint(crews[k], crews[l])
    requires i < |crews| && j < |crews| && x in crews[i].members && x in crews[j].members
    ensures i == j
  {
    if i < j { ApartPlaces(crews, i, j, x); }
    if j < i { ApartPlaces(crews, j, i, x); }
  }

  lemma {:induction false} LinksInCount(edges: seq<Edge>, members: set<Actor>, e: Edge)
    ensures multiset(LinksIn(edges, members))[e] == if e.a in members then multiset(edges)[e] else 0
  {
    if edges != [] {
      var n := |edges| - 1;
      assert edges == edges[..n] + [edges[n]];
      LinksInCount(edges[..n], members, e);
    }
  }

  /** Links partition the edges: a crew lists an edge as often as the input does when the edge
      starts in the crew, and never otherwise; edge_count counts them. */
  lemma LinksPartitionEdges(edges: seq<Edge>, crews: seq<Crew>, crew: Crew, e: Edge)
    requires IsCrewList(edges, crews) && crew in crews
    ensures multiset(crew.links)[e] == if e.a in crew.members then multiset(edges)[e] else 0
    ensures e in crew.links ==> e.a in crew.members && e.b in crew.members
    ensures crew.edgeCount == |crew.links|
  {
    var x := CrewIsComponent(edges, crews, crew);
    var c := Component(edges, x);
    LinksInCount(edges, c, e);
    MembersListed(crew, edges, c, e.a);
    SameElements(crew.links, LinksIn(edges, c), e);
    if e in crew.links {
      LinksInMembership(edges, c, e);
      ConnectedByEdge(edges, e);
      SameCrewIffConnected(edges, crews, crew, e.a, e.b);
      assert IsEndpoint(edges, e.b);
    }
  }

  // ----- Edge order does not matter -----

  lemma {:induction false} OccurrencesRemove(links: seq<Edge>, i: nat, v: string)
    requires i < |links|
    ensures Occurrences(links, v) == Occurrences(links[..i] + links[i + 1..], v) + multiset(links[i].shared)[v]
  {
    var n := |links| - 1;
    if i < n {
      OccurrencesRemove(links[..n], i, v);
      assert links[..n][..i] == links[..i] && links[..n][i + 1..] == links[i + 1..n];
      var rest := links[..i] + links[i + 1..];
      assert rest[..|rest| - 1] == links[..i] + links[i + 1..n];
    } else {
      assert links[..i] + links[i + 1..] == links[..n];
    }
  }

  lemma CancelOne<T>(a: multiset<T>, b: multiset<T>, x: T)
    requires a + multiset{x} == b + multiset{x}
    ensures a == b
  {
    forall y ensures a[y] == b[y] {
      assert (a + multiset{x})[y] == (b + multiset{x})[y];
    }
  }

  lemma RemoveSame(s: seq<Edge>, t: seq<Edge>) returns (i: nat)
    requires multiset(s) == multiset(t) && s != []
    ensures i < |t| && t[i] == s[|s| - 1]
    ensures multiset(s[..|s| - 1]) == multiset(t[..i] + t[i + 1..])
  {
    var n := |s| - 1;
    assert s == s[..n] + [s[n]];
    SameElements(s, t, s[n]);
    i :| 0 <= i < |t| && t[i] == s[n];
    assert t == t[..i] + [t[i]] + t[i + 1..];
    assert multiset(t) == multiset(t[..i] + t[i + 1..]) + multiset{s[n]};
    assert multiset(s) == multiset(s[..n]) + multiset{s[n]};
    CancelOne(multiset(s[..n]), multiset(t[..i] + t[i + 1..]), s[n]);
  }

  lemma {:induction false} OccurrencesPermuted(s: seq<Edge>, t: seq<Edge>, v: string)
    requires multiset(s) == multiset(t)
    ensures Occurrences(s, v) == Occurrences(t, v)
  {
    if s == [] {
      assert |t| == |multiset(t)| == 0;
    } else {
      var i := RemoveSame(s, t);
      OccurrencesRemove(t, i, v);
      OccurrencesPermuted(s[..|s| - 1], t[..i] + t[i + 1..], v);
    }
  }

  lemma {:induction false} PeakBounds(links: seq<Edge>)
    ensures PeakScore(links) >= 0.0 && forall e :: e in links ==> e.score <= PeakScore(links)
    ensures PeakScore(links) == 0.0 || exists e :: e in links && e.score == PeakScore(links)
  {
    if links != [] {
      var n := |links| - 1;
      assert links == links[..n] + [links[n]];
      PeakBounds(links[..n]);
      if PeakScore(links) == links[n].score {
        assert links[n] in links;
      } else if PeakScore(links[..n]) != 0.0 {
        var e :| e in links[..n] && e.score == PeakScore(links[..n]);
        assert e in links;
      }
    }
  }

  lemma PeakPermuted(s: seq<Edge>, t: seq<Edge>)
    requires multiset(s) == multiset(t)
    ensures PeakScore(s) == PeakScore(t)
  {
    PeakBounds(s);
    PeakBounds(t);
    forall e ensures e in s <==> e in t { SameElements(s, t, e); }
  }

  // The top list is determined by the occurrence counts.
  lemma TopSame(top: seq<string>, other: seq<string>, s: seq<Edge>, t: seq<Edge>)
    requires IsTop(top, s) && IsTop(other, t) && multiset(s) == multiset(t)
    ensures top == other
  {
    forall v ensures Occurrences(s, v) == Occurrences(t, v) { OccurrencesPermuted(s, t, v); }
    TopLength(top, other, s);
    TopLength(other, top, t);
    forall i | 0 <= i < |top| ensures top[i] == other[i] { TopEntry(top, other, s, i); }
  }

  // A list that is not full holds every indicator, so no other list is longer.
  lemma TopLength(top: seq<string>, other: seq<string>, s: seq<Edge>)
    requires IsTop(top, s) && |other| <= TOP_INFRA
    requires forall i :: 0 <= i < |other| ==> Occurrences(s, other[i]) > 0
    requires forall i, j :: 0 <= i < j < |other| ==> Outranks(s, other[i], other[j])
    ensures |other| <= |top|
  {
    if |top| < TOP_INFRA {
      forall i, j | 0 <= i < j < |other| ensures other[i] != other[j] { NotBothRanks(s, other[i], other[j]); }
      forall v | v in other ensures v in top { }
      DistinctInto(other, top);
    }
  }

  lemma {:induction false} DistinctInto<T>(xs: seq<T>, ys: seq<T>)
    requires forall i, j :: 0 <= i < j < |xs| ==> xs[i] != xs[j]
    requires forall x :: x in xs ==> x in ys
    ensures |xs| <= |ys|
  {
    if xs != [] {
      var n := |xs| - 1;
      assert xs[n] in xs;
      var k :| 0 <= k < |ys| && ys[k] == xs[n];
      forall x | x in xs[..n] ensures x in ys[..k] + ys[k + 1..] {
        assert x in xs;
        var l :| 0 <= l < |ys| && ys[l] == x;
        assert l < k ==> ys[..k][l] == x;
        assert l > k ==> ys[k + 1..][l - k - 1] == x;
      }
      DistinctInto(xs[..n], ys[..k] + ys[k + 1..]);
    }
  }

  lemma NotBothRanks(s: seq<Edge>, u: string, v: string)
    requires Outranks(s, u, v)
    ensures !Outranks(s, v, u) && u != v
  {
    BetterIsStrict(Occurrences(s, u), u, Occurrences(s, v), v);
    LexIsStrict(u, u);
  }

  lemma {:induction false} TopEntry(top: seq<string>, other: seq<string>, s: seq<Edge>, i: nat)
    requires IsTop(top, s) && IsTop(other, s) && |top| == |other| && i < |top|
    ensures top[i] == other[i]
    decreases i
  {
    forall k | 0 <= k < i ensures top[k] == other[k] { TopEntry(top, other, s, k); }
    if top[i] != other[i] {
      NotAhead(top, other, s, i);
      NotAhead(other, top, s, i);
      BetterIsStrict(Occurrences(s, top[i]), top[i], Occurrences(s, other[i]), other[i]);
    }
  }

  // When the lists agree up to i, the entry of one cannot be outranked by a different one of the other.
  lemma NotAhead(top: seq<string>, other: seq<string>, s: seq<Edge>, i: nat)
    requires IsTop(top, s) && IsTop(other, s) && |top| == |other| && i < |top|
    requires top[i] != other[i] && forall k :: 0 <= k < i ==> top[k] == other[k]
    ensures !Outranks(s, top[i], other[i])
  {
    if Outranks(s, top[i], other[i]) {
      var v := top[i];
      if v in other {
        var j :| 0 <= j < |other| && other[j] == v;
        if j < i {
          NotBothRanks(s, top[j], top[i]);
        } else {
          assert Outranks(s, other[i], other[j]);
          NotBothRanks(s, v, other[i]);
        }
      } else {
        assert Outranks(s, other[i], v);
        NotBothRanks(s, v, other[i]);
      }
    }
  }

  lemma SortedListsAgree(xs: seq<Actor>, ys: seq<Actor>, s: set<Actor>)
    requires ListsSet(xs, s) && ListsSet(ys, s)
    ensures xs == ys
  {
    DistinctListing(xs, s);
    DistinctListing(ys, s);
    SortedUnique(xs, ys);
  }

  lemma {:induction false} SortedUnique(xs: seq<Actor>, ys: seq<Actor>)
    requires forall i, j :: 0 <= i < j < |xs| ==> xs[i] < xs[j]
    requires forall i, j :: 0 <= i < j < |ys| ==> ys[i] < ys[j]
    requires forall x :: x in xs <==> x in ys
    ensures xs == ys
  {
    if xs != [] && ys != [] {
      assert xs[0] in ys && ys[0] in xs;
      assert xs[0] == ys[0];
      forall x ensures x in xs[1..] <==> x in ys[1..] {
        assert x in xs[1..] <==> x in xs && x != xs[0];
        assert x in ys[1..] <==> x in ys && x != ys[0];
      }
      SortedUnique(xs[1..], ys[1..]);
      assert xs == [xs[0]] + xs[1..] && ys == [ys[0]] + ys[1..];
    } else {
      if xs != [] { FirstIsMember(xs); }
      if ys != [] { FirstIsMember(ys); }
    }
  }

  lemma ComponentPermuted(edges: seq<Edge>, other: seq<Edge>, x: Actor)
    requires multiset(edges) == multiset(other)
    ensures Component(edges, x) == Component(other, x) && (IsEndpoint(edges, x) ==> IsEndpoint(other, x))
  {
    forall e ensures e in edges <==> e in other { SameElements(edges, other, e); }
    ClassesCoverEndpoints(edges);
    ClassesCoverEndpoints(other);
    forall y ensures y in Component(edges, x) <==> y in Component(other, x) {
      if Connected(edges, x, y) { ConnectedMonotone(edges, other, x, y); }
      if Connected(other, x, y) { ConnectedMonotone(other, edges, x, y); }
      if IsEndpoint(edges, y) { EndpointMonotone(edges, other, y); }
      if IsEndpoint(other, y) { EndpointMonotone(other, edges, y); }
    }
    if IsEndpoint(edges, x) { EndpointMonotone(edges, other, x); }
  }

  // Two records of the same component from rearranged edges agree on everything but link ties.
  lemma RecordsAgree(crew: Crew, other: Crew, edges: seq<Edge>, moved: seq<Edge>, c: set<Actor>)
    requires Describes(crew, edges, c) && Describes(other, moved, c) && multiset(edges) == multiset(moved)
    ensures crew.members == other.members && crew.topInfra == other.topInfra
    ensures crew.edgeCount == other.edgeCount && crew.maxScore == other.maxScore
    ensures multiset(crew.links) == multiset(other.links)
  {
    var s, t := LinksIn(edges, c), LinksIn(moved, c);
    forall e ensures multiset(s)[e] == multiset(t)[e] {
      LinksInCount(edges, c, e);
      LinksInCount(moved, c, e);
    }
    assert multiset(s) == multiset(t);
    assert |s| == |multiset(s)| == |multiset(t)| == |t|;
    SortedListsAgree(crew.members, other.members, c);
    PeakPermuted(s, t);
    TopSame(crew.topInfra, other.topInfra, s, t);
  }

  /** Feeding the same edges in another order yields, crew by crew, the same members, top indicators,
      counts and peak scores, and the same links as a multiset. */
  lemma EdgeOrderIrrelevant(edges: seq<Edge>, moved: seq<Edge>, crews: seq<Crew>, others: seq<Crew>, crew: Crew)
    returns (other: Crew)
    requires multiset(edges) == multiset(moved)
    requires IsCrewList(edges, crews) && IsCrewList(moved, others) && crew in crews
    ensures other in others
    ensures crew.members == other.members && crew.topInfra == other.topInfra
    ensures crew.edgeCount == other.edgeCount && crew.maxScore == other.maxScore
    ensures multiset(crew.links) == multiset(other.links)
  {
    var x := CrewIsComponent(edges, crews, crew);
    ComponentPermuted(edges, moved, x);
    assert InGroup(moved, x);
    assert HasCrew(others, x);
    other :| other in others && x in other.members;
    var y := CrewIsComponent(moved, others, other);
    ClassesCoverEndpoints(moved);
    ComponentIsClass(moved, x);
    ComponentIsClass(moved, y);
    ClassesAreComponents(moved, y, x);
    RecordsAgree(crew, other, edges, moved, Component(moved, x));
  }

  // ----- How many crews, and how many edges they hold -----

  function MemberLists(crews: seq<Crew>): (r: seq<seq<Actor>>)
    ensures |r| == |crews| && forall i :: 0 <= i < |crews| ==> r[i] == crews[i].members
  {
    seq(|crews|, i requires 0 <= i < |crews| => crews[i].members)
  }

  lemma MemberListsDiffer(edges: seq<Edge>, crews: seq<Crew>, i: nat, j: nat)
    requires IsCrewList(edges, crews) && i < j < |crews|
    ensures crews[i].members != crews[j].members
  {
    var x := CrewIsComponent(edges, crews, crews[i]);
    ConnectedSelf(edges, x);
    assert x in crews[i].members;
    ApartPlaces(crews, i, j, x);
  }

  lemma MemberListsDistinct(edges: seq<Edge>, crews: seq<Crew>)
    requires IsCrewList(edges, crews)
    ensures forall i, j :: 0 <= i < j < |crews| ==> MemberLists(crews)[i] != MemberLists(crews)[j]
  {
    forall i, j | 0 <= i < j < |crews| ensures MemberLists(crews)[i] != MemberLists(crews)[j] {
      MemberListsDiffer(edges, crews, i, j);
    }
  }

  lemma ListedThere(edges: seq<Edge>, moved: seq<Edge>, crews: seq<Crew>, others: seq<Crew>, i: nat)
    requires multiset(edges) == multiset(moved) && IsCrewList(edges, crews) && IsCrewList(moved, others) && i < |crews|
    ensures MemberLists(crews)[i] in MemberLists(others)
  {
    var other := EdgeOrderIrrelevant(edges, moved, crews, others, crews[i]);
    var j :| 0 <= j < |others| && others[j] == other;
    assert MemberLists(others)[j] == other.members;
  }

  lemma NoMoreLists(xs: seq<seq<Actor>>, ys: seq<seq<Actor>>)
    requires forall i, j :: 0 <= i < j < |xs| ==> xs[i] != xs[j]
    requires forall i :: 0 <= i < |xs| ==> xs[i] in ys
    ensures |xs| <= |ys|
  {
    DistinctInto(xs, ys);
  }

  lemma NoMoreCrews(edges: seq<Edge>, moved: seq<Edge>, crews: seq<Crew>, others: seq<Crew>)
    requires multiset(edges) == multiset(moved) && IsCrewList(edges, crews) && IsCrewList(moved, others)
    ensures |crews| <= |others|
  {
    MemberListsDistinct(edges, crews);
    forall i | 0 <= i < |crews| ensures MemberLists(crews)[i] in MemberLists(others) {
      ListedThere(edges, moved, crews, others, i);
    }
    NoMoreLists(MemberLists(crews), MemberLists(others));
  }

  /** Feeding the same edges in another order yields as many crews. */
  lemma SameNumberOfCrews(edges: seq<Edge>, moved: seq<Edge>, crews: seq<Crew>, others: seq<Crew>)
    requires multiset(edges) == multiset(moved) && IsCrewList(edges, crews) && IsCrewList(moved, others)
    ensures |crews| == |others|
  {
    NoMoreCrews(edges, moved, crews, others);
    NoMoreCrews(moved, edges, others, crews);
  }

  function EdgeCounts(crews: seq<Crew>): nat {
    if crews == [] then 0 else crews[0].edgeCount + EdgeCounts(crews[1..])
  }

  // How many edges start in an actor of some set.
  function StartsIn(edges: seq<Edge>, members: set<Actor>): nat {
    |LinksIn(edges, members)|
  }

  ghost function MembersOf(crews: seq<Crew>): set<Actor> {
    if crews == [] then {} else (set x | x in crews[0].members) + MembersOf(crews[1..])
  }

  lemma {:induction false} MembersOfCrews(crews: seq<Crew>, x: Actor)
    ensures x in MembersOf(crews) <==> HasCrew(crews, x)
  {
    if crews != [] {
      MembersOfCrews(crews[1..], x);
      assert crews == [crews[0]] + crews[1..];
      assert forall c :: c in crews <==> c == crews[0] || c in crews[1..];
    }
  }

  lemma {:induction false} StartsAdd(edges: seq<Edge>, s: set<Actor>, t: set<Actor>)
    requires s !! t
    ensures StartsIn(edges, s + t) == StartsIn(edges, s) + StartsIn(edges, t)
  {
    if edges != [] { StartsAdd(edges[..|edges| - 1], s, t); }
  }

  lemma {:induction false} CountsAdd(edges: seq<Edge>, crews: seq<Crew>)
    requires forall i :: 0 <= i < |crews| ==> crews[i].edgeCount == StartsIn(edges, set x | x in crews[i].members)
    requires forall i, j :: 0 <= i < j < |crews| ==> Disjoint(crews[i], crews[j])
    ensures EdgeCounts(crews) == StartsIn(edges, MembersOf(crews))
  {
    if crews == [] {
      NothingStarts(edges);
    } else {
      var first, rest := (set x | x in crews[0].members), crews[1..];
      assert forall i :: 0 <= i < |rest| ==> rest[i] == crews[i + 1];
      CountsAdd(edges, rest);
      forall x | x in first ensures x !in MembersOf(rest) {
        MembersOfCrews(rest, x);
        if x in MembersOf(rest) { NotInRest(crews, x); }
      }
      StartsAdd(edges, first, MembersOf(rest));
    }
  }

  lemma NotInRest(crews: seq<Crew>, x: Actor)
    requires crews != [] && HasCrew(crews[1..], x)
    requires forall i, j :: 0 <= i < j < |crews| ==> Disjoint(crews[i], crews[j])
    ensures x !in crews[0].members
  {
    var c :| c in crews[1..] && x in c.members;
    var k :| 0 <= k < |crews[1..]| && crews[1..][k] == c;
    assert Disjoint(crews[0], crews[k + 1]);
  }

  lemma {:induction false} NothingStarts(edges: seq<Edge>)
    ensures StartsIn(edges, {}) == 0
  {
    if edges != [] { NothingStarts(edges[..|edges| - 1]); }
  }

  // How many edges belong to components of two or more actors.
  ghost function GroupEdges(all: seq<Edge>, edges: seq<Edge>): nat {
    if edges == [] then 0
    else GroupEdges(all, edges[..|edges| - 1]) + if InGroup(all, edges[|edges| - 1].a) then 1 else 0
  }

  lemma {:induction false} StartsAreGroupEdges(all: seq<Edge>, edges: seq<Edge>, members: set<Actor>)
    requires forall e :: e in edges ==> (e.a in members <==> InGroup(all, e.a))
    ensures StartsIn(edges, members) == GroupEdges(all, edges)
  {
    if edges != [] {
      assert edges[|edges| - 1] in edges;
      StartsAreGroupEdges(all, edges[..|edges| - 1], members);
    }
  }

  lemma CrewsCoverGroups(edges: seq<Edge>, crews: seq<Crew>, x: Actor)
    requires IsCrewList(edges, crews)
    ensures HasCrew(crews, x) <==> InGroup(edges, x)
  {
    if HasCrew(crews, x) {
      var crew :| crew in crews && x in crew.members;
      var y := CrewIsComponent(edges, crews, crew);
      ClassesCoverEndpoints(edges);
      ConnectedSelf(edges, y);
      ComponentIsClass(edges, x);
      ComponentIsClass(edges, y);
      ClassesAreComponents(edges, y, x);
    }
  }

  lemma DescribedCount(edges: seq<Edge>, crew: Crew, c: set<Actor>)
    requires crew.edgeCount == |LinksIn(edges, c)| && multiset(crew.members) == multiset(c)
    ensures crew.edgeCount == StartsIn(edges, set x | x in crew.members)
  {
    DistinctListing(crew.members, c);
    assert (set x | x in crew.members) == c;
  }

  lemma CountIsStarts(edges: seq<Edge>, crews: seq<Crew>, crew: Crew)
    requires IsCrewList(edges, crews) && crew in crews
    ensures crew.edgeCount == StartsIn(edges, set x | x in crew.members)
  {
    var x := CrewIsComponent(edges, crews, crew);
    DescribedCount(edges, crew, Component(edges, x));
  }

  /** The edge counts add up to the edges outside components that are a single actor's self-loops. */
  lemma EdgeCountsAddUp(edges: seq<Edge>, crews: seq<Crew>)
    requires IsCrewList(edges, crews)
    ensures EdgeCounts(crews) == GroupEdges(edges, edges)
  {
    forall i | 0 <= i < |crews| ensures crews[i].edgeCount == StartsIn(edges, set x | x in crews[i].members) {
      CountIsStarts(edges, crews, crews[i]);
    }
    CountsAdd(edges, crews);
    forall e | e in edges ensures e.a in MembersOf(crews) <==> InGroup(edges, e.a) {
      MembersOfCrews(crews, e.a);
      CrewsCoverGroups(edges, crews, e.a);
    }
    StartsAreGroupEdges(edges, edges, MembersOf(crews));
  }
}
