/** A crew list read without its sort keys: which crew, link and indicator comes first, and what the
    numbers of a crew say about its links. */
module CrewOrder {
  import opened UnionFind
  import opened Components
  import opened Sorting
  import opened Rounding
  import opened Crews
  import opened CrewProperties

  /** Crews stand by falling size and, among equally large ones, by falling peak score. */
  lemma LargestFirst(edges: seq<Edge>, crews: seq<Crew>, i: nat, j: nat)
    requires IsCrewList(edges, crews) && i < j < |crews|
    ensures |crews[i].members| >= |crews[j].members|
    ensures |crews[i].members| == |crews[j].members| ==> crews[i].maxScore >= crews[j].maxScore
  {
  }

  // The edge at position k starts in the crew, and none before it does.
  ghost predicate MeetsFirstAt(edges: seq<Edge>, crew: Crew, k: nat) {
    k < |edges| && edges[k].a in crew.members && forall l :: 0 <= l < k ==> edges[l].a !in crew.members
  }

  lemma {:induction false} FirstLinkMeets(edges: seq<Edge>, crew: Crew)
    requires FirstLink(edges, crew) < |edges|
    ensures MeetsFirstAt(edges, crew, FirstLink(edges, crew))
  {
    if edges[0].a !in crew.members {
      FirstLinkMeets(edges[1..], crew);
      var k := FirstLink(edges[1..], crew);
      assert edges[k + 1] == edges[1..][k];
      forall l | 0 <= l < k + 1 ensures edges[l].a !in crew.members {
        if l > 0 { assert edges[l] == edges[1..][l - 1]; }
      }
    }
  }

  lemma {:induction false} FirstLinkWithin(edges: seq<Edge>, crew: Crew)
    ensures FirstLink(edges, crew) <= |edges|
  {
    if edges != [] && edges[0].a !in crew.members { FirstLinkWithin(edges[1..], crew); }
  }

  /** Crews that tie stand in the order in which the input first starts an edge in them. */
  lemma TiesByFirstEdge(edges: seq<Edge>, crews: seq<Crew>, i: nat, j: nat) returns (k: nat)
    requires IsCrewList(edges, crews) && i < j < |crews|
    requires |crews[i].members| == |crews[j].members| && crews[i].maxScore == crews[j].maxScore
    ensures MeetsFirstAt(edges, crews[i], k) && forall l :: 0 <= l <= k ==> edges[l].a !in crews[j].members
  {
    k := FirstLink(edges, crews[i]);
    assert Tied(CrewBefore, crews[i], crews[j]);
    assert k < FirstLink(edges, crews[j]);
    FirstLinkWithin(edges, crews[j]);
    FirstLinkMeets(edges, crews[i]);
    NoneBefore(edges, crews[j], k);
  }

  lemma {:induction false} NoneBefore(edges: seq<Edge>, crew: Crew, k: nat)
    requires k < |edges| && k < FirstLink(edges, crew)
    ensures forall l :: 0 <= l <= k ==> edges[l].a !in crew.members
  {
    if k > 0 {
      NoneBefore(edges[1..], crew, k - 1);
      forall l | 0 <= l <= k ensures edges[l].a !in crew.members {
        if l > 0 { assert edges[l] == edges[1..][l - 1]; }
      }
    }
  }

  // ----- One crew -----

  lemma CrewDescribed(edges: seq<Edge>, crews: seq<Crew>, crew: Crew) returns (members: set<Actor>)
    requires IsCrewList(edges, crews) && crew in crews
    ensures Describes(crew, edges, members) && |members| >= 2
    ensures forall e :: e in LinksIn(edges, members) <==> e in crew.links
  {
    var x := CrewIsComponent(edges, crews, crew);
    members := Component(edges, x);
    var links := LinksIn(edges, members);
    forall e ensures e in links <==> e in crew.links { SameElements(links, crew.links, e); }
  }

  lemma {:induction false} PeakIsMost(links: seq<Edge>)
    ensures forall e :: e in links ==> e.score <= PeakScore(links)
    ensures PeakScore(links) == 0.0 || exists e :: e in links && e.score == PeakScore(links)
    ensures PeakScore(links) >= 0.0
  {
    if links != [] {
      var n := |links| - 1;
      PeakIsMost(links[..n]);
      assert links == links[..n] + [links[n]];
      assert links[n] in links;
      if PeakScore(links[..n]) != 0.0 {
        var e :| e in links[..n] && e.score == PeakScore(links[..n]);
        assert e in links;
      }
    }
  }

  lemma FirstIsStrongest(sorted: seq<Edge>, links: seq<Edge>)
    requires sorted != [] && forall e :: e in links <==> e in sorted
    requires forall i, j :: 0 <= i < j < |sorted| ==> sorted[i].score >= sorted[j].score
    ensures PeakScore(links) == if sorted[0].score > 0.0 then sorted[0].score else 0.0
  {
    PeakIsMost(links);
    FirstIsMember(sorted);
    assert sorted[0] in links;
    if PeakScore(links) != 0.0 {
      var e :| e in links && e.score == PeakScore(links);
      var i :| 0 <= i < |sorted| && sorted[i] == e;
    }
  }

  /** The peak score of a crew is its strongest link's, rounded, and that link comes first; a crew
      without a positive score has peak zero. */
  lemma PeakIsStrongest(edges: seq<Edge>, crews: seq<Crew>, crew: Crew)
    requires IsCrewList(edges, crews) && crew in crews
    ensures crew.links != [] && crew.maxScore == Round4(if crew.links[0].score > 0.0 then crew.links[0].score else 0.0)
    ensures forall i, j :: 0 <= i < j < |crew.links| ==> crew.links[i].score >= crew.links[j].score
  {
    var members := CrewDescribed(edges, crews, crew);
    CrewHasLink(edges, crews, crew);
    FirstIsStrongest(crew.links, LinksIn(edges, members));
  }

  lemma CrewHasLink(edges: seq<Edge>, crews: seq<Crew>, crew: Crew)
    requires IsCrewList(edges, crews) && crew in crews
    ensures crew.links != []
  {
    var x := CrewIsComponent(edges, crews, crew);
    assert IsEndpoint(edges, x);
    ConnectedSelf(edges, x);
    var e :| e in edges && (e.a == x || e.b == x);
    ConnectedByEdge(edges, e);
    ConnectedSymmetric(edges, e.a, e.b);
    assert IsEndpoint(edges, e.a);
    assert e.a in crew.members;
    LinksPartitionEdges(edges, crews, crew, e);
    assert multiset(edges)[e] > 0;
    assert multiset(crew.links)[e] > 0;
  }

  // All indicators of all links, one after the other.
  function AllShared(links: seq<Edge>): seq<string> {
    if links == [] then [] else AllShared(links[..|links| - 1]) + links[|links| - 1].shared
  }

  lemma {:induction false} OccurrencesAreShared(links: seq<Edge>, v: string)
    ensures Occurrences(links, v) == multiset(AllShared(links))[v]
  {
    if links != [] { OccurrencesAreShared(links[..|links| - 1], v); }
  }

  // How often the links name an indicator.
  function Named(links: seq<Edge>, v: string): nat { multiset(AllShared(links))[v] }

  // u goes before v: named more often, or as often and first in string order.
  ghost predicate MoreShared(links: seq<Edge>, u: string, v: string) {
    Named(links, u) > Named(links, v) || (Named(links, u) == Named(links, v) && ComesBefore(u, v))
  }

  lemma OutranksExactlyWhen(links: seq<Edge>, u: string, v: string)
    ensures Outranks(links, u, v) <==> MoreShared(links, u, v)
  {
    OccurrencesAreShared(links, u);
    OccurrencesAreShared(links, v);
    LexLessExactlyWhen(u, v);
  }

  lemma TopStaysTop(top: seq<string>, links: seq<Edge>, moved: seq<Edge>)
    requires IsTop(top, links) && multiset(links) == multiset(moved)
    ensures IsTop(top, moved)
  {
    forall v ensures Occurrences(moved, v) == Occurrences(links, v) { OccurrencesPermuted(moved, links, v); }
  }

  lemma TopRead(top: seq<string>, links: seq<Edge>)
    requires IsTop(top, links)
    ensures |top| <= 8
    ensures forall i :: 0 <= i < |top| ==> Named(links, top[i]) > 0
    ensures forall i, j :: 0 <= i < j < |top| ==> MoreShared(links, top[i], top[j])
    ensures forall v, i :: Named(links, v) > 0 && v !in top && 0 <= i < |top| ==> MoreShared(links, top[i], v)
    ensures forall v :: Named(links, v) > 0 && v !in top ==> |top| == 8
  {
    forall v ensures Named(links, v) == Occurrences(links, v) { OccurrencesAreShared(links, v); }
    forall u, v ensures Outranks(links, u, v) <==> MoreShared(links, u, v) { OutranksExactlyWhen(links, u, v); }
  }

  /** The top list of a crew: at most eight indicators that its links name, by how often they do and
      then in string order; one is left out only when there are eight that go before it. */
  lemma TopIsMostShared(edges: seq<Edge>, crews: seq<Crew>, crew: Crew)
    requires IsCrewList(edges, crews) && crew in crews
    ensures |crew.topInfra| <= 8
    ensures forall i :: 0 <= i < |crew.topInfra| ==> Named(crew.links, crew.topInfra[i]) > 0
    ensures forall i, j :: 0 <= i < j < |crew.topInfra| ==> MoreShared(crew.links, crew.topInfra[i], crew.topInfra[j])
    ensures forall v, i :: Named(crew.links, v) > 0 && v !in crew.topInfra && 0 <= i < |crew.topInfra| ==>
              MoreShared(crew.links, crew.topInfra[i], v)
    ensures forall v :: Named(crew.links, v) > 0 && v !in crew.topInfra ==> |crew.topInfra| == 8
  {
    var members := CrewDescribed(edges, crews, crew);
    TopStaysTop(crew.topInfra, LinksIn(edges, members), crew.links);
    TopRead(crew.topInfra, crew.links);
  }

  // ----- Links of equal score -----

  // The edges of one score that start in some actors, in the order they stand.
  function OfScore(edges: seq<Edge>, members: seq<Actor>, score: real): seq<Edge> {
    if edges == [] then []
    else (if edges[0].a in members && edges[0].score == score then [edges[0]] else []) + OfScore(edges[1..], members, score)
  }

  lemma {:induction false} TiesAreOfScore(links: seq<Edge>, members: seq<Actor>, x: Edge)
    requires forall e :: e in links ==> e.a in members
    ensures Ties(Stronger, x, links) == OfScore(links, members, x.score)
  {
    if links != [] {
      assert links[0] in links;
      TiesAreOfScore(links[1..], members, x);
    }
  }

  lemma {:induction false} OfScoreMore(edges: seq<Edge>, e: Edge, members: seq<Actor>, score: real)
    ensures OfScore(edges + [e], members, score)
            == OfScore(edges, members, score) + if e.a in members && e.score == score then [e] else []
  {
    if edges == [] {
      assert [] + [e] == [e] && [e][1..] == [];
    } else {
      assert (edges + [e])[1..] == edges[1..] + [e];
      OfScoreMore(edges[1..], e, members, score);
    }
  }

  lemma {:induction false} OfScoreOfLinks(edges: seq<Edge>, members: set<Actor>, listed: seq<Actor>, score: real)
    requires forall x :: x in listed <==> x in members
    ensures OfScore(LinksIn(edges, members), listed, score) == OfScore(edges, listed, score)
  {
    if edges != [] {
      var n := |edges| - 1;
      assert edges == edges[..n] + [edges[n]];
      OfScoreOfLinks(edges[..n], members, listed, score);
      OfScoreMore(edges[..n], edges[n], listed, score);
      OfScoreMore(LinksIn(edges[..n], members), edges[n], listed, score);
    }
  }

  lemma DescribedTies(crew: Crew, edges: seq<Edge>, members: set<Actor>, x: Edge)
    requires Describes(crew, edges, members)
    ensures Ties(Stronger, x, crew.links) == Ties(Stronger, x, LinksIn(edges, members))
  {
  }

  lemma LinkStarts(crew: Crew, edges: seq<Edge>, members: set<Actor>, e: Edge)
    requires Describes(crew, edges, members)
    ensures e in crew.links <==> e in LinksIn(edges, members)
    ensures e in crew.links ==> e.a in crew.members
  {
    SameElements(crew.links, LinksIn(edges, members), e);
    LinksInMembership(edges, members, e);
    MembersListed(crew, edges, members, e.a);
  }

  lemma DescribedOfScore(crew: Crew, edges: seq<Edge>, members: set<Actor>, x: Edge)
    requires Describes(crew, edges, members)
    ensures OfScore(crew.links, crew.members, x.score) == OfScore(edges, crew.members, x.score)
  {
    forall e ensures (e in crew.links <==> e in LinksIn(edges, members)) && (e in crew.links ==> e.a in crew.members) {
      LinkStarts(crew, edges, members, e);
    }
    forall y ensures y in crew.members <==> y in members { MembersListed(crew, edges, members, y); }
    TiesAreOfScore(LinksIn(edges, members), crew.members, x);
    TiesAreOfScore(crew.links, crew.members, x);
    DescribedTies(crew, edges, members, x);
    OfScoreOfLinks(edges, members, crew.members, x.score);
  }

  /** Links of equal score stand as the input has them: those of any score, in order, are the edges of
      that score that start in the crew. */
  lemma EqualScoresKeepInputOrder(edges: seq<Edge>, crews: seq<Crew>, crew: Crew, score: real)
    requires IsCrewList(edges, crews) && crew in crews
    ensures OfScore(crew.links, crew.members, score) == OfScore(edges, crew.members, score)
  {
    var x := CrewIsComponent(edges, crews, crew);
    DescribedOfScore(crew, edges, Component(edges, x), Edge(0, 0, score, []));
  }
}
