/** propose_infra_edges: an inverted index that agrees with comparing every pair of actors
    (eyenet/linker/infra_linker.py). */
module InfraLinker {
  import opened UnionFind
  import opened Sorting
  import opened Rounding

  type Indicators = map<Actor, set<string>>

  datatype InfraEdge = InfraEdge(a: Actor, b: Actor, score: real, shared: seq<string>)

  const MIN_DF: nat := 2

  // ----- Brute force: what the edges should be -----

  function Carriers(inds: Indicators, v: string): set<Actor> {
    set a | a in inds.Keys && v in inds[a]
  }

  predicate IsLinkable(inds: Indicators, maxDf: int, v: string) {
    MIN_DF <= |Carriers(inds, v)| <= maxDf
  }

  // math.log((n + 1) / (df + 1)) + 1.0
  function Idf(log: real -> real, df: nat, n: nat): real {
    log((n + 1) as real / (df + 1) as real) + 1.0
  }

  function Weight(log: real -> real, inds: Indicators, v: string): real {
    Idf(log, |Carriers(inds, v)|, |inds|)
  }

  function LinkableOf(inds: Indicators, maxDf: int, a: Actor): set<string>
    requires a in inds
  {
    set v | v in inds[a] && IsLinkable(inds, maxDf, v)
  }

  ghost function Total(log: real -> real, inds: Indicators, s: set<string>): real {
    if s == {} then 0.0 else
    var v :| v in s;
    Weight(log, inds, v) + Total(log, inds, s - {v})
  }

  // The unrounded weighted Jaccard score of two actors.
  ghost function Ratio(log: real -> real, inds: Indicators, maxDf: int, a: Actor, b: Actor): real
    requires a in inds && b in inds
  {
    var ia, ib := LinkableOf(inds, maxDf, a), LinkableOf(inds, maxDf, b);
    var den := Total(log, inds, ia + ib);
    if den > 0.0 then Total(log, inds, ia * ib) / den else 0.0
  }

  ghost predicate IsEdge(log: real -> real, inds: Indicators, maxDf: int, floor: real, a: Actor, b: Actor) {
    && a in inds && b in inds && a < b
    && LinkableOf(inds, maxDf, a) * LinkableOf(inds, maxDf, b) != {}
    && Round4(Ratio(log, inds, maxDf, a, b)) >= floor
  }

  ghost predicate IsEdgeRecord(log: real -> real, inds: Indicators, maxDf: int, floor: real, e: InfraEdge) {
    && IsEdge(log, inds, maxDf, floor, e.a, e.b)
    && e.score == Round4(Ratio(log, inds, maxDf, e.a, e.b))
    && IsSortedListing(e.shared, LinkableOf(inds, maxDf, e.a) * LinkableOf(inds, maxDf, e.b))
  }

  // ----- Sums over sets -----

  lemma {:induction false} TotalSplit(log: real -> real, inds: Indicators, s: set<string>, v: string)
    requires v in s
    ensures Total(log, inds, s) == Weight(log, inds, v) + Total(log, inds, s - {v})
  {
    var u :| u in s && Total(log, inds, s) == Weight(log, inds, u) + Total(log, inds, s - {u});
    if u != v {
      TotalSplit(log, inds, s - {u}, v);
      TotalSplit(log, inds, s - {v}, u);
      assert s - {u} - {v} == s - {v} - {u};
    }
  }

  lemma {:induction false} TotalOfUnion(log: real -> real, inds: Indicators, s: set<string>, t: set<string>)
    requires s !! t
    ensures Total(log, inds, s + t) == Total(log, inds, s) + Total(log, inds, t)
  {
    if s == {} {
      assert s + t == t;
    } else {
      var v :| v in s;
      TotalSplit(log, inds, s, v);
      TotalSplit(log, inds, s + t, v);
      assert s + t - {v} == (s - {v}) + t;
      TotalOfUnion(log, inds, s - {v}, t);
    }
  }

  ghost predicate LogIsNonNegative(log: real -> real) {
    forall x: real :: x >= 1.0 ==> log(x) >= 0.0
  }

  lemma CarriersBounded(inds: Indicators, v: string)
    ensures |Carriers(inds, v)| <= |inds|
  {
    SubsetSize(Carriers(inds, v), inds.Keys);
  }

  lemma {:induction false} SubsetSize<T>(s: set<T>, t: set<T>)
    requires s <= t
    ensures |s| <= |t|
  {
    if s != {} {
      var x :| x in s;
      SubsetSize(s - {x}, t - {x});
    }
  }

  // Document frequency never exceeds the number of actors, so every weight is at least one.
  lemma WeightAtLeastOne(log: real -> real, inds: Indicators, v: string)
    requires LogIsNonNegative(log)
    ensures Weight(log, inds, v) >= 1.0
  {
    CarriersBounded(inds, v);
    var n, df := (|inds| + 1) as real, (|Carriers(inds, v)| + 1) as real;
    assert n >= df > 0.0;
    assert n / df >= 1.0;
  }

  lemma {:induction false} TotalBounds(log: real -> real, inds: Indicators, s: set<string>)
    requires LogIsNonNegative(log)
    ensures Total(log, inds, s) >= 0.0 && (s != {} ==> Total(log, inds, s) >= 1.0)
  {
    if s != {} {
      var v :| v in s;
      TotalSplit(log, inds, s, v);
      WeightAtLeastOne(log, inds, v);
      TotalBounds(log, inds, s - {v});
    }
  }

  /** The unrounded score of two actors with a shared linkable indicator lies in (0, 1], and the
      guard against a zero denominator never fires. */
  lemma RatioInUnitInterval(log: real -> real, inds: Indicators, maxDf: int, a: Actor, b: Actor)
    requires LogIsNonNegative(log) && a in inds && b in inds
    requires LinkableOf(inds, maxDf, a) * LinkableOf(inds, maxDf, b) != {}
    ensures Total(log, inds, LinkableOf(inds, maxDf, a) + LinkableOf(inds, maxDf, b)) > 0.0
    ensures 0.0 < Ratio(log, inds, maxDf, a, b) <= 1.0
  {
    var ia, ib := LinkableOf(inds, maxDf, a), LinkableOf(inds, maxDf, b);
    var rest := (ia + ib) - ia * ib;
    assert ia + ib == ia * ib + rest;
    TotalOfUnion(log, inds, ia * ib, rest);
    TotalBounds(log, inds, ia * ib);
    TotalBounds(log, inds, rest);
    var num, den := Total(log, inds, ia * ib), Total(log, inds, ia + ib);
    QuotientBounds(num, den);
  }

  lemma QuotientBounds(num: real, den: real)
    requires 0.0 < num <= den
    ensures 0.0 < num / den <= 1.0
  {
  }

  /** Consequently every proposed score is a rounded value between 0 and 1. */
  lemma ScoreInUnitInterval(log: real -> real, inds: Indicators, maxDf: int, floor: real, e: InfraEdge)
    requires LogIsNonNegative(log) && IsEdgeRecord(log, inds, maxDf, floor, e)
    ensures 0.0 <= e.score <= 1.0
  {
    RatioInUnitInterval(log, inds, maxDf, e.a, e.b);
    Round4Fixes();
    Round4Monotone(0.0, Ratio(log, inds, maxDf, e.a, e.b));
    Round4Monotone(Ratio(log, inds, maxDf, e.a, e.b), 1.0);
  }

  // ----- The inverted index -----

  // postings lists each indicator's carriers among the actors done so far, each once.
  ghost predicate PostingsFit(postings: map<string, seq<Actor>>, carriers: string -> set<Actor>) {
    && (forall v :: v in postings <==> carriers(v) != {})
    && (forall v :: v in postings ==> multiset(postings[v]) == multiset(carriers(v)))
  }

  ghost function CarriersAmong(inds: Indicators, done: set<Actor>): string -> set<Actor> {
    (v: string) => set a | a in done && a in inds && v in inds[a]
  }

  // The inner loop: append one actor to the posting list of each of its indicators.
  method AddActor(postings: map<string, seq<Actor>>, a: Actor, mine: set<string>) returns (r: map<string, seq<Actor>>)
    ensures forall v :: v in r <==> v in postings || v in mine
    ensures forall v :: v in r ==>
      r[v] == (if v in postings then postings[v] else []) + (if v in mine then [a] else [])
  {
    r := postings;
    var rest := mine;
    while rest != {}
      invariant rest <= mine
      invariant forall v :: v in r <==> v in postings || v in mine - rest
      invariant forall v :: v in r ==>
        r[v] == (if v in postings then postings[v] else []) + (if v in mine - rest then [a] else [])
      decreases rest
    {
      var v :| v in rest;
      r, rest := r[v := (if v in r then r[v] else []) + [a]], rest - {v};
    }
  }

  method BuildPostings(inds: Indicators) returns (postings: map<string, seq<Actor>>)
    ensures PostingsFit(postings, CarriersAmong(inds, inds.Keys))
  {
    postings := map[];
    var rest := inds.Keys;
    ghost var done := {};
    while rest != {}
      invariant done !! rest && done + rest == inds.Keys
      invariant PostingsFit(postings, CarriersAmong(inds, done))
      decreases rest
    {
      ghost var w := SomeMember(rest);
      var a :| a in rest;
      var more := AddActor(postings, a, inds[a]);
      PostingsOfMore(inds, done, a, postings, more);
      postings, rest, done := more, rest - {a}, done + {a};
    }
  }

  lemma CarriersOfMore(inds: Indicators, done: set<Actor>, a: Actor, v: string)
    requires a in inds
    ensures CarriersAmong(inds, done + {a})(v) == CarriersAmong(inds, done)(v) + if v in inds[a] then {a} else {}
  {
  }

  lemma PostingsOfMore(inds: Indicators, done: set<Actor>, a: Actor, postings: map<string, seq<Actor>>, more: map<string, seq<Actor>>)
    requires a in inds && a !in done && PostingsFit(postings, CarriersAmong(inds, done))
    requires forall v :: v in more <==> v in postings || v in inds[a]
    requires forall v :: v in more ==> more[v] == (if v in postings then postings[v] else []) + (if v in inds[a] then [a] else [])
    ensures PostingsFit(more, CarriersAmong(inds, done + {a}))
  {
    var before, after := CarriersAmong(inds, done), CarriersAmong(inds, done + {a});
    forall v
      ensures v in more <==> after(v) != {}
      ensures v in more ==> multiset(more[v]) == multiset(after(v))
    {
      CarriersOfMore(inds, done, a, v);
      ListOfMore(if v in postings then postings[v] else [], before(v), a, v in inds[a]);
    }
  }

  lemma ListOfMore(list: seq<Actor>, s: set<Actor>, a: Actor, carries: bool)
    requires multiset(list) == multiset(s) && a !in s
    ensures multiset(list + if carries then [a] else []) == multiset(s + if carries then {a} else {})
  {
    if !carries { assert list + [] == list && s + {} == s; }
  }

  lemma PostingLengths(inds: Indicators, maxDf: int, postings: map<string, seq<Actor>>, v: string)
    requires PostingsFit(postings, CarriersAmong(inds, inds.Keys))
    ensures CarriersAmong(inds, inds.Keys)(v) == Carriers(inds, v)
    ensures v in postings ==> |postings[v]| == |Carriers(inds, v)|
    ensures v in postings && MIN_DF <= |postings[v]| <= maxDf <==> IsLinkable(inds, maxDf, v)
  {
    assert CarriersAmong(inds, inds.Keys)(v) == Carriers(inds, v);
    if v in postings {
      assert |postings[v]| == |multiset(postings[v])| == |multiset(Carriers(inds, v))|;
    } else {
      assert Carriers(inds, v) == {};
    }
  }

  method PairWith(pairs: set<(Actor, Actor)>, a: Actor, later: seq<Actor>) returns (r: set<(Actor, Actor)>)
    ensures forall x, y :: (x, y) in r <==> (x, y) in pairs || (x == a && y in later)
  {
    r := pairs;
    for j := 0 to |later|
      invariant forall x, y :: (x, y) in r <==> (x, y) in pairs || (x == a && y in later[..j])
    {
      assert later[..j + 1] == later[..j] + [later[j]];
      r := r + {(a, later[j])};
    }
    assert later[..|later|] == later;
  }

  // r adds to pairs every pair of carriers whose first member is among firsts.
  ghost predicate PairsAre(r: set<(Actor, Actor)>, pairs: set<(Actor, Actor)>, firsts: seq<Actor>, carriers: set<Actor>) {
    forall x, y :: (x, y) in r <==> (x, y) in pairs || (x in firsts && y in carriers && x < y)
  }

  lemma PairsOfMore(r: set<(Actor, Actor)>, more: set<(Actor, Actor)>, pairs: set<(Actor, Actor)>, sorted: seq<Actor>, i: nat, carriers: set<Actor>)
    requires i < |sorted| && IsAscending(sorted, carriers) && PairsAre(r, pairs, sorted[..i], carriers)
    requires forall x, y :: (x, y) in more <==> (x, y) in r || (x == sorted[i] && y in sorted[i + 1..])
    ensures PairsAre(more, pairs, sorted[..i + 1], carriers)
  {
    AfterInOrder(sorted, carriers, i);
    forall x, y ensures (x, y) in more <==> (x, y) in pairs || (x in sorted[..i + 1] && y in carriers && x < y) {
      assert sorted[..i + 1] == sorted[..i] + [sorted[i]];
      assert x in sorted[..i + 1] <==> x in sorted[..i] || x == sorted[i];
    }
  }

  // combinations(sorted(actors), 2)
  method AddPairs(pairs: set<(Actor, Actor)>, actors: seq<Actor>, ghost carriers: set<Actor>) returns (r: set<(Actor, Actor)>)
    requires multiset(actors) == multiset(carriers)
    ensures forall x, y :: (x, y) in r <==> (x, y) in pairs || (x in carriers && y in carriers && x < y)
  {
    var sorted := Sort(Earlier, actors);
    Ascending(actors, sorted, carriers);
    r := pairs;
    for i := 0 to |sorted|
      invariant PairsAre(r, pairs, sorted[..i], carriers)
    {
      var more := PairWith(r, sorted[i], sorted[i + 1..]);
      PairsOfMore(r, more, pairs, sorted, i, carriers);
      r := more;
    }
    assert sorted[..|sorted|] == sorted;
  }

  predicate Earlier(x: Actor, y: Actor) { x < y }

  ghost predicate IsAscending(sorted: seq<Actor>, carriers: set<Actor>) {
    && (forall i, j :: 0 <= i < j < |sorted| ==> sorted[i] < sorted[j])
    && (forall x :: x in sorted <==> x in carriers)
  }

  lemma Ascending(actors: seq<Actor>, sorted: seq<Actor>, carriers: set<Actor>)
    requires multiset(actors) == multiset(carriers) && sorted == Sort(Earlier, actors)
    ensures IsAscending(sorted, carriers)
  {
    SortInOrder(Earlier, actors);
    DistinctListing(sorted, carriers);
  }

  lemma AfterInOrder(sorted: seq<Actor>, carriers: set<Actor>, i: nat)
    requires i < |sorted| && IsAscending(sorted, carriers)
    ensures forall y :: y in sorted[i + 1..] <==> y in carriers && sorted[i] < y
  {
    forall y | y in carriers && sorted[i] < y ensures y in sorted[i + 1..] {
      var j :| 0 <= j < |sorted| && sorted[j] == y;
      assert j > i;
      assert sorted[i + 1..][j - i - 1] == y;
    }
  }

  ghost predicate Share(inds: Indicators, s: set<string>, x: Actor, y: Actor) {
    exists v :: v in s && x in Carriers(inds, v) && y in Carriers(inds, v)
  }

  method Candidates(inds: Indicators, postings: map<string, seq<Actor>>, linkable: set<string>) returns (pairs: set<(Actor, Actor)>)
    requires linkable <= postings.Keys && forall v :: v in linkable ==> multiset(postings[v]) == multiset(Carriers(inds, v))
    ensures forall x, y :: (x, y) in pairs <==> x < y && Share(inds, linkable, x, y)
  {
    pairs := {};
    var rest := linkable;
    while rest != {}
      invariant rest <= linkable
      invariant forall x, y :: (x, y) in pairs <==> x < y && Share(inds, linkable - rest, x, y)
      decreases rest
    {
      var v :| v in rest;
      var more := AddPairs(pairs, postings[v], Carriers(inds, v));
      forall x, y ensures (x, y) in more <==> x < y && Share(inds, linkable - (rest - {v}), x, y) {
        ShareMore(inds, linkable - rest, v, x, y);
        assert linkable - (rest - {v}) == (linkable - rest) + {v};
      }
      pairs, rest := more, rest - {v};
    }
    assert linkable - {} == linkable;
  }

  lemma ShareMore(inds: Indicators, s: set<string>, v: string, x: Actor, y: Actor)
    ensures Share(inds, s + {v}, x, y) <==> Share(inds, s, x, y) || (x in Carriers(inds, v) && y in Carriers(inds, v))
  {
    if Share(inds, s, x, y) {
      var u :| u in s && x in Carriers(inds, u) && y in Carriers(inds, u);
      assert u in s + {v};
    }
    if x in Carriers(inds, v) && y in Carriers(inds, v) { assert v in s + {v}; }
  }

  method SumWeights(idf: map<string, real>, s: set<string>, ghost log: real -> real, ghost inds: Indicators) returns (total: real)
    requires s <= idf.Keys && forall v :: v in idf ==> idf[v] == Weight(log, inds, v)
    ensures total == Total(log, inds, s)
  {
    total := 0.0;
    var rest := s;
    while rest != {}
      invariant rest <= s && total + Total(log, inds, rest) == Total(log, inds, s)
      decreases rest
    {
      var v :| v in rest;
      TotalSplit(log, inds, rest, v);
      total, rest := total + idf[v], rest - {v};
    }
  }

  // edges holds a record for every pair done so far that is an edge, and nothing else.
  ghost predicate EdgesFit(log: real -> real, inds: Indicators, maxDf: int, floor: real, edges: seq<InfraEdge>, done: set<(Actor, Actor)>) {
    && (forall e :: e in edges ==> (e.a, e.b) in done && IsEdgeRecord(log, inds, maxDf, floor, e))
    && (forall p :: p in done && IsEdge(log, inds, maxDf, floor, p.0, p.1) ==> HasPair(edges, p))
    && NoPairTwice(edges)
  }

  ghost predicate HasPair(edges: seq<InfraEdge>, p: (Actor, Actor)) {
    exists e :: e in edges && e.a == p.0 && e.b == p.1
  }

  ghost predicate NoPairTwice(edges: seq<InfraEdge>) {
    forall i, j :: 0 <= i < j < |edges| ==> edges[i].a != edges[j].a || edges[i].b != edges[j].b
  }

  lemma EdgesOfMore(log: real -> real, inds: Indicators, maxDf: int, floor: real, edges: seq<InfraEdge>, done: set<(Actor, Actor)>, p: (Actor, Actor), more: seq<InfraEdge>)
    requires EdgesFit(log, inds, maxDf, floor, edges, done) && p !in done
    requires |more| == if IsEdge(log, inds, maxDf, floor, p.0, p.1) then 1 else 0
    requires forall e :: e in more ==> e.a == p.0 && e.b == p.1 && IsEdgeRecord(log, inds, maxDf, floor, e)
    ensures EdgesFit(log, inds, maxDf, floor, edges + more, done + {p})
  {
    var all := edges + more;
    forall e | e in all ensures (e.a, e.b) in done + {p} && IsEdgeRecord(log, inds, maxDf, floor, e) {
      assert e in edges || e in more;
    }
    forall q | q in done + {p} && IsEdge(log, inds, maxDf, floor, q.0, q.1) ensures HasPair(all, q) {
      if q in done {
        assert HasPair(edges, q);
        var e :| e in edges && e.a == q.0 && e.b == q.1;
        assert e in all;
      } else {
        assert more[0] in all && more[0] in more;
      }
    }
    forall i, j | 0 <= i < j < |all| ensures all[i].a != all[j].a || all[i].b != all[j].b {
      if j < |edges| {
        assert all[i] == edges[i] && all[j] == edges[j];
      } else {
        assert all[j] in more && all[i] in edges;
      }
    }
  }

  // The loop over candidate pairs.
  method ScorePairs(inds: Indicators, maxDf: int, floor: real, pairs: set<(Actor, Actor)>, linkable: set<string>, idf: map<string, real>, ghost log: real -> real)
    returns (edges: seq<InfraEdge>)
    requires forall p :: p in pairs ==> p.0 in inds && p.1 in inds && p.0 < p.1
    requires IdfFits(log, inds, maxDf, linkable, idf)
    ensures EdgesFit(log, inds, maxDf, floor, edges, pairs)
  {
    edges := [];
    var rest := pairs;
    ghost var done := {};
    while rest != {}
      invariant done !! rest && done + rest == pairs
      invariant EdgesFit(log, inds, maxDf, floor, edges, done)
      decreases rest
    {
      var p :| p in rest;
      var more := ScorePair(inds, maxDf, floor, p.0, p.1, linkable, idf, log);
      EdgesOfMore(log, inds, maxDf, floor, edges, done, p, more);
      edges, rest, done := edges + more, rest - {p}, done + {p};
    }
    assert done == pairs;
  }

  // The linkable indicators and their weights, as read off the index.
  ghost predicate IdfFits(log: real -> real, inds: Indicators, maxDf: int, linkable: set<string>, idf: map<string, real>) {
    && (forall v :: v in linkable <==> IsLinkable(inds, maxDf, v))
    && idf.Keys == linkable && forall v :: v in idf ==> idf[v] == Weight(log, inds, v)
  }

  method ScorePair(inds: Indicators, maxDf: int, floor: real, a: Actor, b: Actor, linkable: set<string>, idf: map<string, real>, ghost log: real -> real)
    returns (edges: seq<InfraEdge>)
    requires a in inds && b in inds && a < b
    requires IdfFits(log, inds, maxDf, linkable, idf)
    ensures |edges| == if IsEdge(log, inds, maxDf, floor, a, b) then 1 else 0
    ensures forall e :: e in edges ==> e.a == a && e.b == b && IsEdgeRecord(log, inds, maxDf, floor, e)
  {
    var ia := inds[a] * linkable;
    var ib := inds[b] * linkable;
    assert ia == LinkableOf(inds, maxDf, a) && ib == LinkableOf(inds, maxDf, b);
    var shared := ia * ib;
    if shared == {} { return []; }
    var num := SumWeights(idf, shared, log, inds);
    var den := SumWeights(idf, ia + ib, log, inds);
    var score := if den > 0.0 then Round4(num / den) else 0.0;
    Round4Fixes();
    var evidence := SortedListing(shared);
    edges := if score >= floor then [InfraEdge(a, b, score, evidence)] else [];
  }

  predicate HigherScore(e: InfraEdge, f: InfraEdge) { e.score > f.score }

  lemma CandidatesAreSharers(inds: Indicators, maxDf: int, linkable: set<string>, x: Actor, y: Actor)
    requires forall v :: v in linkable <==> IsLinkable(inds, maxDf, v)
    ensures Share(inds, linkable, x, y) <==>
            x in inds && y in inds && LinkableOf(inds, maxDf, x) * LinkableOf(inds, maxDf, y) != {}
  {
    if Share(inds, linkable, x, y) {
      var v :| v in linkable && x in Carriers(inds, v) && y in Carriers(inds, v);
      assert v in LinkableOf(inds, maxDf, x) * LinkableOf(inds, maxDf, y);
    }
    if x in inds && y in inds && LinkableOf(inds, maxDf, x) * LinkableOf(inds, maxDf, y) != {} {
      var v :| v in LinkableOf(inds, maxDf, x) * LinkableOf(inds, maxDf, y);
      assert v in linkable && x in Carriers(inds, v) && y in Carriers(inds, v);
    }
  }

  // Fewer than two actors leave nothing to pair.
  lemma NoPairOfOne(inds: Indicators, x: Actor, y: Actor)
    requires |inds| < MIN_DF && x in inds && y in inds
    ensures x == y
  {
    if x != y {
      SubsetSize({x, y}, inds.Keys);
    }
  }

  method Weights(inds: Indicators, maxDf: int, postings: map<string, seq<Actor>>, log: real -> real)
    returns (linkable: set<string>, idf: map<string, real>)
    requires PostingsFit(postings, CarriersAmong(inds, inds.Keys))
    ensures IdfFits(log, inds, maxDf, linkable, idf)
    ensures linkable <= postings.Keys && forall v :: v in linkable ==> multiset(postings[v]) == multiset(Carriers(inds, v))
  {
    forall v
      ensures v in postings && MIN_DF <= |postings[v]| <= maxDf <==> IsLinkable(inds, maxDf, v)
      ensures CarriersAmong(inds, inds.Keys)(v) == Carriers(inds, v)
      ensures v in postings ==> |postings[v]| == |Carriers(inds, v)|
    {
      PostingLengths(inds, maxDf, postings, v);
    }
    linkable := set v | v in postings && MIN_DF <= |postings[v]| <= maxDf;
    idf := map v | v in linkable :: Idf(log, |postings[v]|, |inds|);
  }

  ghost predicate IsProposal(log: real -> real, inds: Indicators, maxDf: int, floor: real, edges: seq<InfraEdge>) {
    && (forall e :: e in edges ==> IsEdgeRecord(log, inds, maxDf, floor, e))
    && (forall x, y :: IsEdge(log, inds, maxDf, floor, x, y) ==> HasPair(edges, (x, y)))
    && NoPairTwice(edges)
    && InOrder(HigherScore, edges)
  }

  lemma SortedProposal(log: real -> real, inds: Indicators, maxDf: int, floor: real, found: seq<InfraEdge>, pairs: set<(Actor, Actor)>)
    requires EdgesFit(log, inds, maxDf, floor, found, pairs)
    requires forall x, y :: IsEdge(log, inds, maxDf, floor, x, y) ==> (x, y) in pairs
    ensures IsProposal(log, inds, maxDf, floor, Sort(HigherScore, found))
  {
    var sorted := Sort(HigherScore, found);
    SortInOrder(HigherScore, found);
    forall e ensures e in sorted <==> e in found { SameElements(found, sorted, e); }
    forall x, y | IsEdge(log, inds, maxDf, floor, x, y) ensures HasPair(sorted, (x, y)) {
      assert HasPair(found, (x, y));
      var e :| e in found && e.a == x && e.b == y;
      assert e in sorted;
    }
    SortedApart(found, sorted);
  }

  lemma SortedApart(found: seq<InfraEdge>, sorted: seq<InfraEdge>)
    requires NoPairTwice(found) && multiset(found) == multiset(sorted)
    ensures NoPairTwice(sorted)
  {
    DistinctMultiset(found);
    DistinctListing(sorted, set e | e in found);
    forall i, j | 0 <= i < j < |sorted| ensures sorted[i].a != sorted[j].a || sorted[i].b != sorted[j].b {
      SameElements(found, sorted, sorted[i]);
      SameElements(found, sorted, sorted[j]);
      var k :| 0 <= k < |found| && found[k] == sorted[i];
      var l :| 0 <= l < |found| && found[l] == sorted[j];
    }
  }

  /** propose_infra_edges: exactly the pairs brute force finds, each once, highest score first. */
  method ProposeInfraEdges(inds: Indicators, maxDf: int, floor: real, log: real -> real) returns (edges: seq<InfraEdge>)
    ensures IsProposal(log, inds, maxDf, floor, edges)
  {
    if |inds| < MIN_DF {
      forall x, y | IsEdge(log, inds, maxDf, floor, x, y) ensures false { NoPairOfOne(inds, x, y); }
      return [];
    }
    var postings := BuildPostings(inds);
    var linkable, idf := Weights(inds, maxDf, postings, log);
    var pairs := Candidates(inds, postings, linkable);
    forall x, y ensures (x, y) in pairs <==>
        x < y && x in inds && y in inds && LinkableOf(inds, maxDf, x) * LinkableOf(inds, maxDf, y) != {} {
      CandidatesAreSharers(inds, maxDf, linkable, x, y);
    }
    forall p | p in pairs ensures p.0 in inds && p.1 in inds && p.0 < p.1 {
      var (x, y) := p;
      assert (x, y) in pairs;
    }
    var found := ScorePairs(inds, maxDf, floor, pairs, linkable, idf, log);
    SortedProposal(log, inds, maxDf, floor, found, pairs);
    edges := Sort(HigherScore, found);
  }
}
