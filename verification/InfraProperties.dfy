/** What the proposed edges mean: rarer indicators weigh more, scores say how much two actors have in
    common, and the best come first. */
module InfraProperties {
  import opened UnionFind
  import opened Sorting
  import opened Rounding
  import opened InfraLinker

  predicate Rises(log: real -> real, x: real, y: real) {
    0.0 < x < y ==> log(x) < log(y)
  }

  predicate Adds(log: real -> real, x: real, y: real) {
    x > 0.0 && y > 0.0 ==> log(x * y) == log(x) + log(y)
  }

  // What is used of the logarithm.
  ghost predicate IsLogarithm(log: real -> real) {
    forall x: real, y: real :: Rises(log, x, y) && Adds(log, x, y)
  }

  lemma LogOfOne(log: real -> real)
    requires IsLogarithm(log)
    ensures log(1.0) == 0.0 && LogIsNonNegative(log)
  {
    assert Adds(log, 1.0, 1.0);
    forall x: real | x >= 1.0 ensures log(x) >= 0.0 {
      assert Rises(log, 1.0, x);
    }
  }

  lemma Times(p: real, q: real, k: real)
    requires p <= q && k >= 0.0
    ensures p * k <= q * k
  {
  }

  lemma PositiveShare(n: real, a: real)
    requires n > 0.0 && a > 0.0
    ensures n / a > 0.0
  {
  }

  lemma SmallerPart(n: real, a: real, b: real)
    requires n > 0.0 && 0.0 < a < b
    ensures n / a > n / b
  {
    var x, y := n / a, n / b;
    PositiveShare(n, b);
    assert x * a == n && y * b == n && y * a < y * b;
    if x <= y { Times(x, y, a); }
  }

  lemma SharesOfWhole(n: real, a: real, b: real)
    requires n > 0.0 && 0.0 < a < b
    ensures n / a > n / b > 0.0 && n / a == n / b * (b / a) && b / a > 0.0
  {
    SmallerPart(n, a, b);
    PositiveShare(n, b);
    PositiveShare(b, a);
    var x, y, z := n / a, n / b, b / a;
    assert x * a == n && y * b == n && z * a == b;
    assert y * z * a == y * (z * a);
    EqualShares(x, y * z, a);
  }

  lemma EqualShares(x: real, y: real, a: real)
    requires a > 0.0 && x * a == y * a
    ensures x == y
  {
  }

  lemma Split(log: real -> real, x: real, y: real, z: real)
    requires IsLogarithm(log) && x == y * z && x > y > 0.0 && z > 0.0
    ensures log(x) > log(y) && log(x) - log(y) == log(z)
  {
    assert Rises(log, y, x) && Adds(log, y, z);
  }

  /** Rarer weighs more; by how much depends on the two numbers of carriers alone. */
  lemma RarerWeighsMore(log: real -> real, inds: Indicators, u: string, v: string)
    requires IsLogarithm(log) && |Carriers(inds, u)| < |Carriers(inds, v)|
    ensures Weight(log, inds, u) > Weight(log, inds, v)
    ensures Weight(log, inds, u) - Weight(log, inds, v) == log((|Carriers(inds, v)| + 1) as real / (|Carriers(inds, u)| + 1) as real)
  {
    var n, a, b := (|inds| + 1) as real, (|Carriers(inds, u)| + 1) as real, (|Carriers(inds, v)| + 1) as real;
    SharesOfWhole(n, a, b);
    Split(log, n / a, n / b, b / a);
  }

  /** An indicator that every actor carries weighs exactly one, any other more. */
  lemma OneExactlyWhenEverywhere(log: real -> real, inds: Indicators, v: string)
    requires IsLogarithm(log)
    ensures Weight(log, inds, v) >= 1.0 && (Weight(log, inds, v) == 1.0 <==> Carriers(inds, v) == inds.Keys)
  {
    LogOfOne(log);
    CarriersBounded(inds, v);
    var n, df := (|inds| + 1) as real, (|Carriers(inds, v)| + 1) as real;
    if Carriers(inds, v) == inds.Keys {
      assert n / df == 1.0;
    } else {
      SmallerSubset(Carriers(inds, v), inds.Keys);
      assert df < n;
      SharesOfWhole(n, df, n);
      assert Rises(log, 1.0, n / df);
    }
  }

  lemma SmallerSubset<T>(s: set<T>, t: set<T>)
    requires s <= t && s != t
    ensures |s| < |t|
  {
    var rest := t - s;
    assert t == s + rest;
  }

  // ----- Scores -----

  // The indicators that count for a pair: carried by enough actors, and by not too many.
  ghost predicate Counts(inds: Indicators, maxDf: int, v: string) {
    2 <= |Carriers(inds, v)| <= maxDf
  }

  ghost function Shared(inds: Indicators, maxDf: int, a: Actor, b: Actor): set<string>
    requires a in inds && b in inds
  {
    set v | v in inds[a] && v in inds[b] && Counts(inds, maxDf, v)
  }

  ghost function Between(inds: Indicators, maxDf: int, a: Actor, b: Actor): set<string>
    requires a in inds && b in inds
  {
    set v | v in inds[a] + inds[b] && Counts(inds, maxDf, v)
  }

  lemma PairSets(inds: Indicators, maxDf: int, a: Actor, b: Actor)
    requires a in inds && b in inds
    ensures Shared(inds, maxDf, a, b) == LinkableOf(inds, maxDf, a) * LinkableOf(inds, maxDf, b)
    ensures Between(inds, maxDf, a, b) == LinkableOf(inds, maxDf, a) + LinkableOf(inds, maxDf, b)
  {
  }

  /** The unrounded score is the weight of what two actors share, as a share of the weight of what
      they have between them. */
  lemma RatioIsShare(log: real -> real, inds: Indicators, maxDf: int, a: Actor, b: Actor)
    requires LogIsNonNegative(log) && a in inds && b in inds
    ensures Between(inds, maxDf, a, b) != {} ==> Total(log, inds, Between(inds, maxDf, a, b)) > 0.0
    ensures Ratio(log, inds, maxDf, a, b) * Total(log, inds, Between(inds, maxDf, a, b)) == Total(log, inds, Shared(inds, maxDf, a, b))
  {
    PairSets(inds, maxDf, a, b);
    TotalBounds(log, inds, Between(inds, maxDf, a, b));
    if Between(inds, maxDf, a, b) == {} { assert Shared(inds, maxDf, a, b) == {}; }
  }

  lemma TotalOfOne(log: real -> real, inds: Indicators, v: string)
    ensures Total(log, inds, {v}) == Weight(log, inds, v)
  {
    TotalSplit(log, inds, {v}, v);
    assert {v} - {v} == {};
  }

  /** Two actors score one exactly when they carry the same indicators of those that count. */
  lemma OneExactlyWhenSame(log: real -> real, inds: Indicators, maxDf: int, a: Actor, b: Actor)
    requires LogIsNonNegative(log) && a in inds && b in inds
    ensures Ratio(log, inds, maxDf, a, b) == 1.0 <==>
            LinkableOf(inds, maxDf, a) == LinkableOf(inds, maxDf, b) != {}
  {
    var ia, ib := LinkableOf(inds, maxDf, a), LinkableOf(inds, maxDf, b);
    var rest := (ia + ib) - ia * ib;
    RatioIsShare(log, inds, maxDf, a, b);
    PairSets(inds, maxDf, a, b);
    assert ia + ib == ia * ib + rest;
    TotalOfUnion(log, inds, ia * ib, rest);
    TotalBounds(log, inds, rest);
    TotalBounds(log, inds, ia + ib);
    if ia == ib { assert rest == {}; }
    if rest == {} { SameWhenNothingElse(ia, ib); }
    if ia + ib == {} { assert ia == {}; }
  }

  lemma SameWhenNothingElse(s: set<string>, t: set<string>)
    requires (s + t) - s * t == {}
    ensures s == t
  {
    forall v | v in s + t ensures v in s * t {
      assert v !in (s + t) - s * t;
    }
  }

  lemma LargerShare(x: real, y: real, den: real)
    requires den > 0.0 && x > y
    ensures x / den > y / den
  {
    var p, q := x / den, y / den;
    assert p * den == x && q * den == y;
    if p <= q { Times(p, q, den); }
  }

  /** Of two pairs with the same indicators between them, sharing alike but for one indicator, the pair
      that shares the rarer one scores higher. */
  lemma RarerScoresHigher(log: real -> real, inds: Indicators, maxDf: int, a: Actor, b: Actor, c: Actor, d: Actor,
                          common: set<string>, u: string, v: string)
    requires IsLogarithm(log) && a in inds && b in inds && c in inds && d in inds && u !in common && v !in common
    requires LinkableOf(inds, maxDf, a) * LinkableOf(inds, maxDf, b) == common + {u}
    requires LinkableOf(inds, maxDf, c) * LinkableOf(inds, maxDf, d) == common + {v}
    requires LinkableOf(inds, maxDf, a) + LinkableOf(inds, maxDf, b) == LinkableOf(inds, maxDf, c) + LinkableOf(inds, maxDf, d)
    requires |Carriers(inds, u)| < |Carriers(inds, v)|
    ensures Ratio(log, inds, maxDf, a, b) > Ratio(log, inds, maxDf, c, d)
    ensures Round4(Ratio(log, inds, maxDf, a, b)) >= Round4(Ratio(log, inds, maxDf, c, d))
  {
    LogOfOne(log);
    RarerWeighsMore(log, inds, u, v);
    TotalOfUnion(log, inds, common, {u});
    TotalOfUnion(log, inds, common, {v});
    TotalOfOne(log, inds, u);
    TotalOfOne(log, inds, v);
    var all := LinkableOf(inds, maxDf, a) + LinkableOf(inds, maxDf, b);
    assert u in all;
    TotalBounds(log, inds, all);
    LargerShare(Total(log, inds, common + {u}), Total(log, inds, common + {v}), Total(log, inds, all));
    Round4Monotone(Ratio(log, inds, maxDf, c, d), Ratio(log, inds, maxDf, a, b));
  }

  // ----- Proposals -----

  /** The list is by falling score, with the smaller actor first in each edge. */
  lemma HighestFirst(log: real -> real, inds: Indicators, maxDf: int, floor: real, edges: seq<InfraEdge>, i: nat, j: nat)
    requires IsProposal(log, inds, maxDf, floor, edges) && i < j < |edges|
    ensures edges[i].score >= edges[j].score && edges[i].a < edges[i].b
  {
    assert edges[i] in edges;
  }

  lemma SharersCount(inds: Indicators, maxDf: int, a: Actor, b: Actor, v: string)
    requires a in inds && b in inds && a != b && v in inds[a] && v in inds[b]
    ensures 2 <= |Carriers(inds, v)|
    ensures |Carriers(inds, v)| <= maxDf <==> v in LinkableOf(inds, maxDf, a) * LinkableOf(inds, maxDf, b)
  {
    SubsetSize({a, b}, Carriers(inds, v));
  }

  /** At a floor of zero or less, every two actors that share an indicator carried by at most maxDf
      actors are proposed. */
  lemma SharersAreProposed(log: real -> real, inds: Indicators, maxDf: int, floor: real, edges: seq<InfraEdge>, a: Actor, b: Actor, v: string)
    requires LogIsNonNegative(log) && IsProposal(log, inds, maxDf, floor, edges) && floor <= 0.0
    requires a in inds && b in inds && a < b && v in inds[a] && v in inds[b] && |Carriers(inds, v)| <= maxDf
    ensures exists e :: e in edges && e.a == a && e.b == b
  {
    SharersCount(inds, maxDf, a, b, v);
    RatioInUnitInterval(log, inds, maxDf, a, b);
    Round4Fixes();
    Round4Monotone(0.0, Ratio(log, inds, maxDf, a, b));
    assert IsEdge(log, inds, maxDf, floor, a, b);
    assert HasPair(edges, (a, b));
  }

  /** The evidence of an edge: exactly the indicators both actors carry and at most maxDf actors do,
      in string order. */
  lemma EvidenceIsShared(log: real -> real, inds: Indicators, maxDf: int, floor: real, edges: seq<InfraEdge>, e: InfraEdge, v: string)
    requires IsProposal(log, inds, maxDf, floor, edges) && e in edges
    ensures e.a in inds && e.b in inds
    ensures v in e.shared <==> v in inds[e.a] && v in inds[e.b] && |Carriers(inds, v)| <= maxDf
    ensures forall i, j :: 0 <= i < j < |e.shared| ==> ComesBefore(e.shared[i], e.shared[j])
  {
    DistinctListing(e.shared, LinkableOf(inds, maxDf, e.a) * LinkableOf(inds, maxDf, e.b));
    if v in inds[e.a] && v in inds[e.b] { SharersCount(inds, maxDf, e.a, e.b, v); }
    forall i, j | 0 <= i < j < |e.shared| ensures ComesBefore(e.shared[i], e.shared[j]) {
      LexLessExactlyWhen(e.shared[i], e.shared[j]);
    }
  }
}
