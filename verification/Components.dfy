/** Connected components of the edge list, and why the union-find classes are exactly them. */
module Components {
  import opened UnionFind

  // (actor_a, actor_b, score, shared_indicators)
  datatype Edge = Edge(a: Actor, b: Actor, score: real, shared: seq<string>)

  predicate Joins(e: Edge, x: Actor, y: Actor) {
    (e.a == x && e.b == y) || (e.a == y && e.b == x)
  }

  predicate Linked(edges: seq<Edge>, x: Actor, y: Actor) {
    exists e :: e in edges && Joins(e, x, y)
  }

  // A walk from one actor to another along input edges.
  ghost predicate Walk(edges: seq<Edge>, path: seq<Actor>, x: Actor, y: Actor) {
    && path != [] && path[0] == x && path[|path| - 1] == y
    && forall i :: 0 <= i < |path| - 1 ==> Linked(edges, path[i], path[i + 1])
  }

  ghost predicate Connected(edges: seq<Edge>, x: Actor, y: Actor) {
    exists path :: Walk(edges, path, x, y)
  }

  predicate IsEndpoint(edges: seq<Edge>, x: Actor) {
    exists e :: e in edges && (e.a == x || e.b == x)
  }

  // The classes after union has run over every edge in order.
  function ClassesOf(edges: seq<Edge>): Classes {
    if edges == [] then map[]
    else
      var e := edges[|edges| - 1];
      Merge(ClassesOf(edges[..|edges| - 1]), e.a, e.b)
  }

  lemma ConnectedSelf(edges: seq<Edge>, x: Actor)
    ensures Connected(edges, x, x)
  {
    assert Walk(edges, [x], x, x);
  }

  lemma ConnectedByEdge(edges: seq<Edge>, e: Edge)
    requires e in edges
    ensures Connected(edges, e.a, e.b)
  {
    assert Joins(e, e.a, e.b);
    assert Walk(edges, [e.a, e.b], e.a, e.b);
  }

  lemma ConnectedSymmetric(edges: seq<Edge>, x: Actor, y: Actor)
    requires Connected(edges, x, y)
    ensures Connected(edges, y, x)
  {
    var path :| Walk(edges, path, x, y);
    var n := |path|;
    var back := seq(n, i requires 0 <= i < n => path[n - 1 - i]);
    forall i | 0 <= i < n - 1 ensures Linked(edges, back[i], back[i + 1]) {
      assert Linked(edges, path[n - 2 - i], path[n - 2 - i + 1]);
      var e :| e in edges && Joins(e, path[n - 2 - i], path[n - 1 - i]);
      assert Joins(e, back[i], back[i + 1]);
    }
    assert Walk(edges, back, y, x);
  }

  lemma ConnectedTransitive(edges: seq<Edge>, x: Actor, y: Actor, z: Actor)
    requires Connected(edges, x, y) && Connected(edges, y, z)
    ensures Connected(edges, x, z)
  {
    var p :| Walk(edges, p, x, y);
    var q :| Walk(edges, q, y, z);
    var path := p + q[1..];
    forall i | 0 <= i < |path| - 1 ensures Linked(edges, path[i], path[i + 1]) {
      if i < |p| - 1 {
        assert path[i] == p[i] && path[i + 1] == p[i + 1];
      } else {
        assert path[i] == q[i - |p| + 1] && path[i + 1] == q[i - |p| + 1 + 1];
      }
    }
    assert Walk(edges, path, x, z);
  }

  // Connectivity depends only on which edges there are.
  lemma ConnectedMonotone(edges: seq<Edge>, more: seq<Edge>, x: Actor, y: Actor)
    requires Connected(edges, x, y) && forall e :: e in edges ==> e in more
    ensures Connected(more, x, y)
  {
    var path :| Walk(edges, path, x, y);
    forall i | 0 <= i < |path| - 1 ensures Linked(more, path[i], path[i + 1]) {
      assert Linked(edges, path[i], path[i + 1]);
    }
    assert Walk(more, path, x, y);
  }

  lemma {:induction false} ClassesCoverEndpoints(edges: seq<Edge>)
    ensures forall x :: x in ClassesOf(edges) <==> IsEndpoint(edges, x)
  {
    if edges != [] {
      var n := |edges| - 1;
      ClassesCoverEndpoints(edges[..n]);
      assert edges == edges[..n] + [edges[n]];
      forall x ensures x in ClassesOf(edges) <==> IsEndpoint(edges, x) {
        if x == edges[n].a || x == edges[n].b { assert edges[n] in edges; }
        if IsEndpoint(edges[..n], x) { EndpointMonotone(edges[..n], edges, x); }
      }
    }
  }

  lemma EndpointMonotone(edges: seq<Edge>, more: seq<Edge>, x: Actor)
    requires IsEndpoint(edges, x) && forall e :: e in edges ==> e in more
    ensures IsEndpoint(more, x)
  {
    var e :| e in edges && (e.a == x || e.b == x);
    assert e in more;
  }

  // The two endpoints of every edge share a class.
  lemma {:induction false} EdgesShareClass(edges: seq<Edge>, e: Edge)
    requires e in edges
    ensures e.a in ClassesOf(edges) && e.b in ClassesOf(edges) && ClassesOf(edges)[e.a] == ClassesOf(edges)[e.b]
  {
    var n := |edges| - 1;
    if e != edges[n] {
      assert e in edges[..n];
      EdgesShareClass(edges[..n], e);
    }
  }

  // A chain of edges stays inside one class.
  lemma {:induction false} WalkStaysInClass(edges: seq<Edge>, path: seq<Actor>, x: Actor, y: Actor)
    requires Walk(edges, path, x, y) && x in ClassesOf(edges)
    ensures y in ClassesOf(edges) && ClassesOf(edges)[x] == ClassesOf(edges)[y]
    decreases |path|
  {
    if |path| > 1 {
      assert Linked(edges, path[0], path[1]);
      var e :| e in edges && Joins(e, path[0], path[1]);
      EdgesShareClass(edges, e);
      forall i | 0 <= i < |path[1..]| - 1 ensures Linked(edges, path[1..][i], path[1..][i + 1]) {
        assert Linked(edges, path[i + 1], path[i + 1 + 1]);
      }
      WalkStaysInClass(edges, path[1..], path[1], y);
    }
  }

  // A class is named by one of its members.
  lemma {:induction false} NamesAreMembers(edges: seq<Edge>, x: Actor)
    requires x in ClassesOf(edges)
    ensures ClassesOf(edges)[x] in ClassesOf(edges)
  {
    if edges != [] {
      var n := |edges| - 1;
      var before := ClassesOf(edges[..n]);
      if x in before { NamesAreMembers(edges[..n], x); }
      if edges[n].b in before { NamesAreMembers(edges[..n], edges[n].b); }
    }
  }

  // Two members of one class are joined by a chain of edges.
  lemma {:induction false} ClassIsConnected(edges: seq<Edge>, x: Actor, y: Actor)
    requires x in ClassesOf(edges) && y in ClassesOf(edges) && ClassesOf(edges)[x] == ClassesOf(edges)[y]
    ensures Connected(edges, x, y)
    decreases |edges|, 1
  {
    var n := |edges| - 1;
    var e := edges[n];
    var g := Touch(Touch(ClassesOf(edges[..n]), e.a), e.b);
    if g[x] == g[y] {
      SameOldClass(edges, x, y);
    } else if g[x] == g[e.a] {
      SameOldClass(edges, x, e.a);
      SameOldClass(edges, e.b, y);
      ThroughEdge(edges, e, x, y);
    } else {
      SameOldClass(edges, y, e.a);
      SameOldClass(edges, e.b, x);
      ThroughEdge(edges, e, y, x);
      ConnectedSymmetric(edges, y, x);
    }
  }

  lemma ThroughEdge(edges: seq<Edge>, e: Edge, x: Actor, y: Actor)
    requires e in edges && Connected(edges, x, e.a) && Connected(edges, e.b, y)
    ensures Connected(edges, x, y)
  {
    ConnectedByEdge(edges, e);
    ConnectedTransitive(edges, x, e.a, e.b);
    ConnectedTransitive(edges, x, e.b, y);
  }

  // Members of one class before the last edge are connected after it.
  lemma {:induction false} SameOldClass(edges: seq<Edge>, x: Actor, y: Actor)
    requires edges != []
    requires var n := |edges| - 1;
             var g := Touch(Touch(ClassesOf(edges[..n]), edges[n].a), edges[n].b);
             x in g && y in g && g[x] == g[y]
    ensures Connected(edges, x, y)
    decreases |edges|, 0
  {
    var before := edges[..|edges| - 1];
    if x == y {
      ConnectedSelf(edges, x);
    } else {
      if x in ClassesOf(before) { NamesAreMembers(before, x); }
      if y in ClassesOf(before) { NamesAreMembers(before, y); }
      ClassIsConnected(before, x, y);
      ConnectedMonotone(before, edges, x, y);
    }
  }

  /** Two endpoints end in the same class exactly when a chain of input edges joins them. */
  lemma ClassesAreComponents(edges: seq<Edge>, x: Actor, y: Actor)
    requires x in ClassesOf(edges) && y in ClassesOf(edges)
    ensures ClassesOf(edges)[x] == ClassesOf(edges)[y] <==> Connected(edges, x, y)
  {
    if ClassesOf(edges)[x] == ClassesOf(edges)[y] { ClassIsConnected(edges, x, y); }
    if Connected(edges, x, y) {
      var path :| Walk(edges, path, x, y);
      WalkStaysInClass(edges, path, x, y);
    }
  }
}
