/** The parent dictionary of build_crews and its two closures (eyenet/linker/crews.py). */
module UnionFind {
  // A UUID, ordered as the 128-bit number it is.
  type Actor = int

  // The class each node belongs to, named by the node at the top of its parent chain.
  type Classes = map<Actor, Actor>

  // setdefault(x, x): a node seen for the first time is alone in its class.
  function Touch(cls: Classes, x: Actor): Classes {
    if x in cls then cls else cls[x := x]
  }

  // The classes of a and b become one, named by b's representative; all others stay.
  function Merge(cls: Classes, a: Actor, b: Actor): (r: Classes)
  {
    var g := Touch(Touch(cls, a), b);
    map x | x in g :: if g[x] == g[a] then g[b] else g[x]
  }

  // One node's part of the invariant: one step up stays in the class and gets closer to its top.
  ghost predicate NodeOk(parent: map<Actor, Actor>, top: Classes, depth: map<Actor, nat>, x: Actor)
    requires x in parent && top.Keys == parent.Keys && depth.Keys == parent.Keys
  {
    && parent[x] in parent && top[parent[x]] == top[x]
    && top[x] in parent && parent[top[x]] == top[x]
    && (parent[x] == x <==> top[x] == x)
    && (parent[x] != x ==> depth[parent[x]] < depth[x])
  }

  /** parent is an acyclic forest, top names the root above each node, and depth bounds the
      number of steps to it. */
  ghost predicate IsForest(parent: map<Actor, Actor>, top: Classes, depth: map<Actor, nat>) {
    && top.Keys == parent.Keys && depth.Keys == parent.Keys
    && forall x {:trigger NodeOk(parent, top, depth, x)} :: x in parent ==> NodeOk(parent, top, depth, x)
  }

  ghost predicate Closed(parent: map<Actor, Actor>) {
    forall x :: x in parent ==> parent[x] in parent
  }

  lemma ForestIsClosed(parent: map<Actor, Actor>, top: Classes, depth: map<Actor, nat>)
    requires IsForest(parent, top, depth)
    ensures Closed(parent)
  {
    forall x | x in parent ensures parent[x] in parent { assert NodeOk(parent, top, depth, x); }
  }

  // n steps up the parent chain.
  function Climb(parent: map<Actor, Actor>, x: Actor, n: nat): (r: Actor)
    requires Closed(parent) && x in parent
    ensures r in parent
    decreases n
  {
    if n == 0 then x else Climb(parent, parent[x], n - 1)
  }

  // What top means: wherever a node starts, climbing ends at top and stays there.
  lemma {:induction false} ClimbEndsAtTop(parent: map<Actor, Actor>, top: Classes, depth: map<Actor, nat>, x: Actor, n: nat)
    requires IsForest(parent, top, depth) && x in parent && n >= depth[x]
    ensures Closed(parent) && Climb(parent, x, n) == top[x] && parent[top[x]] == top[x]
    decreases n
  {
    ForestIsClosed(parent, top, depth);
    assert NodeOk(parent, top, depth, x);
    if parent[x] == x {
      ClimbFixed(parent, x, n);
    } else {
      ClimbEndsAtTop(parent, top, depth, parent[x], n - 1);
    }
  }

  lemma {:induction false} ClimbFixed(parent: map<Actor, Actor>, x: Actor, n: nat)
    requires Closed(parent) && x in parent && parent[x] == x
    ensures Climb(parent, x, n) == x
    decreases n
  {
    if n > 0 { ClimbFixed(parent, x, n - 1); }
  }

  lemma {:induction false} TopIsAbove(parent: map<Actor, Actor>, top: Classes, depth: map<Actor, nat>, x: Actor)
    requires IsForest(parent, top, depth) && x in parent
    ensures top[x] in parent && (top[x] == x || depth[top[x]] < depth[x])
    decreases depth[x]
  {
    assert NodeOk(parent, top, depth, x);
    if parent[x] != x { TopIsAbove(parent, top, depth, parent[x]); }
  }

  lemma TopIsRoot(parent: map<Actor, Actor>, top: Classes, depth: map<Actor, nat>, x: Actor)
    requires IsForest(parent, top, depth) && x in parent
    ensures top[x] in parent && parent[top[x]] == top[x]
  {
    assert NodeOk(parent, top, depth, x);
  }

  // Pointing a node at its own root changes no class.
  lemma CompressKeepsForest(parent: map<Actor, Actor>, top: Classes, depth: map<Actor, nat>, y: Actor)
    requires IsForest(parent, top, depth) && y in parent && parent[y] != top[y]
    ensures top[y] in parent && IsForest(parent[y := top[y]], top, depth)
  {
    TopIsAbove(parent, top, depth, y);
    assert NodeOk(parent, top, depth, y);
    var parent' := parent[y := top[y]];
    forall x | x in parent' ensures NodeOk(parent', top, depth, x) {
      assert NodeOk(parent, top, depth, x);
      assert NodeOk(parent, top, depth, top[x]);
    }
  }

  lemma AddNode(parent: map<Actor, Actor>, top: Classes, depth: map<Actor, nat>, y: Actor)
    requires IsForest(parent, top, depth) && y !in parent
    ensures IsForest(parent[y := y], top[y := y], depth[y := 0])
  {
    var parent', top', depth' := parent[y := y], top[y := y], depth[y := 0];
    forall x | x in parent' ensures NodeOk(parent', top', depth', x) {
      if x in parent { assert NodeOk(parent, top, depth, x); }
    }
  }

  // Every member of a's class moves under rb; the depths of that class grow.
  ghost function Moved(top: Classes, ra: Actor, rb: Actor): Classes {
    map x | x in top :: if top[x] == ra then rb else top[x]
  }

  ghost function Deepened(top: Classes, depth: map<Actor, nat>, ra: Actor, rb: Actor): map<Actor, nat>
    requires top.Keys == depth.Keys && rb in depth
  {
    map x | x in depth :: if top[x] == ra then depth[x] + depth[rb] + 1 else depth[x]
  }

  lemma MergeIsMove(cls: Classes, a: Actor, b: Actor)
    ensures var g := Touch(Touch(cls, a), b);
            Merge(cls, a, b) == if g[a] == g[b] then g else Moved(g, g[a], g[b])
  {
  }

  // Hanging one root under another.
  lemma LinkKeepsForest(parent: map<Actor, Actor>, top: Classes, depth: map<Actor, nat>, ra: Actor, rb: Actor)
    requires IsForest(parent, top, depth) && ra in parent && rb in parent && ra != rb
    requires parent[ra] == ra && parent[rb] == rb
    ensures IsForest(parent[ra := rb], Moved(top, ra, rb), Deepened(top, depth, ra, rb))
  {
    var parent', top', depth' := parent[ra := rb], Moved(top, ra, rb), Deepened(top, depth, ra, rb);
    assert NodeOk(parent, top, depth, ra) && NodeOk(parent, top, depth, rb);
    forall x | x in parent' ensures NodeOk(parent', top', depth', x) {
      assert NodeOk(parent, top, depth, x);
    }
  }

  class Forest {
    var parent: map<Actor, Actor>
    ghost var top: Classes
    ghost var depth: map<Actor, nat>

    ghost predicate Valid()
      reads this
    {
      IsForest(parent, top, depth)
    }

    constructor ()
      ensures Valid() && top == map[]
    {
      parent, top, depth := map[], map[], map[];
    }

    // find: the representative of x, compressing the path walked.
    method Find(x: Actor) returns (root: Actor)
      requires Valid()
      modifies this
      ensures Valid()
      ensures top == Touch(old(top), x) && root == top[x]
      ensures parent.Keys == old(parent).Keys + {x}
    {
      if x !in parent {
        AddNode(parent, top, depth, x);
        parent, top, depth := parent[x := x], top[x := x], depth[x := 0];
      }
      root := x;
      while parent[root] != root
        invariant Valid() && root in parent && x in parent && top[root] == top[x]
        invariant top == Touch(old(top), x) && parent.Keys == old(parent).Keys + {x}
        decreases depth[root]
      {
        assert NodeOk(parent, top, depth, root);
        root := parent[root];
      }
      assert NodeOk(parent, top, depth, root);
      var y := x;
      while parent[y] != root
        invariant Valid() && y in parent && x in parent && top[y] == root == top[x]
        invariant top == Touch(old(top), x) && parent.Keys == old(parent).Keys + {x}
        decreases depth[y]
      {
        assert NodeOk(parent, top, depth, y);
        CompressKeepsForest(parent, top, depth, y);
        var next := parent[y];
        parent := parent[y := root];
        y := next;
      }
    }

    // parent[ra] = rb for two roots.
    method Link(ra: Actor, rb: Actor)
      requires Valid() && ra in parent && rb in parent && ra != rb && parent[ra] == ra && parent[rb] == rb
      modifies this
      ensures Valid()
      ensures top == Moved(old(top), ra, rb) && parent.Keys == old(parent).Keys
    {
      LinkKeepsForest(parent, top, depth, ra, rb);
      depth := Deepened(top, depth, ra, rb);
      parent, top := parent[ra := rb], Moved(top, ra, rb);
    }

    // union: one class out of the two, every other class as it was.
    method Union(a: Actor, b: Actor)
      requires Valid()
      modifies this
      ensures Valid()
      ensures top == Merge(old(top), a, b)
      ensures parent.Keys == old(parent).Keys + {a, b}
    {
      MergeIsMove(top, a, b);
      var ra := Find(a);
      var rb := Find(b);
      TopIsRoot(parent, top, depth, a);
      TopIsRoot(parent, top, depth, b);
      if ra != rb {
        Link(ra, rb);
      }
    }
  }
}
