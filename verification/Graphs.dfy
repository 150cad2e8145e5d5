/** Undirected neighbourhoods: walks, shortest distances, and the breadth-first search of
    `ui/lib/graph-scope.ts`. */
module Graphs {
  import opened Text
  import opened Lists

  type Id = string

  /** `on`, `cardinality` and the confidence fields are an ER edge's; the search reads the ends. */
  datatype Edge = Edge(id: Id, source: Id, target: Id, on: string,
                       cardinality: Option<string>, confidence: Option<real>, lowConfidence: bool)

  /** `name` is the physical name of an ER node and the label of a knowledge-graph node. */
  datatype Node = Node(id: Id, kind: string, name: string, schema: Option<string>, confidence: Option<real>)

  ghost predicate Linked(edges: seq<Edge>, a: Id, b: Id) {
    exists e :: e in edges && ((e.source == a && e.target == b) || (e.source == b && e.target == a))
  }

  ghost predicate IsWalk(edges: seq<Edge>, p: seq<Id>) {
    p != [] && forall i :: 0 <= i < |p| - 1 ==> Linked(edges, p[i], p[i + 1])
  }

  /** Some walk of `n` edges leads from `a` to `b`. */
  ghost predicate Walks(edges: seq<Edge>, a: Id, b: Id, n: nat) {
    exists p :: IsWalk(edges, p) && |p| == n + 1 && p[0] == a && p[n] == b
  }

  /** `d` is the length of a shortest walk from `a` to `b`. */
  ghost predicate Shortest(edges: seq<Edge>, a: Id, b: Id, d: nat) {
    Walks(edges, a, b, d) && forall n: nat :: n < d ==> !Walks(edges, a, b, n)
  }

  lemma WalksHere(edges: seq<Edge>, a: Id, b: Id)
    ensures Walks(edges, a, b, 0) <==> a == b
  {
    if a == b {
      assert IsWalk(edges, [a]);
    }
  }

  lemma WalksOn(edges: seq<Edge>, a: Id, m: Id, b: Id, n: nat)
    requires Walks(edges, a, m, n) && Linked(edges, m, b)
    ensures Walks(edges, a, b, n + 1)
  {
    var p :| IsWalk(edges, p) && |p| == n + 1 && p[0] == a && p[n] == m;
    var q := p + [b];
    forall i | 0 <= i < |q| - 1 ensures Linked(edges, q[i], q[i + 1]) {
      if i < n { assert Linked(edges, p[i], p[i + 1]); }
    }
    assert IsWalk(edges, q);
  }

  lemma WalksBack(edges: seq<Edge>, a: Id, b: Id, n: nat) returns (m: Id)
    requires n > 0 && Walks(edges, a, b, n)
    ensures Walks(edges, a, m, n - 1) && Linked(edges, m, b)
  {
    var p :| IsWalk(edges, p) && |p| == n + 1 && p[0] == a && p[n] == b;
    m := p[n - 1];
    var q := p[..n];
    forall i | 0 <= i < |q| - 1 ensures Linked(edges, q[i], q[i + 1]) {
      assert Linked(edges, p[i], p[i + 1]);
    }
    assert IsWalk(edges, q) && Linked(edges, p[n - 1], p[n]);
  }

  // ---- adjacency --------------------------------------------------------------------

  /** A `Map<string, Set<string>>`; each set in insertion order, without repetition. */
  type Adjacency = map<Id, seq<Id>>

  function Neighbours(adjacency: Adjacency, a: Id): seq<Id> {
    if a in adjacency then adjacency[a] else []
  }

  ghost predicate Views(adjacency: Adjacency, edges: seq<Edge>) {
    && (forall a, b :: b in Neighbours(adjacency, a) <==> Linked(edges, a, b))
    && (forall a :: Distinct(Neighbours(adjacency, a)))
  }

  function AddNeighbour(adjacency: Adjacency, a: Id, b: Id): Adjacency {
    var ns := Neighbours(adjacency, a);
    adjacency[a := if b in ns then ns else ns + [b]]
  }

  function AdjacencyOf(edges: seq<Edge>): Adjacency {
    if edges == [] then map[]
    else
      var n := |edges| - 1;
      var e := edges[n];
      AddNeighbour(AddNeighbour(AdjacencyOf(edges[..n]), e.source, e.target), e.target, e.source)
  }

  lemma AddsNeighbour(adjacency: Adjacency, a: Id, b: Id, x: Id)
    requires Distinct(Neighbours(adjacency, x))
    ensures Distinct(Neighbours(AddNeighbour(adjacency, a, b), x))
    ensures forall y :: y in Neighbours(AddNeighbour(adjacency, a, b), x) <==>
                        y in Neighbours(adjacency, x) || (x == a && y == b)
  {
  }

  lemma LinkedSnoc(edges: seq<Edge>, e: Edge, a: Id, b: Id)
    ensures Linked(edges + [e], a, b) <==>
            Linked(edges, a, b) || (e.source == a && e.target == b) || (e.source == b && e.target == a)
  {
    assert forall x :: x in edges + [e] <==> x in edges || x == e;
    assert e in edges + [e];
  }

  method BuildAdjacency(edges: seq<Edge>) returns (adjacency: Adjacency)
    ensures Views(adjacency, edges) && adjacency == AdjacencyOf(edges)
  {
    adjacency := map[];
    for i := 0 to |edges|
      invariant Views(adjacency, edges[..i]) && adjacency == AdjacencyOf(edges[..i])
    {
      var e := edges[i];
      ghost var before := adjacency;
      adjacency := AddNeighbour(AddNeighbour(adjacency, e.source, e.target), e.target, e.source);
      assert edges[..i + 1] == edges[..i] + [e];
      ViewsSnoc(before, edges[..i], e);
    }
    assert edges[..|edges|] == edges;
  }

  lemma ViewsSnoc(adjacency: Adjacency, edges: seq<Edge>, e: Edge)
    requires Views(adjacency, edges)
    ensures Views(AddNeighbour(AddNeighbour(adjacency, e.source, e.target), e.target, e.source), edges + [e])
  {
    var one := AddNeighbour(adjacency, e.source, e.target);
    var two := AddNeighbour(one, e.target, e.source);
    forall a ensures Distinct(Neighbours(two, a))
    {
      AddsNeighbour(adjacency, e.source, e.target, a);
      AddsNeighbour(one, e.target, e.source, a);
    }
    forall a, b ensures b in Neighbours(two, a) <==> Linked(edges + [e], a, b) {
      LinkedSnoc(edges, e, a, b);
      AddsNeighbour(adjacency, e.source, e.target, a);
      AddsNeighbour(one, e.target, e.source, a);
    }
  }

  // ---- breadth-first search --------------------------------------------------------------

  /** All walks of at most `level` edges end in `dist`, no farther than they are long. */
  ghost predicate Covers(edges: seq<Edge>, focus: Id, dist: map<Id, nat>, level: nat) {
    forall x, n: nat :: n <= level && Walks(edges, focus, x, n) ==> x in dist && dist[x] <= n
  }

  /** Every entry is witnessed by a walk of its length. */
  ghost predicate Witnessed(edges: seq<Edge>, focus: Id, dist: map<Id, nat>) {
    forall x :: x in dist ==> Walks(edges, focus, x, dist[x])
  }

  ghost predicate IsFrontier(frontier: seq<Id>, dist: map<Id, nat>, level: nat) {
    forall x :: x in frontier <==> x in dist && dist[x] == level
  }

  lemma CoversNext(edges: seq<Edge>, focus: Id, dist: map<Id, nat>, next: map<Id, nat>, level: nat)
    requires Covers(edges, focus, dist, level) && Witnessed(edges, focus, dist)
    requires forall x :: x in dist ==> x in next && next[x] == dist[x]
    requires forall m, x :: m in dist && dist[m] == level && Linked(edges, m, x) ==> x in next && next[x] <= level + 1
    requires forall x :: x in dist ==> dist[x] <= level
    ensures Covers(edges, focus, next, level + 1)
  {
    forall x, n: nat | n <= level + 1 && Walks(edges, focus, x, n) ensures x in next && next[x] <= n {
      if n <= level {
        assert x in dist && dist[x] <= n;
      } else {
        var m := WalksBack(edges, focus, x, n);
        assert m in dist && dist[m] <= level;
        if dist[m] < level {
          WalksOn(edges, focus, m, x, dist[m]);
          assert x in dist && dist[x] <= dist[m] + 1;
        }
      }
    }
  }

  /** Once a level adds nothing, no longer walk adds anything either. */
  lemma {:induction false} CoversAll(edges: seq<Edge>, focus: Id, dist: map<Id, nat>, level: nat, bound: nat)
    requires Covers(edges, focus, dist, level) && Witnessed(edges, focus, dist)
    requires forall x :: x in dist ==> dist[x] < level
    requires level <= bound
    ensures Covers(edges, focus, dist, bound)
    decreases bound - level
  {
    if level < bound {
      CoversNext(edges, focus, dist, dist, level);
      CoversAll(edges, focus, dist, level + 1, bound);
    }
  }

  /** The map is exactly the shortest distances up to the bound. */
  ghost predicate IsDistances(edges: seq<Edge>, focus: Id, bound: nat, dist: map<Id, nat>) {
    forall x, d: nat :: (x in dist && dist[x] == d) <==> (d <= bound && Shortest(edges, focus, x, d))
  }

  lemma CoveredIsExact(edges: seq<Edge>, focus: Id, bound: nat, dist: map<Id, nat>)
    requires Covers(edges, focus, dist, bound) && Witnessed(edges, focus, dist)
    requires forall x :: x in dist ==> dist[x] <= bound
    ensures IsDistances(edges, focus, bound, dist)
  {
    forall x, d: nat ensures (x in dist && dist[x] == d) <==> (d <= bound && Shortest(edges, focus, x, d)) {
      if d <= bound && Shortest(edges, focus, x, d) {
        assert x in dist && dist[x] <= d;
      }
      if x in dist && dist[x] == d {
        assert forall n: nat :: n < d ==> !Walks(edges, focus, x, n);
      }
    }
  }

  function Bound(radius: int): nat {
    if radius < 0 then 0 else radius
  }

  method BfsDistances(focus: Id, adjacency: Adjacency, radius: int, ghost edges: seq<Edge>)
    returns (dist: map<Id, nat>)
    requires Views(adjacency, edges)
    ensures IsDistances(edges, focus, Bound(radius), dist)
  {
    dist := map[focus := 0];
    var frontier := [focus];
    var d := 1;
    StartsCovered(edges, focus);
    while d <= radius && frontier != []
      invariant 1 <= d <= Bound(radius) + 1
      invariant Covers(edges, focus, dist, d - 1) && Witnessed(edges, focus, dist)
      invariant IsFrontier(frontier, dist, d - 1)
      invariant forall x :: x in dist ==> dist[x] <= d - 1
      decreases radius - d
    {
      ghost var before := dist;
      var next: seq<Id> := [];
      for i := 0 to |frontier|
        invariant Grown(edges, focus, before, dist, next, d)
        invariant Expanded(edges, frontier[..i], dist)
      {
        dist, next := Expand(focus, adjacency, edges, before, dist, next, d, frontier[i], frontier[..i]);
        assert frontier[..i + 1] == frontier[..i] + [frontier[i]];
      }
      assert frontier[..|frontier|] == frontier;
      CoversNext(edges, focus, before, dist, d - 1);
      frontier := next;
      d := d + 1;
    }
    if d <= radius {
      CoversAll(edges, focus, dist, d - 1, Bound(radius));
    }
    CoveredIsExact(edges, focus, Bound(radius), dist);
  }

  lemma StartsCovered(edges: seq<Edge>, focus: Id)
    ensures Covers(edges, focus, map[focus := 0], 0) && Witnessed(edges, focus, map[focus := 0])
  {
    forall x ensures Walks(edges, focus, x, 0) <==> focus == x {
      WalksHere(edges, focus, x);
    }
  }

  /** `dist` extends `before` by nodes at distance `d`, listed in `next`. */
  ghost predicate Grown(edges: seq<Edge>, focus: Id, before: map<Id, nat>, dist: map<Id, nat>, next: seq<Id>, d: nat) {
    && Witnessed(edges, focus, dist)
    && (forall x :: x in before ==> x in dist && dist[x] == before[x])
    && (forall x :: x in dist && x !in before ==> dist[x] == d)
    && (forall x :: x in next <==> x in dist && x !in before)
  }

  ghost predicate Expanded(edges: seq<Edge>, done: seq<Id>, dist: map<Id, nat>) {
    forall m, x :: m in done && Linked(edges, m, x) ==> x in dist
  }

  /** The neighbours of one frontier node. */
  method Expand(focus: Id, adjacency: Adjacency, ghost edges: seq<Edge>, ghost before: map<Id, nat>,
                dist0: map<Id, nat>, next0: seq<Id>, d: nat, id: Id, ghost done: seq<Id>)
    returns (dist: map<Id, nat>, next: seq<Id>)
    requires Views(adjacency, edges) && d > 0
    requires Grown(edges, focus, before, dist0, next0, d) && Expanded(edges, done, dist0)
    requires id in before && before[id] == d - 1
    ensures Grown(edges, focus, before, dist, next, d)
    ensures Expanded(edges, done + [id], dist)
  {
    dist, next := dist0, next0;
    var nbrs := Neighbours(adjacency, id);
    for j := 0 to |nbrs|
      invariant Grown(edges, focus, before, dist, next, d)
      invariant forall x :: x in dist0 ==> x in dist
      invariant forall k :: 0 <= k < j ==> nbrs[k] in dist
    {
      var nbr := nbrs[j];
      if nbr !in dist {
        assert nbr in nbrs;
        WalksOn(edges, focus, id, nbr, d - 1);
        dist := dist[nbr := d];
        next := next + [nbr];
      }
    }
    forall m, x | m in done + [id] && Linked(edges, m, x) ensures x in dist {
      if m == id {
        assert x in nbrs;
      }
    }
  }
}
