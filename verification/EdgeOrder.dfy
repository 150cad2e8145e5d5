/** How far the knowledge graph's expansion depends on the order of the edges. */
module EdgeOrder {
  import opened Lists
  import opened Graphs
  import opened KgScope

  /** The same edges in another order. */
  ghost predicate Reorders(other: seq<Edge>, edges: seq<Edge>) {
    multiset(other) == multiset(edges)
  }

  ghost predicate NearSeed(edges: seq<Edge>, seeds: set<Id>, x: Id) {
    x in seeds || exists s :: s in seeds && Linked(edges, s, x)
  }

  /** Every walk from a seed stays among the seeds and their neighbours. */
  ghost predicate OneHopIsAll(edges: seq<Edge>, seeds: set<Id>) {
    forall s, x, n: nat :: s in seeds && Walks(edges, s, x, n) ==> NearSeed(edges, seeds, x)
  }

  lemma SameLinks(other: seq<Edge>, edges: seq<Edge>)
    requires Reorders(other, edges)
    ensures forall e :: e in other <==> e in edges
    ensures forall a, b :: Linked(other, a, b) <==> Linked(edges, a, b)
  {
    forall e ensures e in other <==> e in edges {
      SameMembers(other, edges, e);
    }
  }

  lemma SameWalks(other: seq<Edge>, edges: seq<Edge>, a: Id, b: Id, n: nat)
    requires Reorders(other, edges) && Walks(other, a, b, n)
    ensures Walks(edges, a, b, n)
  {
    SameLinks(other, edges);
    var p :| IsWalk(other, p) && |p| == n + 1 && p[0] == a && p[n] == b;
    assert IsWalk(edges, p);
  }

  // ---- an order in which the scan takes one hop ---------------------------------------------------------

  function Touches(seeds: set<Id>): Edge -> bool {
    (e: Edge) => e.source in seeds || e.target in seeds
  }

  function Misses(seeds: set<Id>): Edge -> bool {
    (e: Edge) => e.source !in seeds && e.target !in seeds
  }

  /** The edges away from the seeds first: none of them pulls anything in. */
  function SeedsLast(edges: seq<Edge>, seeds: set<Id>): seq<Edge> {
    Filter(edges, Misses(seeds)) + Filter(edges, Touches(seeds))
  }

  lemma {:induction false} FilterSplits(edges: seq<Edge>, seeds: set<Id>)
    ensures Reorders(SeedsLast(edges, seeds), edges)
  {
    if edges != [] {
      FilterSplits(edges[1..], seeds);
      assert edges == [edges[0]] + edges[1..];
    }
  }

  lemma {:induction false} MissesPullNothing(edges: seq<Edge>, seeds: set<Id>)
    requires forall e :: e in edges ==> Misses(seeds)(e)
    ensures PullAll(edges, seeds) == seeds
  {
    if edges != [] {
      var n := |edges| - 1;
      assert edges[n] in edges && forall e :: e in edges[..n] ==> e in edges;
      MissesPullNothing(edges[..n], seeds);
    }
  }

  lemma {:induction false} TouchesPullNear(away: seq<Edge>, edges: seq<Edge>, seeds: set<Id>, all: seq<Edge>)
    requires PullAll(away, seeds) == seeds
    requires forall e :: e in edges ==> e in all && Touches(seeds)(e)
    ensures forall x :: x in PullAll(away + edges, seeds) ==> NearSeed(all, seeds, x)
  {
    if edges == [] {
      assert away + edges == away;
    } else {
      var n := |edges| - 1;
      var e := edges[n];
      assert e in edges && forall f :: f in edges[..n] ==> f in edges;
      TouchesPullNear(away, edges[..n], seeds, all);
      assert (away + edges)[..|away + edges| - 1] == away + edges[..n];
      assert Linked(all, e.source, e.target) && Linked(all, e.target, e.source);
    }
  }

  lemma SeedsLastTakesOneHop(edges: seq<Edge>, seeds: set<Id>)
    ensures Reorders(SeedsLast(edges, seeds), edges)
    ensures forall x :: x in PullAll(SeedsLast(edges, seeds), seeds) ==> NearSeed(edges, seeds, x)
  {
    FilterSplits(edges, seeds);
    FilterHolds(edges, Misses(seeds));
    FilterHolds(edges, Touches(seeds));
    MissesPullNothing(Filter(edges, Misses(seeds)), seeds);
    TouchesPullNear(Filter(edges, Misses(seeds)), Filter(edges, Touches(seeds)), seeds, edges);
  }

  // ---- an order in which it takes two --------------------------------------------------------------------

  lemma MoveToFront(edges: seq<Edge>, e: Edge) returns (rest: seq<Edge>)
    requires e in edges
    ensures Reorders([e] + rest, edges)
  {
    var i :| 0 <= i < |edges| && edges[i] == e;
    rest := edges[..i] + edges[i + 1..];
    assert edges == edges[..i] + [e] + edges[i + 1..];
  }

  /** Beyond the neighbours there is a node two hops away, by two different edges. */
  lemma {:induction false} SecondHop(edges: seq<Edge>, seeds: set<Id>, s: Id, x: Id, n: nat)
    returns (a: Id, b: Id, y: Id)
    requires s in seeds && Walks(edges, s, x, n) && !NearSeed(edges, seeds, x)
    ensures a in seeds && Linked(edges, a, b) && Linked(edges, b, y) && b !in seeds && !NearSeed(edges, seeds, y)
    decreases n
  {
    hide Walks, Linked;
    if n == 0 {
      WalksHere(edges, s, x);
    }
    var m := WalksBack(edges, s, x, n);
    if NearSeed(edges, seeds, m) {
      a :| a in seeds && Linked(edges, a, m);
      b, y := m, x;
    } else {
      a, b, y := SecondHop(edges, seeds, s, m, n - 1);
    }
  }

  lemma TwoHopsFirst(edges: seq<Edge>, seeds: set<Id>, a: Id, b: Id, y: Id) returns (other: seq<Edge>)
    requires a in seeds && Linked(edges, a, b) && Linked(edges, b, y) && b !in seeds && !NearSeed(edges, seeds, y)
    ensures Reorders(other, edges) && y in PullAll(other, seeds)
  {
    var e :| e in edges && ((e.source == a && e.target == b) || (e.source == b && e.target == a));
    var f :| f in edges && ((f.source == b && f.target == y) || (f.source == y && f.target == b));
    assert e != f;
    var rest := MoveToFront(edges, e);
    SameMembers([e] + rest, edges, f);
    assert f in rest;
    var last := MoveToFront(rest, f);
    other := [e, f] + last;
    assert other == [e] + ([f] + last);
    assert multiset(other) == multiset{e} + multiset([f] + last) == multiset([e] + rest);
    var ks: seq<nat> := [0, 1];
    assert RisingWalk(other, [a, b, y], ks);
    assert [a, b, y][0] in seeds && [a, b, y][|ks|] == y;
    PulledIsRising(other, seeds, y);
  }

  // ---- the theorem ---------------------------------------------------------------------------------------------

  /** The ids kept are the same under every order of the edges if and only if nothing reachable from a seed
      lies further off than its neighbours. */
  lemma OrderIsIrrelevant(edges: seq<Edge>, seeds: set<Id>)
    ensures (forall other :: Reorders(other, edges) ==> PullAll(other, seeds) == PullAll(edges, seeds)) <==>
            OneHopIsAll(edges, seeds)
  {
    hide PullAll, NearSeed, Walks;
    if OneHopIsAll(edges, seeds) {
      forall other | Reorders(other, edges) ensures PullAll(other, seeds) == PullAll(edges, seeds) {
        KeptAreNear(other, edges, seeds);
        KeptAreNear(edges, edges, seeds);
      }
    } else if forall other :: Reorders(other, edges) ==> PullAll(other, seeds) == PullAll(edges, seeds) {
      SeedsLastTakesOneHop(edges, seeds);
      var s, x, n: nat :| s in seeds && Walks(edges, s, x, n) && !NearSeed(edges, seeds, x);
      var a, b, y := SecondHop(edges, seeds, s, x, n);
      var other := TwoHopsFirst(edges, seeds, a, b, y);
      assert PullAll(other, seeds) == PullAll(SeedsLast(edges, seeds), seeds);
    }
  }

  lemma KeptAreNear(other: seq<Edge>, edges: seq<Edge>, seeds: set<Id>)
    requires Reorders(other, edges) && OneHopIsAll(edges, seeds)
    ensures forall x :: x in PullAll(other, seeds) <==> NearSeed(edges, seeds, x)
  {
    hide PullAll, Walks, Linked;
    SameLinks(other, edges);
    PulledIsSandwiched(other, seeds);
    forall x | x in PullAll(other, seeds) ensures NearSeed(edges, seeds, x) {
      var s, n: nat :| s in seeds && Walks(other, s, x, n);
      SameWalks(other, edges, s, x, n);
    }
  }
}
