/** `applyKnowledgeGraphScope`: the neighbourhood of a graph of assets of every kind. */
module KgScope {
  import opened Text
  import opened Lists
  import opened Sorting
  import opened Graphs
  import opened GraphScope

  // ---- pulling in connected assets ----------------------------------------------------

  /** One edge of the scan: an edge with an end in the set brings its other end in. */
  function Pull(keep: set<Id>, e: Edge): set<Id> {
    if e.source in keep || e.target in keep then keep + {e.source, e.target} else keep
  }

  function PullAll(edges: seq<Edge>, seeds: set<Id>): set<Id> {
    if edges == [] then seeds else Pull(PullAll(edges[..|edges| - 1], seeds), edges[|edges| - 1])
  }

  predicate Joins(e: Edge, a: Id, b: Id) {
    (e.source == a && e.target == b) || (e.source == b && e.target == a)
  }

  /** A walk along edges that stand ever later in the payload. */
  ghost predicate RisingWalk(edges: seq<Edge>, p: seq<Id>, ks: seq<nat>) {
    && |p| == |ks| + 1 && (ks != [] ==> ks[0] < |edges|)
    && (forall i :: 0 <= i < |ks| ==> ks[i] < |edges| && Joins(edges[ks[i]], p[i], p[i + 1]))
    && (forall i, j :: 0 <= i < j < |ks| ==> ks[i] < ks[j])
  }

  ghost predicate RisesTo(edges: seq<Edge>, seeds: set<Id>, x: Id) {
    exists p, ks :: RisingWalk(edges, p, ks) && p[0] in seeds && p[|ks|] == x
  }

  lemma RisesHere(edges: seq<Edge>, seeds: set<Id>, x: Id)
    requires x in seeds
    ensures RisesTo(edges, seeds, x)
  {
    assert RisingWalk(edges, [x], []);
  }

  lemma RisesSnoc(edges: seq<Edge>, e: Edge, seeds: set<Id>, x: Id)
    ensures RisesTo(edges + [e], seeds, x) <==>
            RisesTo(edges, seeds, x) || (exists y :: RisesTo(edges, seeds, y) && Joins(e, y, x))
  {
    var all := edges + [e];
    if RisesTo(edges, seeds, x) {
      var p, ks :| RisingWalk(edges, p, ks) && p[0] in seeds && p[|ks|] == x;
      assert RisingWalk(all, p, ks);
    }
    if y :| RisesTo(edges, seeds, y) && Joins(e, y, x) {
      var p, ks :| RisingWalk(edges, p, ks) && p[0] in seeds && p[|ks|] == y;
      var last: nat := |edges|;
      assert RisingWalk(all, p + [x], ks + [last]);
      assert (p + [x])[0] in seeds;
    }
    if RisesTo(all, seeds, x) {
      RisesSplit(edges, e, seeds, x);
    }
  }

  lemma RisesSplit(edges: seq<Edge>, e: Edge, seeds: set<Id>, x: Id)
    requires RisesTo(edges + [e], seeds, x)
    ensures RisesTo(edges, seeds, x) || (exists y :: RisesTo(edges, seeds, y) && Joins(e, y, x))
  {
    var all := edges + [e];
    var p, ks :| RisingWalk(all, p, ks) && p[0] in seeds && p[|ks|] == x;
    var m := |ks|;
    if m > 0 && ks[m - 1] == |edges| {
      var y := p[m - 1];
      forall i | 0 <= i < m - 1 ensures ks[i] < |edges| && Joins(edges[ks[i]], p[i], p[i + 1]) {
        assert ks[i] < ks[m - 1];
        assert all[ks[i]] == edges[ks[i]];
      }
      assert RisingWalk(edges, p[..m], ks[..m - 1]);
      assert p[..m][m - 1] == y;
      assert RisesTo(edges, seeds, y) && Joins(e, y, x);
    } else {
      forall i | 0 <= i < m ensures ks[i] < |edges| && Joins(edges[ks[i]], p[i], p[i + 1]) {
        if i < m - 1 { assert ks[i] < ks[m - 1]; }
        assert all[ks[i]] == edges[ks[i]];
      }
      assert RisingWalk(edges, p, ks);
    }
  }

  /** The set the scan grows is exactly what rising walks reach from the seeds: not one hop, and not
      the whole component either. */
  lemma {:induction false} PulledIsRising(edges: seq<Edge>, seeds: set<Id>, x: Id)
    ensures x in PullAll(edges, seeds) <==> RisesTo(edges, seeds, x)
  {
    if edges == [] {
      if x in seeds {
        RisesHere(edges, seeds, x);
      }
    } else {
      var n := |edges| - 1;
      var e := edges[n];
      assert edges == edges[..n] + [e];
      RisesSnoc(edges[..n], e, seeds, x);
      PulledIsRising(edges[..n], seeds, x);
      PulledIsRising(edges[..n], seeds, e.source);
      PulledIsRising(edges[..n], seeds, e.target);
      assert Joins(e, e.source, e.target) && Joins(e, e.target, e.source);
    }
  }

  lemma NeighbourRises(edges: seq<Edge>, seeds: set<Id>, s: Id, x: Id)
    requires s in seeds && Linked(edges, s, x)
    ensures RisesTo(edges, seeds, x)
  {
    var e :| e in edges && ((e.source == s && e.target == x) || (e.source == x && e.target == s));
    var k: nat :| k < |edges| && edges[k] == e;
    assert RisingWalk(edges, [s, x], [k]);
    assert [s, x][0] in seeds && [s, x][1] == x;
  }

  lemma RisingWalks(edges: seq<Edge>, seeds: set<Id>, x: Id)
    requires RisesTo(edges, seeds, x)
    ensures exists s, n: nat :: s in seeds && Walks(edges, s, x, n)
  {
    var p, ks :| RisingWalk(edges, p, ks) && p[0] in seeds && p[|ks|] == x;
    forall i | 0 <= i < |p| - 1 ensures Linked(edges, p[i], p[i + 1]) {
      assert edges[ks[i]] in edges;
    }
    assert IsWalk(edges, p);
    assert Walks(edges, p[0], x, |ks|);
  }

  /** Every seed and every neighbour of a seed is kept, and whatever is kept is reachable from a seed. */
  lemma PulledIsSandwiched(edges: seq<Edge>, seeds: set<Id>)
    ensures seeds <= PullAll(edges, seeds)
    ensures forall s, x :: s in seeds && Linked(edges, s, x) ==> x in PullAll(edges, seeds)
    ensures forall x :: x in PullAll(edges, seeds) ==> exists s, n: nat :: s in seeds && Walks(edges, s, x, n)
  {
    hide RisesTo, Linked, Walks, PullAll;
    forall x | x in seeds ensures x in PullAll(edges, seeds) {
      RisesHere(edges, seeds, x);
      PulledIsRising(edges, seeds, x);
    }
    forall s, x | s in seeds && Linked(edges, s, x) ensures x in PullAll(edges, seeds) {
      NeighbourRises(edges, seeds, s, x);
      PulledIsRising(edges, seeds, x);
    }
    forall x | x in PullAll(edges, seeds) ensures exists s, n: nat :: s in seeds && Walks(edges, s, x, n) {
      PulledIsRising(edges, seeds, x);
      RisingWalks(edges, seeds, x);
    }
  }

  // ---- the scoped payload -----------------------------------------------------------------

  function SchemaIds(nodes: seq<Node>, schema: string): set<Id> {
    set n | n in nodes && n.schema == Some(schema) :: n.id
  }

  function Seeds(base: Graph, scope: Option<Scope>, near: Near): set<Id> {
    if near.Some? then near.value.Keys
    else if scope.Some? && Given(scope.value.schema) then SchemaIds(base.nodes, scope.value.schema.value)
    else Ids(base.nodes)
  }

  function Kept(base: Graph, scope: Option<Scope>, near: Near): set<Id> {
    if Narrowing(scope) then PullAll(base.edges, Seeds(base, scope, near)) else Seeds(base, scope, near)
  }

  /** The known nodes of a set of ids, one each. */
  ghost predicate IsListing(listing: seq<Node>, ids: set<Id>, byId: map<Id, Node>) {
    && (forall n :: n in listing <==> n.id in ids && n.id in byId && byId[n.id] == n)
    && (forall i, j :: 0 <= i < j < |listing| ==> listing[i].id != listing[j].id)
  }

  predicate IsKind(byId: map<Id, Node>, kind: string, id: Id) {
    id in byId && byId[id].kind == kind
  }

  function Tables(byId: map<Id, Node>): Id -> bool {
    (id: Id) => IsKind(byId, "table", id)
  }

  function LowConfidence(confidence: Option<real>): bool {
    Or(confidence, 1.0) < 0.7
  }

  /** A join whose two tables are one kept and one left out, of different schemas. */
  function Bridge(byId: map<Id, Node>, adjacency: Adjacency, ids: set<Id>, node: Node): Option<BoundaryEdge> {
    var ends := Filter(Neighbours(adjacency, node.id), Tables(byId));
    if node.kind != "join" || |ends| != 2 || (ends[0] in ids) == (ends[1] in ids) then None
    else
      var inId := if ends[0] in ids then ends[0] else ends[1];
      var outId := if ends[0] in ids then ends[1] else ends[0];
      if inId in byId && outId in byId && Given(byId[outId].schema) && byId[outId].schema != byId[inId].schema then
        Some(BoundaryEdge("boundary_" + node.id, inId, byId[outId].schema.value, outId, byId[outId].name,
                          node.name, None, node.confidence, LowConfidence(node.confidence)))
      else None
  }

  function Bridges(byId: map<Id, Node>, adjacency: Adjacency, ids: set<Id>, nodes: seq<Node>): seq<BoundaryEdge> {
    if nodes == [] then []
    else
      var n := |nodes| - 1;
      var b := Bridge(byId, adjacency, ids, nodes[n]);
      Bridges(byId, adjacency, ids, nodes[..n]) + (if b.Some? then [b.value] else [])
  }

  ghost predicate ScopedBy(base: Graph, scope: Option<Scope>, localeLe: (Id, Id) -> bool, near: Near,
                           listing: seq<Node>, r: Graph)
  {
    var byId, keep := NodeById(base.nodes), Kept(base, scope, near);
    && IsListing(listing, keep, byId)
    && Truncates(listing, r.nodes, Or(Budget(scope, DEFAULT_KG_BUDGET), |keep|), NodeOrder(near, localeLe))
    && r.edges == Filter(base.edges, BothIn(Ids(r.nodes)))
    && r.boundary == Some(Bridges(byId, AdjacencyOf(base.edges), Ids(r.nodes), base.nodes))
    && |r.nodes| <= |keep|
    && r.meta == Some(ScopeMeta(|base.nodes|, |keep|, |r.nodes|, |r.edges|, scope))
  }

  ghost predicate Scoped(base: Graph, scope: Option<Scope>, localeLe: (Id, Id) -> bool, r: Graph) {
    if EngineScopeMatches(base.meta, scope) then r == base
    else if !Narrowing(scope) && Budget(scope, DEFAULT_KG_BUDGET).None? then r == Unscoped(base, scope)
    else exists near, listing ::
      IsNear(base.edges, scope, near) && ScopedBy(base, scope, localeLe, near, listing, r)
  }

  method ApplyKnowledgeGraphScope(base: Graph, scope: Option<Scope>, localeLe: (Id, Id) -> bool) returns (r: Graph)
    requires Orders(localeLe)
    ensures Scoped(base, scope, localeLe, r)
  {
    if EngineScopeMatches(base.meta, scope) {
      return base;
    }
    var budget := Budget(scope, DEFAULT_KG_BUDGET);
    if !Narrowing(scope) && budget.None? {
      return Unscoped(base, scope);
    }
    var byId := NodeById(base.nodes);
    var adjacency := BuildAdjacency(base.edges);
    var near: Near := None;
    if Focused(scope) {
      var dist := BfsDistances(scope.value.focus.value, adjacency, Or(scope.value.radius, 1), base.edges);
      near := Some(dist);
    }
    var keep := Seeds(base, scope, near);
    if Narrowing(scope) {
      keep := PullIn(base.edges, keep);
    }
    NodeByIdFinds(base.nodes);
    var listing := ListKept(keep, byId);
    var limit := Or(budget, |keep|);
    var kept := OrderAndSlice(listing, near, localeLe, limit);
    TruncationIsPart(listing, kept, limit, NodeOrder(near, localeLe));
    var ids := Ids(kept);
    var inScope := Filter(base.edges, BothIn(ids));
    var boundary := FindBridges(base.nodes, byId, adjacency, ids);
    r := Graph(kept, inScope, Some(boundary),
               Some(ScopeMeta(|base.nodes|, |keep|, |kept|, |inScope|, scope)));
    assert ScopedBy(base, scope, localeLe, near, listing, r);
  }

  method PullIn(edges: seq<Edge>, seeds: set<Id>) returns (keep: set<Id>)
    ensures keep == PullAll(edges, seeds)
  {
    keep := seeds;
    for i := 0 to |edges|
      invariant keep == PullAll(edges[..i], seeds)
    {
      var e := edges[i];
      assert edges[..i + 1][..i] == edges[..i];
      if e.source in keep {
        keep := keep + {e.target};
      }
      if e.target in keep {
        keep := keep + {e.source};
      }
    }
    assert edges[..|edges|] == edges;
  }

  /** `[...keep].map(id => nodeById.get(id)).filter(Boolean)`, in any order: the sort settles it. */
  method ListKept(keep: set<Id>, byId: map<Id, Node>) returns (listing: seq<Node>)
    requires forall id :: id in byId ==> byId[id].id == id
    ensures IsListing(listing, keep, byId)
    ensures |listing| <= |keep|
  {
    listing := [];
    var left := keep;
    while left != {}
      invariant left <= keep
      invariant IsListing(listing, keep - left, byId)
      invariant |listing| <= |keep| - |left|
      decreases left
    {
      var id :| id in left;
      left := left - {id};
      if id in byId {
        listing := listing + [byId[id]];
      }
    }
  }

  method FindBridges(nodes: seq<Node>, byId: map<Id, Node>, adjacency: Adjacency, ids: set<Id>)
    returns (boundary: seq<BoundaryEdge>)
    ensures boundary == Bridges(byId, adjacency, ids, nodes)
  {
    boundary := [];
    for i := 0 to |nodes|
      invariant boundary == Bridges(byId, adjacency, ids, nodes[..i])
    {
      assert nodes[..i + 1][..i] == nodes[..i];
      var found := Bridge(byId, adjacency, ids, nodes[i]);
      if found.Some? {
        boundary := boundary + [found.value];
      }
    }
    assert nodes[..|nodes|] == nodes;
  }

  /** A join whose only two tables are `inId`, kept, and `outId`, left out, of another schema. */
  ghost predicate JoinsAcross(edges: seq<Edge>, byId: map<Id, Node>, ids: set<Id>, node: Node, inId: Id, outId: Id) {
    && node.kind == "join" && inId in ids && outId !in ids
    && (forall id :: Linked(edges, node.id, id) && IsKind(byId, "table", id) <==> id == inId || id == outId)
    && inId in byId && outId in byId && Given(byId[outId].schema) && byId[outId].schema != byId[inId].schema
  }

  function BridgeEdge(byId: map<Id, Node>, node: Node, inId: Id, outId: Id): BoundaryEdge
    requires outId in byId && byId[outId].schema.Some?
  {
    BoundaryEdge("boundary_" + node.id, inId, byId[outId].schema.value, outId, byId[outId].name,
                 node.name, None, node.confidence, LowConfidence(node.confidence))
  }

  lemma TwoOf(xs: seq<Id>, x: Id, y: Id)
    requires Distinct(xs) && x != y && forall id :: id in xs <==> id == x || id == y
    ensures xs == [x, y] || xs == [y, x]
  {
    SizeOfDistinct(xs);
    assert (set id | id in xs) == {x, y};
    assert xs[0] in xs && xs[1] in xs;
  }

  /** A join node yields a bridge exactly if it joins across, whichever of its tables was linked first. */
  lemma BridgeJoins(edges: seq<Edge>, byId: map<Id, Node>, adjacency: Adjacency, ids: set<Id>, node: Node,
                    b: BoundaryEdge)
    requires Views(adjacency, edges)
    ensures Bridge(byId, adjacency, ids, node) == Some(b) <==>
            exists inId, outId ::
              JoinsAcross(edges, byId, ids, node, inId, outId) && b == BridgeEdge(byId, node, inId, outId)
  {
    hide Filter, Linked;
    var ends := Filter(Neighbours(adjacency, node.id), Tables(byId));
    FilterDistinct(Neighbours(adjacency, node.id), Tables(byId));
    FilterHolds(Neighbours(adjacency, node.id), Tables(byId));
    assert forall id :: id in ends <==> Linked(edges, node.id, id) && IsKind(byId, "table", id);
    if Bridge(byId, adjacency, ids, node) == Some(b) {
      var inId := if ends[0] in ids then ends[0] else ends[1];
      var outId := if ends[0] in ids then ends[1] else ends[0];
      assert JoinsAcross(edges, byId, ids, node, inId, outId);
    }
    if inId, outId :| JoinsAcross(edges, byId, ids, node, inId, outId) && b == BridgeEdge(byId, node, inId, outId) {
      TwoOf(ends, inId, outId);
    }
  }

  /** The boundary of the payload: one entry for every join that joins across, and no other. */
  lemma {:induction false} BridgesJoin(edges: seq<Edge>, byId: map<Id, Node>, adjacency: Adjacency, ids: set<Id>,
                                       nodes: seq<Node>, b: BoundaryEdge)
    requires Views(adjacency, edges)
    ensures b in Bridges(byId, adjacency, ids, nodes) <==>
            exists node, inId, outId :: node in nodes && JoinsAcross(edges, byId, ids, node, inId, outId)
                                        && b == BridgeEdge(byId, node, inId, outId)
  {
    hide Bridge, JoinsAcross;
    if nodes != [] {
      var n := |nodes| - 1;
      assert nodes == nodes[..n] + [nodes[n]];
      BridgesJoin(edges, byId, adjacency, ids, nodes[..n], b);
      BridgeJoins(edges, byId, adjacency, ids, nodes[n], b);
    }
  }

  // ---- what it keeps ---------------------------------------------------------------------

  /** Nodes within the radius come before nodes pulled in over an edge, so a budget cuts the pulled-in
      ones first; and the returned edges are exactly the ones between returned nodes. */
  lemma NeighbourhoodComesFirst(base: Graph, scope: Option<Scope>, localeLe: (Id, Id) -> bool, r: Graph)
    requires Scoped(base, scope, localeLe, r) && !EngineScopeMatches(base.meta, scope) && Focused(scope)
    ensures forall e :: e in r.edges <==> e in base.edges && e.source in Ids(r.nodes) && e.target in Ids(r.nodes)
    ensures forall i, j | 0 <= i < |r.nodes| && 0 <= j < |r.nodes| ::
              InRadius(base, scope, r.nodes[i].id) && !InRadius(base, scope, r.nodes[j].id) ==> i < j
    ensures forall n, m | n in r.nodes && !InRadius(base, scope, n.id) ::
              Known(base, m) && InRadius(base, scope, m.id) ==> m in r.nodes
  {
    hide NodeById, Kept, IsDistances, Truncates;
    var near, listing :| IsNear(base.edges, scope, near) && ScopedBy(base, scope, localeLe, near, listing, r);
    FilterHolds(base.edges, BothIn(Ids(r.nodes)));
    NearIsRadius(base, scope, near);
    forall i, j | 0 <= i < |r.nodes| && 0 <= j < |r.nodes| && InRadius(base, scope, r.nodes[i].id)
                  && !InRadius(base, scope, r.nodes[j].id)
      ensures i < j
    {
      NearerStandsBefore(base, scope, localeLe, near, listing, r, i, j);
    }
    forall n, m | n in r.nodes && !InRadius(base, scope, n.id) && Known(base, m) && InRadius(base, scope, m.id)
      ensures m in r.nodes
    {
      NearerIsKept(base, scope, localeLe, near, listing, r, n, m);
    }
  }

  lemma NearerStandsBefore(base: Graph, scope: Option<Scope>, localeLe: (Id, Id) -> bool, near: Near,
                           listing: seq<Node>, r: Graph, i: nat, j: nat)
    requires ScopedBy(base, scope, localeLe, near, listing, r) && near.Some?
    requires i < |r.nodes| && j < |r.nodes|
    requires r.nodes[i].id in near.value && r.nodes[j].id !in near.value
    ensures i < j
  {
    hide NodeById, Kept, Truncates;
    var le := NodeOrder(near, localeLe);
    TruncationKeepsFirst(listing, r.nodes, Or(Budget(scope, DEFAULT_KG_BUDGET), |Kept(base, scope, near)|), le);
    assert !le(r.nodes[j], r.nodes[i]);
  }

  lemma NearerIsKept(base: Graph, scope: Option<Scope>, localeLe: (Id, Id) -> bool, near: Near,
                     listing: seq<Node>, r: Graph, n: Node, m: Node)
    requires ScopedBy(base, scope, localeLe, near, listing, r) && near.Some?
    requires n in r.nodes && n.id !in near.value
    requires Known(base, m) && m.id in near.value
    ensures m in r.nodes
  {
    hide NodeById, Truncates, Kept;
    var le := NodeOrder(near, localeLe);
    TruncationKeepsFirst(listing, r.nodes, Or(Budget(scope, DEFAULT_KG_BUDGET), |Kept(base, scope, near)|), le);
    SeedIsKept(base, scope, near, m.id);
    assert m in listing;
    assert !le(n, m);
  }

  lemma SeedIsKept(base: Graph, scope: Option<Scope>, near: Near, id: Id)
    requires near.Some? && id in near.value
    ensures id in Kept(base, scope, near)
  {
    PulledIsSandwiched(base.edges, Seeds(base, scope, near));
  }

  predicate Known(base: Graph, m: Node) {
    m.id in NodeById(base.nodes) && NodeById(base.nodes)[m.id] == m
  }

  ghost predicate InRadius(base: Graph, scope: Option<Scope>, id: Id)
    requires Focused(scope)
  {
    exists d: nat :: d <= Bound(Or(scope.value.radius, 1)) && Shortest(base.edges, scope.value.focus.value, id, d)
  }

  lemma NearIsRadius(base: Graph, scope: Option<Scope>, near: Near)
    requires Focused(scope) && IsNear(base.edges, scope, near)
    ensures forall id :: id in near.value <==> InRadius(base, scope, id)
  {
    forall id ensures id in near.value <==> InRadius(base, scope, id) {
      if id in near.value {
        assert Shortest(base.edges, scope.value.focus.value, id, near.value[id]);
      }
    }
  }

  lemma {:induction false} ListingSize(listing: seq<Node>, ids: set<Id>, byId: map<Id, Node>)
    requires IsListing(listing, ids, byId)
    requires forall id :: id in byId ==> byId[id].id == id
    ensures |listing| == |ids * byId.Keys|
  {
    assert forall id :: id in ids * byId.Keys ==> byId[id] in listing;
    if listing == [] {
      assert ids * byId.Keys == {};
    } else {
      var n := |listing| - 1;
      var last, fewer := listing[n].id, ids - {listing[n].id};
      assert listing[n] in listing;
      assert listing == listing[..n] + [listing[n]];
      ListingSize(listing[..n], fewer, byId);
      assert ids * byId.Keys == fewer * byId.Keys + {last};
    }
  }

  /** Where the expansion starts, said without the search. */
  ghost predicate SeedId(base: Graph, scope: Option<Scope>, id: Id) {
    if Focused(scope) then InRadius(base, scope, id)
    else exists n :: n in base.nodes && n.id == id && InSchema(scope, n)
  }

  /** The ids the payload is about: rising walks from the seeds when narrowing, the seeds otherwise. */
  ghost predicate KeptId(base: Graph, scope: Option<Scope>, id: Id) {
    if Narrowing(scope) then
      exists p, ks :: RisingWalk(base.edges, p, ks) && SeedId(base, scope, p[0]) && p[|ks|] == id
    else SeedId(base, scope, id)
  }

  lemma KeptIsKeptId(base: Graph, scope: Option<Scope>, near: Near, id: Id)
    requires IsNear(base.edges, scope, near)
    ensures id in Kept(base, scope, near) <==> KeptId(base, scope, id)
  {
    hide InRadius, IsDistances;
    var seeds := Seeds(base, scope, near);
    if Focused(scope) {
      NearIsRadius(base, scope, near);
    }
    assert forall x :: x in seeds <==> SeedId(base, scope, x);
    PulledIsRising(base.edges, seeds, id);
    if Narrowing(scope) && RisesTo(base.edges, seeds, id) {
      var p, ks :| RisingWalk(base.edges, p, ks) && p[0] in seeds && p[|ks|] == id;
      assert SeedId(base, scope, p[0]);
    }
    if Narrowing(scope) && KeptId(base, scope, id) {
      var p, ks :| RisingWalk(base.edges, p, ks) && SeedId(base, scope, p[0]) && p[|ks|] == id;
      assert p[0] in seeds;
    }
  }

  lemma PartIsShort<T(!new)>(part: seq<T>, whole: seq<T>)
    requires multiset(part) <= multiset(whole) && Distinct(whole)
    ensures |part| <= |whole|
    ensures |part| == |whole| <==> forall x :: x in whole ==> x in part
  {
    var rest := multiset(whole) - multiset(part);
    assert multiset(whole) == multiset(part) + rest;
    assert |multiset(whole)| == |whole| && |multiset(part)| == |part|;
    forall x | x in whole && x in part ensures x !in rest {
      OnlyOnce(whole, x);
      assert x in multiset(part);
    }
    forall x | x in whole && x !in part ensures x in rest {
      assert x in multiset(whole) && x !in multiset(part);
    }
    if x :| x in rest {
      assert x in multiset(whole);
    }
  }

  /** What comes back, with or without a focus: nodes the scope is about, once each, and all edges between them;
      one is left out only when the budget is too small for all, and without a focus none returned comes after
      it by id. */
  lemma ReturnedAreKept(base: Graph, scope: Option<Scope>, localeLe: (Id, Id) -> bool, r: Graph)
    requires Scoped(base, scope, localeLe, r) && !EngineScopeMatches(base.meta, scope) && scope.Some?
    requires (scope.value.focus.Some? && scope.value.focus.value != "")
             || (scope.value.schema.Some? && scope.value.schema.value != "") || scope.value.nodeBudget.Some?
    ensures forall n :: n in r.nodes ==> Known(base, n) && KeptId(base, scope, n.id)
    ensures forall e :: e in r.edges <==> e in base.edges && e.source in Ids(r.nodes) && e.target in Ids(r.nodes)
    ensures r.meta.Some? && r.meta.value.nTotalNodes == |base.nodes| && r.meta.value.nNodes == |r.nodes|
    ensures var budget := if scope.value.nodeBudget.Some? then scope.value.nodeBudget.value else 150;
            && (0 <= budget ==> |r.nodes| <= budget)
            && forall m :: Known(base, m) && KeptId(base, scope, m.id) && m !in r.nodes ==>
                 && (0 <= budget ==> |r.nodes| == budget)
                 && (scope.value.focus.None? ==> forall n :: n in r.nodes ==> localeLe(n.id, m.id))
  {
    hide Kept, KeptId, Truncates, NodeById, Bridges, Filter, IsDistances;
    var near, listing :| IsNear(base.edges, scope, near) && ScopedBy(base, scope, localeLe, near, listing, r);
    var keep := Kept(base, scope, near);
    var limit, le := Or(Budget(scope, DEFAULT_KG_BUDGET), |keep|), NodeOrder(near, localeLe);
    forall id ensures id in keep <==> KeptId(base, scope, id) {
      KeptIsKeptId(base, scope, near, id);
    }
    TruncationIsPart(listing, r.nodes, limit, le);
    TruncationKeepsFirst(listing, r.nodes, limit, le);
    FilterHolds(base.edges, BothIn(Ids(r.nodes)));
    PartIsShort(r.nodes, listing);
    assert forall m :: m in listing <==> Known(base, m) && KeptId(base, scope, m.id);
    forall m, n | m in listing && m !in r.nodes && n in r.nodes && near.None? ensures localeLe(n.id, m.id) {
      assert le(n, m);
    }
  }

  /** Exactly when the payload reports truncation: a node it is about was cut, or an id it is about names
      no node. `n_matched_nodes` counts the ids, so the second is reported although nothing was cut. */
  lemma TruncatedWithoutCutting(base: Graph, scope: Option<Scope>, localeLe: (Id, Id) -> bool, r: Graph)
    requires Scoped(base, scope, localeLe, r) && !EngineScopeMatches(base.meta, scope)
    requires Narrowing(scope) || Budget(scope, DEFAULT_KG_BUDGET).Some?
    ensures r.meta.Some?
    ensures r.meta.value.truncated <==>
            || (exists m :: Known(base, m) && KeptId(base, scope, m.id) && m !in r.nodes)
            || (exists id :: KeptId(base, scope, id) && id !in Ids(base.nodes))
  {
    hide Kept, KeptId, Truncates, NodeById, Bridges, Filter, IsDistances;
    var near, listing :| IsNear(base.edges, scope, near) && ScopedBy(base, scope, localeLe, near, listing, r);
    var keep, byId := Kept(base, scope, near), NodeById(base.nodes);
    forall id ensures id in keep <==> KeptId(base, scope, id) {
      KeptIsKeptId(base, scope, near, id);
    }
    NodeByIdFinds(base.nodes);
    var limit := Or(Budget(scope, DEFAULT_KG_BUDGET), |keep|);
    TruncationIsPart(listing, r.nodes, limit, NodeOrder(near, localeLe));
    ListingSize(listing, keep, byId);
    PartSize(keep, byId.Keys);
    PartIsShort(r.nodes, listing);
    assert byId.Keys == Ids(base.nodes);
    assert forall m :: m in listing <==> Known(base, m) && KeptId(base, scope, m.id);
  }

  lemma PartSize<T>(a: set<T>, b: set<T>)
    ensures |a * b| <= |a|
    ensures |a * b| == |a| <==> a <= b
  {
    assert a == a * b + (a - b);
    assert a <= b <==> a - b == {};
  }

  // ---- and two payloads that show it ---------------------------------------------------------

  /** One node, and an edge to an id that is none. */
  function LoneNode(): Graph {
    Graph([PlainNode("a")], [PlainEdge("a", "x")], None, None)
  }

  /** Every node there is comes back, and still the payload says `truncated`. */
  lemma UnknownIdTruncates(localeLe: (Id, Id) -> bool, r: Graph)
    requires Scoped(LoneNode(), Some(Scope(None, Some("a"), None, None)), localeLe, r)
    ensures r.nodes == LoneNode().nodes && r.meta.Some? && r.meta.value.truncated
  {
    hide Truncates, Bridges, Filter, IsDistances, InRadius;
    var base, scope := LoneNode(), Some(Scope(None, Some("a"), None, None));
    var near, listing :| IsNear(base.edges, scope, near) && ScopedBy(base, scope, localeLe, near, listing, r);
    LoneNodeReaches();
    NearIsRadius(base, scope, near);
    SeedIsKept(base, scope, near, "a");
    SeedIsKept(base, scope, near, "x");
    LoneListing(listing, Kept(base, scope, near));
    TruncationIsPart(listing, r.nodes, DEFAULT_KG_BUDGET, NodeOrder(near, localeLe));
    assert r.nodes[0] in multiset(r.nodes);
    assert {"a", "x"} <= Kept(base, scope, near);
    SubsetSize({"a", "x"}, Kept(base, scope, near));
  }

  lemma LoneNodeReaches()
    ensures InRadius(LoneNode(), Some(Scope(None, Some("a"), None, None)), "a")
    ensures InRadius(LoneNode(), Some(Scope(None, Some("a"), None, None)), "x")
  {
    var edges := LoneNode().edges;
    assert edges[0] in edges;
    WalksHere(edges, "a", "a");
    WalksHere(edges, "a", "x");
    WalksOn(edges, "a", "a", "x", 0);
    assert Shortest(edges, "a", "a", 0) && Shortest(edges, "a", "x", 1);
  }

  lemma LoneListing(listing: seq<Node>, ids: set<Id>)
    requires IsListing(listing, ids, NodeById(LoneNode().nodes)) && "a" in ids
    ensures listing == [PlainNode("a")]
  {
    assert LoneNode().nodes[..0] == [];
    assert NodeById(LoneNode().nodes) == map["a" := PlainNode("a")];
    assert PlainNode("a") in listing;
    assert forall i :: 0 <= i < |listing| ==> listing[i] in listing && listing[i] == PlainNode("a");
    assert |listing| > 1 ==> listing[0].id != listing[1].id;
  }

  lemma SubsetSize<T>(a: set<T>, b: set<T>)
    requires a <= b
    ensures |a| <= |b|
  {
    assert b == a + (b - a);
  }

  /** The same two edges the other way round: `c` is pulled in or not. */
  lemma EdgeOrderMatters()
    ensures "c" in PullAll([PlainEdge("a", "b"), PlainEdge("b", "c")], {"a"})
    ensures "c" !in PullAll([PlainEdge("b", "c"), PlainEdge("a", "b")], {"a"})
  {
    var ab, bc := PlainEdge("a", "b"), PlainEdge("b", "c");
    assert [ab, bc][..1] == [ab] && [bc, ab][..1] == [bc] && [ab][..0] == [] && [bc][..0] == [];
    assert PullAll([], {"a"}) == {"a"};
    assert PullAll([ab], {"a"}) == {"a", "b"};
    assert PullAll([bc], {"a"}) == {"a"};
  }
}
