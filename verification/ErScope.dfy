/** `applyErGraphScope`: a budgeted neighbourhood of the table graph. */
module ErScope {
  import opened Text
  import opened Lists
  import opened Sorting
  import opened Graphs
  import opened GraphScope

  function OfSchema(schema: string): Node -> bool {
    (n: Node) => n.schema == Some(schema)
  }

  function WithinReach(dist: map<Id, nat>): Node -> bool {
    (n: Node) => n.id in dist
  }

  /** A focus overrides the schema filter. */
  function Candidates(base: Graph, scope: Option<Scope>, near: Near): seq<Node> {
    if near.Some? then Filter(base.nodes, WithinReach(near.value))
    else if scope.Some? && Given(scope.value.schema) then Filter(base.nodes, OfSchema(scope.value.schema.value))
    else base.nodes
  }

  /** An edge with one end kept, when its other end is a known table of a different schema. */
  function Crossing(byId: map<Id, Node>, ids: set<Id>, e: Edge): Option<BoundaryEdge> {
    if (e.source in ids) == (e.target in ids) then None
    else
      var inId := if e.source in ids then e.source else e.target;
      var outId := if e.source in ids then e.target else e.source;
      if outId in byId && inId in byId && Given(byId[outId].schema) && byId[outId].schema != byId[inId].schema then
        Some(BoundaryEdge("boundary_" + e.id, inId, byId[outId].schema.value, outId, byId[outId].name,
                          e.on, e.cardinality, e.confidence, e.lowConfidence))
      else None
  }

  function Crossings(byId: map<Id, Node>, ids: set<Id>, edges: seq<Edge>): seq<BoundaryEdge> {
    if edges == [] then []
    else
      var n := |edges| - 1;
      var c := Crossing(byId, ids, edges[n]);
      Crossings(byId, ids, edges[..n]) + (if c.Some? then [c.value] else [])
  }

  /** The payload after narrowing to `near` and truncating. */
  ghost predicate ScopedBy(base: Graph, scope: Option<Scope>, localeLe: (Id, Id) -> bool, near: Near, r: Graph) {
    var candidates := Candidates(base, scope, near);
    var limit := Or(Budget(scope, DEFAULT_ER_BUDGET), |candidates|);
    && Truncates(candidates, r.nodes, limit, NodeOrder(near, localeLe))
    && r.edges == Filter(base.edges, BothIn(Ids(r.nodes)))
    && r.boundary == Some(Crossings(NodeById(base.nodes), Ids(r.nodes), base.edges))
    && |r.nodes| <= |candidates|
    && r.meta == Some(ScopeMeta(|base.nodes|, |candidates|, |r.nodes|, |r.edges|, scope))
  }

  ghost predicate Scoped(base: Graph, scope: Option<Scope>, localeLe: (Id, Id) -> bool, r: Graph) {
    if EngineScopeMatches(base.meta, scope) then r == base
    else if !Narrowing(scope) && Budget(scope, DEFAULT_ER_BUDGET).None? then r == Unscoped(base, scope)
    else exists near :: IsNear(base.edges, scope, near) && ScopedBy(base, scope, localeLe, near, r)
  }

  method ApplyErGraphScope(base: Graph, scope: Option<Scope>, localeLe: (Id, Id) -> bool) returns (r: Graph)
    requires Orders(localeLe)
    ensures Scoped(base, scope, localeLe, r)
  {
    if EngineScopeMatches(base.meta, scope) {
      return base;
    }
    var budget := Budget(scope, DEFAULT_ER_BUDGET);
    if !Narrowing(scope) && budget.None? {
      return Unscoped(base, scope);
    }
    var byId := NodeById(base.nodes);
    var adjacency := BuildAdjacency(base.edges);
    var near: Near := None;
    if Focused(scope) {
      var dist := BfsDistances(scope.value.focus.value, adjacency, Or(scope.value.radius, 1), base.edges);
      near := Some(dist);
    }
    var candidates := Candidates(base, scope, near);
    var kept := OrderAndSlice(candidates, near, localeLe, Or(budget, |candidates|));
    TruncationIsPart(candidates, kept, Or(budget, |candidates|), NodeOrder(near, localeLe));
    var ids := Ids(kept);
    var inScope, boundary := SortEdges(base.edges, byId, ids);
    r := Graph(kept, inScope, Some(boundary),
               Some(ScopeMeta(|base.nodes|, |candidates|, |kept|, |inScope|, scope)));
    assert ScopedBy(base, scope, localeLe, near, r);
  }

  /** In-scope edges and boundary edges, in one pass. */
  method SortEdges(edges: seq<Edge>, byId: map<Id, Node>, ids: set<Id>)
    returns (inScope: seq<Edge>, boundary: seq<BoundaryEdge>)
    ensures inScope == Filter(edges, BothIn(ids))
    ensures boundary == Crossings(byId, ids, edges)
  {
    hide Filter, Crossings;
    inScope, boundary := [], [];
    NothingSorted(byId, ids);
    for i := 0 to |edges|
      invariant inScope == Filter(edges[..i], BothIn(ids))
      invariant boundary == Crossings(byId, ids, edges[..i])
    {
      var e := edges[i];
      assert edges[..i + 1] == edges[..i] + [e];
      SortOne(edges[..i], e, byId, ids);
      var srcIn, tgtIn := e.source in ids, e.target in ids;
      if srcIn && tgtIn {
        inScope := inScope + [e];
      } else if srcIn || tgtIn {
        var inId := if srcIn then e.source else e.target;
        var outId := if srcIn then e.target else e.source;
        if outId in byId && inId in byId {
          var out, inNode := byId[outId], byId[inId];
          if Given(out.schema) && out.schema != inNode.schema {
            boundary := boundary + [BoundaryEdge("boundary_" + e.id, inId, out.schema.value, outId, out.name,
                                                 e.on, e.cardinality, e.confidence, e.lowConfidence)];
          }
        }
      }
    }
    assert edges[..|edges|] == edges;
  }

  lemma NothingSorted(byId: map<Id, Node>, ids: set<Id>)
    ensures Filter([], BothIn(ids)) == [] && Crossings(byId, ids, []) == []
  {
  }

  lemma SortOne(edges: seq<Edge>, e: Edge, byId: map<Id, Node>, ids: set<Id>)
    ensures Filter(edges + [e], BothIn(ids)) == Filter(edges, BothIn(ids)) + (if BothIn(ids)(e) then [e] else [])
    ensures var c := Crossing(byId, ids, e);
            Crossings(byId, ids, edges + [e]) == Crossings(byId, ids, edges) + (if c.Some? then [c.value] else [])
  {
    FilterSnoc(edges, e, BothIn(ids));
    assert (edges + [e])[..|edges|] == edges;
  }

  // ---- what the scoped payload keeps ------------------------------------------------------

  /** The edges between nodes of the payload: what a caller can see of it before the call. */
  function KnownEdges(base: Graph): seq<Edge> {
    Filter(base.edges, BothIn(Ids(base.nodes)))
  }

  lemma {:induction false} KeepsShortest(base: Graph, scope: Option<Scope>, localeLe: (Id, Id) -> bool, near: Near,
                                         r: Graph, n: Node, d: nat)
    requires Focused(scope)
    requires IsNear(base.edges, scope, near) && ScopedBy(base, scope, localeLe, near, r)
    requires n in r.nodes && n.id in near.value && near.value[n.id] == d
    requires Walks(KnownEdges(base), scope.value.focus.value, n.id, d)
    ensures Walks(r.edges, scope.value.focus.value, n.id, d)
    decreases d
  {
    hide Shortest, Walks, Filter, Truncates, Crossings, IsDistances, Linked;
    var focus := scope.value.focus.value;
    if d == 0 {
      WalksHere(KnownEdges(base), focus, n.id);
      WalksHere(r.edges, focus, n.id);
    } else {
      var m := KnownPredecessor(base, scope, near, n.id, d);
      if m !in r.nodes {
        KeptBefore(base, scope, localeLe, near, r, n, m);
        assert false;
      }
      KeepsShortest(base, scope, localeLe, near, r, m, d - 1);
      KeptLink(base, r, m, n);
      WalksOn(r.edges, focus, m.id, n.id, d - 1);
    }
  }

  /** A shortest walk over known edges passes a node one step nearer. */
  lemma KnownPredecessor(base: Graph, scope: Option<Scope>, near: Near, id: Id, d: nat) returns (m: Node)
    requires Focused(scope) && IsNear(base.edges, scope, near)
    requires d > 0 && id in near.value && near.value[id] == d
    requires Walks(KnownEdges(base), scope.value.focus.value, id, d)
    ensures m in base.nodes && m.id in near.value && near.value[m.id] == d - 1
    ensures Linked(base.edges, m.id, id) && Walks(KnownEdges(base), scope.value.focus.value, m.id, d - 1)
  {
    hide Walks, Filter;
    var known, focus := KnownEdges(base), scope.value.focus.value;
    assert Shortest(base.edges, focus, id, d);
    var x := WalksBack(known, focus, id, d);
    FilterHolds(base.edges, BothIn(Ids(base.nodes)));
    FewerEdgesFewerWalks(known, base.edges, focus, x, d - 1);
    forall k: nat | k < d - 1 ensures !Walks(base.edges, focus, x, k) {
      if Walks(base.edges, focus, x, k) {
        WalksOn(base.edges, focus, x, id, k);
        assert false;
      }
    }
    assert Shortest(base.edges, focus, x, d - 1);
    m :| m in base.nodes && m.id == x;
  }

  lemma KeptLink(base: Graph, r: Graph, m: Node, n: Node)
    requires r.edges == Filter(base.edges, BothIn(Ids(r.nodes)))
    requires m in r.nodes && n in r.nodes && Linked(base.edges, m.id, n.id)
    ensures Linked(r.edges, m.id, n.id)
  {
    FilterHolds(base.edges, BothIn(Ids(r.nodes)));
    var e :| e in base.edges && ((e.source == m.id && e.target == n.id) || (e.source == n.id && e.target == m.id));
    assert e in r.edges;
  }

  lemma {:induction false} FewerEdgesFewerWalks(some: seq<Edge>, all: seq<Edge>, a: Id, b: Id, n: nat)
    requires forall e :: e in some ==> e in all
    requires Walks(some, a, b, n)
    ensures Walks(all, a, b, n)
  {
    var p :| IsWalk(some, p) && |p| == n + 1 && p[0] == a && p[n] == b;
    forall i | 0 <= i < |p| - 1 ensures Linked(all, p[i], p[i + 1]) {
      assert Linked(some, p[i], p[i + 1]);
    }
    assert IsWalk(all, p);
  }

  /** Exactly when a kept table is still at its distance from the focus, whatever the budget: one of
      its shortest walks must lead through nodes of the payload only. */
  lemma KeptAtItsDistance(base: Graph, scope: Option<Scope>, localeLe: (Id, Id) -> bool, r: Graph, n: Node, d: nat)
    requires Scoped(base, scope, localeLe, r) && !EngineScopeMatches(base.meta, scope) && Focused(scope)
    requires n in r.nodes && Shortest(base.edges, scope.value.focus.value, n.id, d)
    ensures Shortest(r.edges, scope.value.focus.value, n.id, d) <==>
            Walks(KnownEdges(base), scope.value.focus.value, n.id, d)
  {
    hide Walks, Filter, Truncates, Crossings;
    var near :| IsNear(base.edges, scope, near) && ScopedBy(base, scope, localeLe, near, r);
    var focus := scope.value.focus.value;
    KeptIsNear(base, scope, localeLe, near, r, n);
    OneShortest(base.edges, focus, n.id, d, near.value[n.id]);
    FilterHolds(base.edges, BothIn(Ids(r.nodes)));
    FilterHolds(base.edges, BothIn(Ids(base.nodes)));
    if Walks(r.edges, focus, n.id, d) {
      FewerEdgesFewerWalks(r.edges, KnownEdges(base), focus, n.id, d);
    }
    if Walks(KnownEdges(base), focus, n.id, d) {
      KeepsShortest(base, scope, localeLe, near, r, n, d);
      forall k: nat | k < d ensures !Walks(r.edges, focus, n.id, k) {
        if Walks(r.edges, focus, n.id, k) {
          FewerEdgesFewerWalks(r.edges, base.edges, focus, n.id, k);
        }
      }
    }
  }

  lemma KeptIsNear(base: Graph, scope: Option<Scope>, localeLe: (Id, Id) -> bool, near: Near, r: Graph, n: Node)
    requires Focused(scope) && IsNear(base.edges, scope, near) && ScopedBy(base, scope, localeLe, near, r)
    requires n in r.nodes
    ensures n.id in near.value && near.value[n.id] <= Bound(Or(scope.value.radius, 1))
    ensures Shortest(base.edges, scope.value.focus.value, n.id, near.value[n.id])
    ensures forall m :: m in r.nodes ==> m in base.nodes
  {
    hide Shortest, Filter, Truncates, Crossings;
    var candidates := Candidates(base, scope, near);
    FilterHolds(base.nodes, WithinReach(near.value));
    TruncationKeepsFirst(candidates, r.nodes, Or(Budget(scope, DEFAULT_ER_BUDGET), |candidates|),
                         NodeOrder(near, localeLe));
    forall m | m in r.nodes ensures m in candidates && m in base.nodes && WithinReach(near.value)(m) {
    }
    var d := near.value[n.id];
    assert d <= Bound(Or(scope.value.radius, 1)) && Shortest(base.edges, scope.value.focus.value, n.id, d);
  }

  /** Both ends of every edge are nodes of the payload. */
  ghost predicate Closed(base: Graph) {
    forall e :: e in base.edges ==> e.source in Ids(base.nodes) && e.target in Ids(base.nodes)
  }

  /** So where every edge joins two nodes, every table that survives is joined to the focus by edges that
      survive, at its old distance: cutting the tail of the distance order never cuts a shortest path. */
  lemma TruncationStaysConnected(base: Graph, scope: Option<Scope>, localeLe: (Id, Id) -> bool, r: Graph, n: Node)
    requires Scoped(base, scope, localeLe, r) && !EngineScopeMatches(base.meta, scope)
    requires Focused(scope) && Closed(base)
    requires n in r.nodes
    ensures exists d: nat ::
              && d <= Bound(Or(scope.value.radius, 1))
              && Shortest(base.edges, scope.value.focus.value, n.id, d)
              && Shortest(r.edges, scope.value.focus.value, n.id, d)
  {
    hide Walks, Filter, Truncates, Crossings;
    var near :| IsNear(base.edges, scope, near) && ScopedBy(base, scope, localeLe, near, r);
    KeptIsNear(base, scope, localeLe, near, r, n);
    var d := near.value[n.id];
    FilterHolds(base.edges, BothIn(Ids(base.nodes)));
    FewerEdgesFewerWalks(base.edges, KnownEdges(base), scope.value.focus.value, n.id, d);
    KeptAtItsDistance(base, scope, localeLe, r, n, d);
  }

  /** A table left out is no nearer to the focus than any table kept, and on equal distance does not
      come strictly first by id. */
  lemma NearestAreKept(base: Graph, scope: Option<Scope>, localeLe: (Id, Id) -> bool, r: Graph,
                       k: Node, dk: nat, c: Node, dc: nat)
    requires Scoped(base, scope, localeLe, r) && !EngineScopeMatches(base.meta, scope) && Focused(scope)
    requires k in r.nodes && Shortest(base.edges, scope.value.focus.value, k.id, dk)
    requires c in base.nodes && c !in r.nodes && Shortest(base.edges, scope.value.focus.value, c.id, dc)
    requires dc <= Bound(Or(scope.value.radius, 1))
    ensures dk < dc || (dk == dc && localeLe(k.id, c.id))
  {
    hide Shortest, Filter, Truncates, Crossings;
    var near :| IsNear(base.edges, scope, near) && ScopedBy(base, scope, localeLe, near, r);
    var dist := near.value;
    assert c.id in dist && dist[c.id] == dc;
    KeptBefore(base, scope, localeLe, near, r, k, c);
    assert Shortest(base.edges, scope.value.focus.value, k.id, dist[k.id]);
    OneShortest(base.edges, scope.value.focus.value, k.id, dk, dist[k.id]);
  }

  lemma KeptBefore(base: Graph, scope: Option<Scope>, localeLe: (Id, Id) -> bool, near: Near, r: Graph,
                   k: Node, c: Node)
    requires ScopedBy(base, scope, localeLe, near, r) && near.Some?
    requires k in r.nodes && c in base.nodes && c !in r.nodes && c.id in near.value
    ensures k.id in near.value && NodeLe(near, localeLe, k, c)
  {
    hide Filter, Truncates, Crossings;
    var candidates := Candidates(base, scope, near);
    FilterHolds(base.nodes, WithinReach(near.value));
    TruncationKeepsFirst(candidates, r.nodes, Or(Budget(scope, DEFAULT_ER_BUDGET), |candidates|),
                         NodeOrder(near, localeLe));
    assert NodeOrder(near, localeLe)(k, c);
  }

  lemma OneShortest(edges: seq<Edge>, a: Id, b: Id, d: nat, d': nat)
    requires Shortest(edges, a, b, d) && Shortest(edges, a, b, d')
    ensures d == d'
  {
  }

  // ---- without a focus ---------------------------------------------------------------------

  /** Where in the payload such tables stand. */
  function PlacesInSchema(base: Graph, scope: Option<Scope>): set<int> {
    set i | 0 <= i < |base.nodes| && InSchema(scope, base.nodes[i])
  }

  /** What a schema scope returns, or a bare budget: tables of that schema only; one is left out only when the
      budget is too small for all of them, and then none that is returned comes after it; and the payload
      counts them all as matched. */
  lemma UnfocusedKeeps(base: Graph, scope: Option<Scope>, localeLe: (Id, Id) -> bool, r: Graph)
    requires Scoped(base, scope, localeLe, r) && !EngineScopeMatches(base.meta, scope) && scope.Some?
    requires scope.value.focus.None? || scope.value.focus.value == ""
    requires (scope.value.schema.Some? && scope.value.schema.value != "") || scope.value.nodeBudget.Some?
    ensures r.meta.Some? && r.meta.value.nTotalNodes == |base.nodes| && r.meta.value.scope == scope
    ensures r.meta.value.nMatchedNodes == |PlacesInSchema(base, scope)|
    ensures forall n :: n in r.nodes ==> n in base.nodes && InSchema(scope, n)
    ensures var budget := if scope.value.nodeBudget.Some? then scope.value.nodeBudget.value else 60;
            && (0 <= budget ==> |r.nodes| <= budget)
            && forall c :: c in base.nodes && InSchema(scope, c) && c !in r.nodes ==>
                 && budget < r.meta.value.nMatchedNodes && (0 <= budget ==> |r.nodes| == budget)
                 && forall n :: n in r.nodes ==> localeLe(n.id, c.id)
  {
    hide Truncates, Filter, Crossings;
    var near :| IsNear(base.edges, scope, near) && ScopedBy(base, scope, localeLe, near, r);
    var candidates := Candidates(base, scope, near);
    var limit := Or(Budget(scope, DEFAULT_ER_BUDGET), |candidates|);
    SchemaCandidates(base, scope, candidates);
    TruncationIsPart(candidates, r.nodes, limit, NodeOrder(near, localeLe));
    TruncationKeepsFirst(candidates, r.nodes, limit, NodeOrder(near, localeLe));
    forall c | c in candidates && c !in r.nodes
      ensures limit < |candidates| && forall n :: n in r.nodes ==> localeLe(n.id, c.id)
    {
      if limit >= |candidates| {
        WholeIsKept(candidates, r.nodes, c);
      }
      forall n | n in r.nodes ensures localeLe(n.id, c.id) {
        assert NodeOrder(near, localeLe)(n, c);
      }
    }
  }

  lemma WholeIsKept(candidates: seq<Node>, kept: seq<Node>, c: Node)
    requires |kept| == |candidates| && multiset(kept) <= multiset(candidates) && c in candidates
    ensures c in kept
  {
    assert |multiset(candidates) - multiset(kept)| == 0;
    assert multiset(candidates) == multiset(kept);
    assert c in multiset(candidates);
  }

  function InSchemaTest(scope: Option<Scope>): Node -> bool {
    (n: Node) => InSchema(scope, n)
  }

  lemma SchemaCandidates(base: Graph, scope: Option<Scope>, candidates: seq<Node>)
    requires scope.Some? && candidates == Candidates(base, scope, None)
    ensures forall n :: n in candidates <==> n in base.nodes && InSchema(scope, n)
    ensures |candidates| == |PlacesInSchema(base, scope)|
  {
    var p := InSchemaTest(scope);
    if Given(scope.value.schema) {
      FilterAgrees(base.nodes, OfSchema(scope.value.schema.value), p);
    } else {
      FilterAll(base.nodes, p);
    }
    assert candidates == Filter(base.nodes, p);
    FilterHolds(base.nodes, p);
    forall n ensures n in candidates <==> n in base.nodes && InSchema(scope, n) {
      assert p(n) <==> InSchema(scope, n);
    }
    FilterCounts(base.nodes, p);
    assert PlacesOf(base.nodes, p) == PlacesInSchema(base, scope);
  }

  // ---- accounting ---------------------------------------------------------------------------

  function Discarded(byId: map<Id, Node>, ids: set<Id>): Edge -> bool {
    (e: Edge) => !BothIn(ids)(e) && Crossing(byId, ids, e).None?
  }

  lemma {:induction false} EdgesSplit(byId: map<Id, Node>, ids: set<Id>, edges: seq<Edge>)
    ensures |Filter(edges, BothIn(ids))| + |Crossings(byId, ids, edges)| + |Filter(edges, Discarded(byId, ids))|
            == |edges|
  {
    if edges != [] {
      var n := |edges| - 1;
      var e := edges[n];
      assert edges == edges[..n] + [e];
      EdgesSplit(byId, ids, edges[..n]);
      FilterSnoc(edges[..n], e, BothIn(ids));
      FilterSnoc(edges[..n], e, Discarded(byId, ids));
      assert Crossing(byId, ids, e).Some? ==> !BothIn(ids)(e);
    }
  }

  lemma {:induction false} CrossingsCross(byId: map<Id, Node>, ids: set<Id>, edges: seq<Edge>, b: BoundaryEdge)
    requires b in Crossings(byId, ids, edges)
    requires forall id :: id in byId ==> byId[id].id == id
    ensures b.inScopeTable in ids && b.otherTableId !in ids
    ensures b.inScopeTable in byId && b.otherTableId in byId
    ensures byId[b.otherTableId].schema == Some(b.otherSchema) && byId[b.inScopeTable].schema != Some(b.otherSchema)
    ensures Linked(edges, b.inScopeTable, b.otherTableId)
  {
    var n := |edges| - 1;
    assert edges == edges[..n] + [edges[n]];
    LinkedSnoc(edges[..n], edges[n], b.inScopeTable, b.otherTableId);
    if b in Crossings(byId, ids, edges[..n]) {
      CrossingsCross(byId, ids, edges[..n], b);
    }
  }

  /** An edge out of the kept tables into a known table of another schema. */
  predicate Leaves(byId: map<Id, Node>, ids: set<Id>, e: Edge, inId: Id, outId: Id) {
    && ((e.source == inId && e.target == outId) || (e.source == outId && e.target == inId))
    && inId in ids && outId !in ids && inId in byId && outId in byId
    && byId[outId].schema.Some? && byId[outId].schema.value != "" && byId[outId].schema != byId[inId].schema
  }

  /** The boundary holds exactly one kind of entry: for every edge that leaves, and for no other. */
  lemma {:induction false} CrossingsLeave(byId: map<Id, Node>, ids: set<Id>, edges: seq<Edge>, b: BoundaryEdge)
    ensures b in Crossings(byId, ids, edges) <==>
            exists e, inId, outId :: e in edges && Leaves(byId, ids, e, inId, outId)
              && b == BoundaryEdge("boundary_" + e.id, inId, byId[outId].schema.value, outId, byId[outId].name,
                                   e.on, e.cardinality, e.confidence, e.lowConfidence)
  {
    if edges != [] {
      var n := |edges| - 1;
      assert edges == edges[..n] + [edges[n]];
      CrossingsLeave(byId, ids, edges[..n], b);
      CrossingLeaves(byId, ids, edges[n], b);
      hide Crossing, Leaves;
    }
  }

  lemma CrossingLeaves(byId: map<Id, Node>, ids: set<Id>, e: Edge, b: BoundaryEdge)
    ensures Crossing(byId, ids, e) == Some(b) <==>
            exists inId, outId :: Leaves(byId, ids, e, inId, outId)
              && b == BoundaryEdge("boundary_" + e.id, inId, byId[outId].schema.value, outId, byId[outId].name,
                                   e.on, e.cardinality, e.confidence, e.lowConfidence)
  {
    var inId := if e.source in ids then e.source else e.target;
    var outId := if e.source in ids then e.target else e.source;
    assert Crossing(byId, ids, e).Some? ==> Leaves(byId, ids, e, inId, outId);
    assert forall a, c :: Leaves(byId, ids, e, a, c) ==> a == inId && c == outId;
  }

  function SchemaOf(base: Graph, id: Id): Option<string> {
    var byId := NodeById(base.nodes);
    if id in byId then byId[id].schema else None
  }

  /** Every edge of the payload ends up in exactly one of three places, every node matched is kept or
      counted as dropped, and each boundary entry leaves the kept tables for another schema. */
  lemma ScopeAccountsForAll(base: Graph, scope: Option<Scope>, localeLe: (Id, Id) -> bool, r: Graph)
    requires Scoped(base, scope, localeLe, r) && !EngineScopeMatches(base.meta, scope)
    requires Narrowing(scope) || Budget(scope, DEFAULT_ER_BUDGET).Some?
    ensures r.boundary.Some? && r.meta.Some?
    ensures |r.edges| + |r.boundary.value| + |Filter(base.edges, Discarded(NodeById(base.nodes), Ids(r.nodes)))|
            == |base.edges|
    ensures r.meta.value.nNodes + r.meta.value.dropped == r.meta.value.nMatchedNodes
    ensures r.meta.value.nNodes == |r.nodes| && r.meta.value.nEdges == |r.edges|
    ensures r.meta.value.truncated <==> r.meta.value.dropped > 0
    ensures forall b :: b in r.boundary.value ==>
              && b.inScopeTable in Ids(r.nodes) && b.otherTableId !in Ids(r.nodes)
              && Linked(base.edges, b.inScopeTable, b.otherTableId)
              && SchemaOf(base, b.otherTableId) == Some(b.otherSchema) != SchemaOf(base, b.inScopeTable)
  {
    var byId := NodeById(base.nodes);
    EdgesSplit(byId, Ids(r.nodes), base.edges);
    NodeByIdFinds(base.nodes);
    forall b | b in r.boundary.value
      ensures b.inScopeTable in Ids(r.nodes) && b.otherTableId !in Ids(r.nodes)
      ensures Linked(base.edges, b.inScopeTable, b.otherTableId)
      ensures SchemaOf(base, b.otherTableId) == Some(b.otherSchema) != SchemaOf(base, b.inScopeTable)
    {
      CrossingsCross(byId, Ids(r.nodes), base.edges, b);
    }
  }

  // ---- an edge to an unknown node ------------------------------------------------------------

  /** `a - x - b`, where `x` is not a node. */
  function ThroughUnknown(): Graph {
    Graph([PlainNode("a"), PlainNode("b")], [PlainEdge("a", "x"), PlainEdge("x", "b")], None, None)
  }

  lemma TwoStepsAway()
    ensures Shortest(ThroughUnknown().edges, "a", "b", 2)
  {
    var edges := ThroughUnknown().edges;
    assert edges[0] in edges && edges[1] in edges;
    WalksHere(edges, "a", "a");
    WalksOn(edges, "a", "a", "x", 0);
    WalksOn(edges, "a", "x", "b", 1);
    WalksHere(edges, "a", "b");
    if Walks(edges, "a", "b", 1) {
      var m := WalksBack(edges, "a", "b", 1);
      WalksHere(edges, "a", m);
    }
  }

  /** Without `Closed` a kept node can be cut off: `b` is within the radius, so it is kept, while both
      edges towards it are not. */
  lemma UnknownEndCutsOff(localeLe: (Id, Id) -> bool, r: Graph)
    requires Scoped(ThroughUnknown(), Some(Scope(None, Some("a"), Some(2), None)), localeLe, r)
    ensures PlainNode("b") in r.nodes && r.edges == []
  {
    hide Truncates, Shortest, Filter, NodeOrder, Crossings;
    var base, scope := ThroughUnknown(), Some(Scope(None, Some("a"), Some(2), None));
    var near :| IsNear(base.edges, scope, near) && ScopedBy(base, scope, localeLe, near, r);
    var candidates := Candidates(base, scope, near);
    assert near.Some? && "b" in near.value by { TwoStepsAway(); }
    FilterHolds(base.nodes, WithinReach(near.value));
    FilterShortens(base.nodes, WithinReach(near.value));
    assert base.nodes[1] in base.nodes && base.nodes[1] in candidates;
    NothingIsCut(candidates, r.nodes, NodeOrder(near, localeLe));
    assert "x" !in Ids(r.nodes);
    FilterNone(base.edges, BothIn(Ids(r.nodes)));
  }

  lemma NothingIsCut(candidates: seq<Node>, kept: seq<Node>, le: (Node, Node) -> bool)
    requires |candidates| <= DEFAULT_ER_BUDGET && Truncates(candidates, kept, DEFAULT_ER_BUDGET, le)
    ensures forall n :: n in kept <==> n in candidates
  {
    var ordered :| multiset(ordered) == multiset(candidates) && Sorted(ordered, le)
                   && kept == SliceTo(ordered, DEFAULT_ER_BUDGET);
    SameSize(ordered, candidates);
    assert kept == ordered;
    forall n ensures n in kept <==> n in candidates {
      assert n in multiset(ordered) <==> n in multiset(candidates);
    }
  }
}
