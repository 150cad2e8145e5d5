/** Scopes, their echo in the payload, and what both graph payloads share. */
module GraphScope {
  import opened Text
  import opened Lists
  import opened Sorting
  import opened Graphs

  datatype Scope = Scope(schema: Option<string>, focus: Option<Id>, radius: Option<int>, nodeBudget: Option<int>)

  datatype Meta = Meta(nNodes: nat, nEdges: nat, nTotalNodes: nat, nMatchedNodes: nat,
                       truncated: bool, dropped: int, nodeBudget: int, scope: Option<Scope>)

  datatype BoundaryEdge = BoundaryEdge(id: string, inScopeTable: Id, otherSchema: string, otherTableId: Id,
                                       otherLabel: string, on: string, cardinality: Option<string>,
                                       confidence: Option<real>, lowConfidence: bool)

  datatype Graph = Graph(nodes: seq<Node>, edges: seq<Edge>, boundary: Option<seq<BoundaryEdge>>, meta: Option<Meta>)

  const DEFAULT_ER_BUDGET := 60
  const DEFAULT_KG_BUDGET := 150

  function Or<T>(o: Option<T>, fallback: T): T {
    if o.Some? then o.value else fallback
  }

  /** A missing and an empty string are both falsy. */
  predicate Given(o: Option<string>) {
    o.Some? && o.value != ""
  }

  predicate Narrowing(scope: Option<Scope>) {
    scope.Some? && (Given(scope.value.schema) || Given(scope.value.focus))
  }

  predicate Focused(scope: Option<Scope>) {
    scope.Some? && Given(scope.value.focus)
  }

  function Budget(scope: Option<Scope>, fallback: int): Option<int> {
    if scope.Some? && scope.value.nodeBudget.Some? then scope.value.nodeBudget
    else if Narrowing(scope) then Some(fallback)
    else None
  }

  function ScopeMeta(total: nat, matched: nat, returned: nat, edges: nat, scope: Option<Scope>): Meta {
    Meta(returned, edges, total, matched, matched > returned, matched - returned,
         if scope.Some? then Or(scope.value.nodeBudget, returned) else returned, scope)
  }

  /** The engine already applied this very request. */
  predicate EngineScopeMatches(meta: Option<Meta>, scope: Option<Scope>) {
    meta.Some? && meta.value.scope.Some? && meta.value.scope.value == Or(scope, Scope(None, None, None, None))
  }

  /** No narrowing and no budget: the payload passes, with its optional parts filled in. */
  function Unscoped(base: Graph, scope: Option<Scope>): Graph {
    base.(boundary := Some(Or(base.boundary, [])),
          meta := Some(Or(base.meta, ScopeMeta(|base.nodes|, |base.nodes|, |base.nodes|, |base.edges|, scope))))
  }

  /** When a request has a focus, narrows, and has a budget of its own: an empty string is no request. */
  lemma ScopeReads(scope: Scope, fallback: int)
    ensures Focused(Some(scope)) <==> scope.focus.Some? && scope.focus.value != ""
    ensures Narrowing(Some(scope)) <==>
            (scope.focus.Some? && scope.focus.value != "") || (scope.schema.Some? && scope.schema.value != "")
    ensures !Focused(None) && !Narrowing(None) && Budget(None, fallback).None?
    ensures scope.nodeBudget.Some? ==> Budget(Some(scope), fallback) == scope.nodeBudget
    ensures scope.nodeBudget.None? && Narrowing(Some(scope)) ==> Budget(Some(scope), fallback) == Some(fallback)
    ensures scope.nodeBudget.None? && !Narrowing(Some(scope)) ==> Budget(Some(scope), fallback).None?
  {
  }

  /** The payload is taken as it is exactly if it echoes this very request, field by field; no request reads as
      one without fields. */
  lemma EchoIs(meta: Option<Meta>, scope: Option<Scope>)
    ensures EngineScopeMatches(meta, scope) <==>
            && meta.Some? && meta.value.scope.Some?
            && var echo := meta.value.scope.value;
               if scope.None? then
                 echo.schema.None? && echo.focus.None? && echo.radius.None? && echo.nodeBudget.None?
               else
                 && echo.schema == scope.value.schema && echo.focus == scope.value.focus
                 && echo.radius == scope.value.radius && echo.nodeBudget == scope.value.nodeBudget
  {
  }

  /** What a payload that is not narrowed says of itself: nothing is missing, unless the engine said so. */
  lemma UnscopedShows(base: Graph, scope: Option<Scope>)
    ensures var r := Unscoped(base, scope);
            && r.nodes == base.nodes && r.edges == base.edges && r.boundary.Some? && r.meta.Some?
            && (base.boundary.Some? ==> r.boundary == base.boundary)
            && (base.boundary.None? ==> r.boundary.value == [])
            && (base.meta.Some? ==> r.meta == base.meta)
            && (base.meta.None? ==>
                  && !r.meta.value.truncated && r.meta.value.dropped == 0 && r.meta.value.scope == scope
                  && r.meta.value.nNodes == r.meta.value.nTotalNodes == r.meta.value.nMatchedNodes == |base.nodes|
                  && r.meta.value.nEdges == |base.edges|)
  {
  }

  /** What a narrowed one says: the size of the corpus, of the match and of the return are three numbers. */
  lemma MetaShows(total: nat, matched: nat, returned: nat, edges: nat, scope: Option<Scope>)
    ensures var m := ScopeMeta(total, matched, returned, edges, scope);
            && m.nTotalNodes == total && m.nMatchedNodes == matched && m.nNodes == returned && m.nEdges == edges
            && m.nNodes + m.dropped == m.nMatchedNodes && (m.truncated <==> m.dropped > 0) && m.scope == scope
            && (scope.Some? && scope.value.nodeBudget.Some? ==> m.nodeBudget == scope.value.nodeBudget.value)
            && (scope.None? || scope.value.nodeBudget.None? ==> m.nodeBudget == returned)
  {
  }

  /** `new Map(nodes.map(n => [n.id, n]))`: the last node of an id wins. */
  function NodeById(nodes: seq<Node>): map<Id, Node> {
    if nodes == [] then map[]
    else NodeById(nodes[..|nodes| - 1])[nodes[|nodes| - 1].id := nodes[|nodes| - 1]]
  }

  lemma {:induction false} NodeByIdFinds(nodes: seq<Node>)
    ensures forall id :: id in NodeById(nodes) <==> exists n :: n in nodes && n.id == id
    ensures forall id :: id in NodeById(nodes) ==> NodeById(nodes)[id] in nodes && NodeById(nodes)[id].id == id
  {
    if nodes != [] {
      var k := |nodes| - 1;
      NodeByIdFinds(nodes[..k]);
      assert nodes == nodes[..k] + [nodes[k]];
      assert nodes[k] in nodes;
    }
  }

  function Ids(nodes: seq<Node>): set<Id> {
    set n | n in nodes :: n.id
  }

  // ---- distance-first order -----------------------------------------------------------

  /** Distances from the focus, when there is one; a node without an entry is infinitely far. */
  type Near = Option<map<Id, nat>>

  predicate CloserThan(near: Near, a: Id, b: Id) {
    near.Some? && a in near.value && (b in near.value ==> near.value[a] < near.value[b])
  }

  predicate NodeLe(near: Near, localeLe: (Id, Id) -> bool, a: Node, b: Node) {
    CloserThan(near, a.id, b.id) || (!CloserThan(near, b.id, a.id) && localeLe(a.id, b.id))
  }

  function NodeOrder(near: Near, localeLe: (Id, Id) -> bool): (Node, Node) -> bool {
    (a, b) => NodeLe(near, localeLe, a, b)
  }

  lemma NodeOrderOrders(near: Near, localeLe: (Id, Id) -> bool)
    requires Orders(localeLe)
    ensures Orders(NodeOrder(near, localeLe))
  {
    var le := NodeOrder(near, localeLe);
    forall a, b, c | le(a, b) && le(b, c) ensures le(a, c) {
      assert localeLe(a.id, b.id) && localeLe(b.id, c.id) ==> localeLe(a.id, c.id);
    }
    forall a, b ensures le(a, b) || le(b, a) {
      assert localeLe(a.id, b.id) || localeLe(b.id, a.id);
    }
  }

  /** `kept` is what `slice(0, limit)` leaves of the candidates in order. */
  ghost predicate Truncates(candidates: seq<Node>, kept: seq<Node>, limit: int, le: (Node, Node) -> bool) {
    exists ordered ::
      multiset(ordered) == multiset(candidates) && Sorted(ordered, le) && kept == SliceTo(ordered, limit)
  }

  method OrderAndSlice(candidates: seq<Node>, near: Near, localeLe: (Id, Id) -> bool, limit: int)
    returns (kept: seq<Node>)
    requires Orders(localeLe)
    ensures Truncates(candidates, kept, limit, NodeOrder(near, localeLe))
  {
    NodeOrderOrders(near, localeLe);
    SortSorts(candidates, NodeOrder(near, localeLe));
    var ordered := Sort(candidates, NodeOrder(near, localeLe));
    kept := SliceTo(ordered, limit);
  }

  /** Truncation keeps as many candidates as fit, each at most as often as it occurs. */
  lemma TruncationIsPart(candidates: seq<Node>, kept: seq<Node>, limit: int, le: (Node, Node) -> bool)
    requires Truncates(candidates, kept, limit, le)
    ensures |kept| <= |candidates| && multiset(kept) <= multiset(candidates)
    ensures limit >= 0 ==> |kept| == if limit <= |candidates| then limit else |candidates|
  {
    var ordered :| multiset(ordered) == multiset(candidates) && Sorted(ordered, le) && kept == SliceTo(ordered, limit);
    SliceIsPrefix(ordered, limit);
    SameSize(ordered, candidates);
    assert ordered == kept + ordered[|kept|..];
    assert multiset(ordered) == multiset(kept) + multiset(ordered[|kept|..]);
  }

  /** What is kept is in order, and no dropped candidate comes strictly before it. */
  lemma TruncationKeepsFirst(candidates: seq<Node>, kept: seq<Node>, limit: int, le: (Node, Node) -> bool)
    requires Truncates(candidates, kept, limit, le)
    ensures Sorted(kept, le)
    ensures forall k :: k in kept ==> k in candidates
    ensures forall k, c :: k in kept && c in candidates && c !in kept ==> le(k, c)
  {
    var ordered :| multiset(ordered) == multiset(candidates) && Sorted(ordered, le) && kept == SliceTo(ordered, limit);
    SliceIsPrefix(ordered, limit);
    forall k | k in kept ensures k in candidates {
      SameMembers(ordered, candidates, k);
    }
    forall k, c | k in kept && c in candidates && c !in kept ensures le(k, c) {
      DroppedIsLater(candidates, ordered, |kept|, le, k, c);
    }
  }

  lemma DroppedIsLater(candidates: seq<Node>, ordered: seq<Node>, n: nat, le: (Node, Node) -> bool, k: Node, c: Node)
    requires multiset(ordered) == multiset(candidates) && n <= |ordered| && Sorted(ordered, le)
    requires k in ordered[..n] && c in candidates && c !in ordered[..n]
    ensures le(k, c)
  {
    SameMembers(candidates, ordered, c);
    var i :| 0 <= i < n && ordered[i] == k;
    var j :| 0 <= j < |ordered| && ordered[j] == c;
  }

  lemma SameSize<T>(a: seq<T>, b: seq<T>)
    requires multiset(a) == multiset(b)
    ensures |a| == |b|
  {
    assert |a| == |multiset(a)| && |b| == |multiset(b)|;
  }

  /** The distances of a focused request are the shortest ones up to the radius. */
  ghost predicate IsNear(edges: seq<Edge>, scope: Option<Scope>, near: Near) {
    if Focused(scope) then
      near.Some? && IsDistances(edges, scope.value.focus.value, Bound(Or(scope.value.radius, 1)), near.value)
    else near.None?
  }

  function BothIn(ids: set<Id>): Edge -> bool {
    (e: Edge) => e.source in ids && e.target in ids
  }

  /** The node is of the schema asked for; every node is, when none is. */
  predicate InSchema(scope: Option<Scope>, n: Node) {
    scope.Some? && scope.value.schema.Some? && scope.value.schema.value != "" ==> n.schema == scope.value.schema
  }

  // ---- small payloads ---------------------------------------------------------------------

  function PlainEdge(source: Id, target: Id): Edge {
    Edge("", source, target, "", None, None, false)
  }

  function PlainNode(id: Id): Node {
    Node(id, "table", id, None, None)
  }
}
