/** `ui/lib/graph-layout.ts`: a layout memoized by a string signature of its input. */
module LayoutCache {
  import opened Text
  import opened Lists
  import opened JsMaps

  /** `rank` is carried by the node and read by nobody here. */
  datatype LayoutNode = LayoutNode(id: string, width: int, height: int, rank: Option<int>)

  datatype LayoutEdge = LayoutEdge(source: string, target: string)

  datatype Direction = LR | TB

  datatype LayoutOptions = LayoutOptions(direction: Option<Direction>, nodeSep: Option<int>, rankSep: Option<int>)

  datatype Input = Input(nodes: seq<LayoutNode>, edges: seq<LayoutEdge>, opts: LayoutOptions)

  datatype Point = Point(x: real, y: real)

  type Positions = map<string, Point>

  const MAX_CACHE: nat := 32

  datatype Resolved = Resolved(direction: Direction, nodeSep: int, rankSep: int)

  function Resolve(opts: LayoutOptions): Resolved {
    Resolved(if opts.direction.Some? then opts.direction.value else LR,
             if opts.nodeSep.Some? then opts.nodeSep.value else 56,
             if opts.rankSep.Some? then opts.rankSep.value else 120)
  }

  /** Options that are given stand; the others are left to right, 56 and 120. */
  lemma ResolvedOptions(opts: LayoutOptions)
    ensures opts.direction.Some? ==> Resolve(opts).direction == opts.direction.value
    ensures opts.direction.None? ==> Resolve(opts).direction == LR
    ensures opts.nodeSep.Some? ==> Resolve(opts).nodeSep == opts.nodeSep.value
    ensures opts.nodeSep.None? ==> Resolve(opts).nodeSep == 56
    ensures opts.rankSep.Some? ==> Resolve(opts).rankSep == opts.rankSep.value
    ensures opts.rankSep.None? ==> Resolve(opts).rankSep == 120
  {
  }

  // ---- the signature ---------------------------------------------------------------------

  function NodePart(n: LayoutNode): string {
    n.id + ":" + (Decimal(n.width) + "x" + Decimal(n.height))
  }

  function EdgePart(e: LayoutEdge): string {
    e.source + ">" + e.target
  }

  function NodeParts(nodes: seq<LayoutNode>): (parts: seq<string>)
    ensures |parts| == |nodes| && forall i :: 0 <= i < |nodes| ==> parts[i] == NodePart(nodes[i])
  {
    seq(|nodes|, i requires 0 <= i < |nodes| => NodePart(nodes[i]))
  }

  function EdgeParts(edges: seq<LayoutEdge>): (parts: seq<string>)
    ensures |parts| == |edges| && forall i :: 0 <= i < |edges| ==> parts[i] == EdgePart(edges[i])
  {
    seq(|edges|, i requires 0 <= i < |edges| => EdgePart(edges[i]))
  }

  function DirectionName(d: Direction): string {
    match d case LR => "LR" case TB => "TB"
  }

  function Signature(input: Input): string {
    var o := Resolve(input.opts);
    DirectionName(o.direction) + "|" + (Decimal(o.nodeSep) + "|" + (Decimal(o.rankSep) + "|" +
      (Join(NodeParts(input.nodes), ",") + "|" + Join(EdgeParts(input.edges), ","))))
  }

  // ---- the layout ----------------------------------------------------------------------------

  datatype Box = Box(width: int, height: int)

  /** What is handed to dagre: options, boxes by node id in insertion order, and directed edges. */
  datatype Drawing = Drawing(opts: Resolved, boxes: JsMap<Box>, edges: seq<LayoutEdge>)

  function Boxes(nodes: seq<LayoutNode>): JsMap<Box> {
    if nodes == [] then JsMap([], map[])
    else
      var n := nodes[|nodes| - 1];
      Boxes(nodes[..|nodes| - 1]).Set(n.id, Box(n.width, n.height))
  }

  predicate Drawable(boxes: JsMap<Box>, e: LayoutEdge) {
    e.source in boxes.at && e.target in boxes.at && e.source != e.target
  }

  /** Dangling and looping edges are skipped; a repeated edge is one edge. */
  function DrawnEdges(boxes: JsMap<Box>, edges: seq<LayoutEdge>): seq<LayoutEdge> {
    if edges == [] then []
    else
      var drawn, e := DrawnEdges(boxes, edges[..|edges| - 1]), edges[|edges| - 1];
      if Drawable(boxes, e) && e !in drawn then drawn + [e] else drawn
  }

  function Draw(input: Input): Drawing {
    var boxes := Boxes(input.nodes);
    Drawing(Resolve(input.opts), boxes, DrawnEdges(boxes, input.edges))
  }

  /** Centre coordinates to top-left ones; a node dagre did not place falls back to the origin. */
  function TopLeft(laid: map<string, Point>, n: LayoutNode): Point {
    if n.id in laid then Point(laid[n.id].x - n.width as real / 2.0, laid[n.id].y - n.height as real / 2.0)
    else Point(0.0, 0.0)
  }

  function Place(laid: map<string, Point>, nodes: seq<LayoutNode>): Positions {
    if nodes == [] then map[]
    else
      var n := nodes[|nodes| - 1];
      Place(laid, nodes[..|nodes| - 1])[n.id := TopLeft(laid, n)]
  }

  /** dagre itself is a parameter: any function of the drawing. */
  function FreshLayout(dagre: Drawing -> map<string, Point>, input: Input): Positions {
    Place(dagre(Draw(input)), input.nodes)
  }

  /** The last node of its id. */
  ghost predicate LastNode(nodes: seq<LayoutNode>, n: LayoutNode) {
    exists i :: 0 <= i < |nodes| && nodes[i] == n && forall j :: i < j < |nodes| ==> nodes[j].id != n.id
  }

  lemma LastNodeSnoc(nodes: seq<LayoutNode>, x: LayoutNode, n: LayoutNode)
    ensures LastNode(nodes + [x], n) <==> n == x || (LastNode(nodes, n) && n.id != x.id)
  {
    var all := nodes + [x];
    if n == x {
      assert all[|nodes|] == n;
    }
    if LastNode(nodes, n) && n.id != x.id {
      var i :| 0 <= i < |nodes| && nodes[i] == n && forall j :: i < j < |nodes| ==> nodes[j].id != n.id;
      assert all[i] == n && forall j :: i < j < |all| ==> all[j].id != n.id;
    }
    if LastNode(all, n) && n != x {
      var i :| 0 <= i < |all| && all[i] == n && forall j :: i < j < |all| ==> all[j].id != n.id;
      assert all[|nodes|].id != n.id;
      assert nodes[i] == n && forall j :: i < j < |nodes| ==> nodes[j].id == all[j].id;
    }
  }

  /** A drawing has one box for each node id, of the size the last node of that id has. */
  lemma {:induction false} BoxesAreLast(nodes: seq<LayoutNode>)
    ensures Boxes(nodes).Ok()
    ensures forall n :: LastNode(nodes, n) ==>
              n.id in Boxes(nodes).at && Boxes(nodes).at[n.id] == Box(n.width, n.height)
    ensures forall id :: id in Boxes(nodes).at ==> exists n :: LastNode(nodes, n) && n.id == id
  {
    if nodes != [] {
      hide LastNode;
      var before, x := nodes[..|nodes| - 1], nodes[|nodes| - 1];
      assert nodes == before + [x];
      BoxesAreLast(before);
      forall n ensures LastNode(nodes, n) <==> n == x || (LastNode(before, n) && n.id != x.id) {
        LastNodeSnoc(before, x, n);
      }
      Boxes(before).SetIsOk(x.id, Box(x.width, x.height));
      forall id | id in Boxes(nodes).at ensures exists n :: LastNode(nodes, n) && n.id == id {
        if id != x.id {
          var n :| LastNode(before, n) && n.id == id;
          assert LastNode(nodes, n);
        }
      }
    }
  }

  /** The drawn edges are the ones between two different known nodes, each once, in input order. */
  lemma {:induction false} DrawnEdgesAre(boxes: JsMap<Box>, edges: seq<LayoutEdge>)
    ensures forall e :: e in DrawnEdges(boxes, edges) <==> e in edges && Drawable(boxes, e)
    ensures Distinct(DrawnEdges(boxes, edges))
  {
    if edges != [] {
      var n := |edges| - 1;
      assert edges == edges[..n] + [edges[n]];
      DrawnEdgesAre(boxes, edges[..n]);
    }
  }

  /** Every node id gets one position: that of the last node of the id. */
  lemma {:induction false} PlacesAreLast(laid: map<string, Point>, nodes: seq<LayoutNode>)
    ensures forall n :: LastNode(nodes, n) ==>
              n.id in Place(laid, nodes) && Place(laid, nodes)[n.id] == TopLeft(laid, n)
    ensures forall id :: id in Place(laid, nodes) ==> exists n :: LastNode(nodes, n) && n.id == id
  {
    if nodes != [] {
      hide LastNode, TopLeft;
      var before, x := nodes[..|nodes| - 1], nodes[|nodes| - 1];
      assert nodes == before + [x];
      PlacesAreLast(laid, before);
      assert Place(laid, nodes) == Place(laid, before)[x.id := TopLeft(laid, x)];
      forall n ensures LastNode(nodes, n) <==> n == x || (LastNode(before, n) && n.id != x.id) {
        LastNodeSnoc(before, x, n);
      }
      forall id | id in Place(laid, nodes) ensures exists n :: LastNode(nodes, n) && n.id == id {
        if id != x.id {
          var n :| LastNode(before, n) && n.id == id;
          assert LastNode(nodes, n);
        }
      }
    }
  }

  // ---- injectivity of the signature ------------------------------------------------------------

  /** Parts that are not empty and do not contain the separator. */
  predicate Separable(parts: seq<string>, c: char) {
    forall i :: 0 <= i < |parts| ==> parts[i] != "" && c !in parts[i]
  }

  lemma JoinShowsCount(parts: seq<string>, c: char)
    requires Separable(parts, c)
    ensures Join(parts, [c]) == "" <==> parts == []
    ensures c in Join(parts, [c]) <==> |parts| > 1
  {
    if |parts| > 1 {
      assert Join(parts, [c])[|parts[0]|] == c;
    }
  }

  lemma {:induction false} JoinIsInjective(xs: seq<string>, ys: seq<string>, c: char)
    requires Separable(xs, c) && Separable(ys, c) && Join(xs, [c]) == Join(ys, [c])
    ensures xs == ys
  {
    JoinShowsCount(xs, c);
    JoinShowsCount(ys, c);
    if |xs| > 1 {
      SplitFirst(xs[0], Join(xs[1..], [c]), ys[0], Join(ys[1..], [c]), c);
      JoinIsInjective(xs[1..], ys[1..], c);
    }
  }

  lemma {:induction false} JoinHasNot(parts: seq<string>, sep: string, c: char)
    requires c !in sep && forall i :: 0 <= i < |parts| ==> c !in parts[i]
    ensures c !in Join(parts, sep)
  {
    if |parts| > 1 {
      JoinHasNot(parts[1..], sep, c);
    }
  }

  predicate SafeNode(n: LayoutNode) {
    ',' !in n.id
  }

  predicate SafeEdge(e: LayoutEdge) {
    ',' !in e.source && ',' !in e.target && '>' !in e.source
  }

  predicate IsDigit(c: char) {
    '0' <= c <= '9'
  }

  /** The characters of the end of a node list, `:1x1|`, all occur in the edge list. */
  predicate SpellsSize(edges: seq<LayoutEdge>) {
    var e := Join(EdgeParts(edges), ",");
    '|' in e && ':' in e && 'x' in e && exists c :: c in e && IsDigit(c)
  }

  /** The ids keep clear of the signature's separators: of comma and arrow, and of a bar that could be
      taken for the end of the node list. */
  predicate Safe(input: Input) {
    && (forall i :: 0 <= i < |input.nodes| ==> SafeNode(input.nodes[i]))
    && (forall i :: 0 <= i < |input.edges| ==> SafeEdge(input.edges[i]))
    && !SpellsSize(input.edges)
  }

  lemma DecimalHasNot(n: int, c: char)
    requires c != '-' && !('0' <= c <= '9')
    ensures c !in Decimal(n)
  {
  }

  lemma NodePartIsInjective(a: LayoutNode, b: LayoutNode)
    requires NodePart(a) == NodePart(b)
    ensures a.id == b.id && a.width == b.width && a.height == b.height
  {
    hide Decimal;
    var da, db := Decimal(a.width) + "x" + Decimal(a.height), Decimal(b.width) + "x" + Decimal(b.height);
    DecimalHasNot(a.width, ':');
    DecimalHasNot(a.height, ':');
    DecimalHasNot(b.width, ':');
    DecimalHasNot(b.height, ':');
    SplitLast(a.id, da, b.id, db, ':');
    DecimalHasNot(a.width, 'x');
    DecimalHasNot(b.width, 'x');
    SplitFirst(Decimal(a.width), Decimal(a.height), Decimal(b.width), Decimal(b.height), 'x');
    DecimalIsInjective(a.width, b.width);
    DecimalIsInjective(a.height, b.height);
  }

  lemma NodePartsSeparable(nodes: seq<LayoutNode>)
    requires forall i :: 0 <= i < |nodes| ==> SafeNode(nodes[i])
    ensures Separable(NodeParts(nodes), ',')
  {
    hide Decimal;
    forall i | 0 <= i < |nodes| ensures NodePart(nodes[i]) != "" && ',' !in NodePart(nodes[i]) {
      DecimalHasNot(nodes[i].width, ',');
      DecimalHasNot(nodes[i].height, ',');
    }
  }

  /** What a layout reads of its input. */
  ghost predicate SameDrawing(a: Input, b: Input) {
    && Resolve(a.opts) == Resolve(b.opts) && a.edges == b.edges && |a.nodes| == |b.nodes|
    && forall i :: 0 <= i < |a.nodes| ==>
         && a.nodes[i].id == b.nodes[i].id && a.nodes[i].width == b.nodes[i].width
         && a.nodes[i].height == b.nodes[i].height
  }

  lemma NodesDecode(a: seq<LayoutNode>, b: seq<LayoutNode>)
    requires forall i :: 0 <= i < |a| ==> SafeNode(a[i])
    requires forall i :: 0 <= i < |b| ==> SafeNode(b[i])
    requires Join(NodeParts(a), ",") == Join(NodeParts(b), ",")
    ensures |a| == |b|
    ensures forall i :: 0 <= i < |a| ==> a[i].id == b[i].id && a[i].width == b[i].width && a[i].height == b[i].height
  {
    hide NodePart;
    NodePartsSeparable(a);
    NodePartsSeparable(b);
    JoinIsInjective(NodeParts(a), NodeParts(b), ',');
    forall i | 0 <= i < |a| ensures a[i].id == b[i].id && a[i].width == b[i].width && a[i].height == b[i].height {
      assert NodeParts(a)[i] == NodeParts(b)[i];
      NodePartIsInjective(a[i], b[i]);
    }
  }

  lemma EdgesDecode(a: seq<LayoutEdge>, b: seq<LayoutEdge>)
    requires forall i :: 0 <= i < |a| ==> SafeEdge(a[i])
    requires forall i :: 0 <= i < |b| ==> SafeEdge(b[i])
    requires Join(EdgeParts(a), ",") == Join(EdgeParts(b), ",")
    ensures a == b
  {
    assert Separable(EdgeParts(a), ',') && Separable(EdgeParts(b), ',');
    JoinIsInjective(EdgeParts(a), EdgeParts(b), ',');
    forall i | 0 <= i < |a| ensures a[i] == b[i] {
      assert EdgeParts(a)[i] == EdgeParts(b)[i];
      SplitFirst(a[i].source, a[i].target, b[i].source, b[i].target, '>');
    }
  }

  function SizePart(n: LayoutNode): string {
    ":" + (Decimal(n.width) + "x" + Decimal(n.height))
  }

  lemma SizePartShows(n: LayoutNode)
    ensures '|' !in SizePart(n) && ':' in SizePart(n) && 'x' in SizePart(n)
    ensures exists c :: c in SizePart(n) && IsDigit(c)
  {
    DecimalHasNot(n.width, '|');
    DecimalHasNot(n.height, '|');
    var z, h := SizePart(n), Decimal(n.height);
    assert z[0] == ':' && z[1 + |Decimal(n.width)|] == 'x';
    assert z[|z| - 1] == h[|h| - 1] && IsDigit(z[|z| - 1]);
  }

  lemma NodeListEnds(nodes: seq<LayoutNode>) returns (before: string)
    requires nodes != []
    ensures Join(NodeParts(nodes), ",") == before + SizePart(nodes[|nodes| - 1])
  {
    hide Decimal;
    var n := |nodes| - 1;
    var parts := NodeParts(nodes);
    assert parts[n] == nodes[n].id + SizePart(nodes[n]);
    var ahead := EndsInLast(parts);
    before := ahead + nodes[n].id;
  }

  lemma EndsInLast(parts: seq<string>) returns (before: string)
    requires parts != []
    ensures Join(parts, ",") == before + parts[|parts| - 1]
  {
    var n := |parts| - 1;
    if n == 0 {
      before := "";
    } else {
      hide Join;
      JoinSnoc(parts[..n], parts[n], ",");
      assert parts == parts[..n] + [parts[n]];
      before := Join(parts[..n], ",") + ",";
    }
  }

  lemma EndOverlaps(na: string, ea: string, q: string, z: string, eb: string)
    requires na + "|" + ea == q + z + "|" + eb && |na| < |q + z| && '|' !in z
    ensures '|' in ea && forall c :: c in z ==> c in ea
  {
    var whole := na + "|" + ea;
    assert forall k :: 0 <= k < |z| ==> whole[|q| + k] == z[k] != '|';
    assert whole[|na|] == '|' && |na| < |q|;
    forall k | 0 <= k < |z| ensures z[k] in ea {
      assert whole[|q| + k] == ea[|q| + k - |na| - 1];
    }
    assert whole[|q + z|] == '|' == ea[|q + z| - |na| - 1];
  }

  /** Where one list of nodes goes on past the end of the other, that end shows among the edges. */
  lemma OverlapSpellsSize(na: string, ea: string, nodes: seq<LayoutNode>, eb: string)
    requires na + "|" + ea == Join(NodeParts(nodes), ",") + "|" + eb && |na| < |Join(NodeParts(nodes), ",")|
    ensures '|' in ea && ':' in ea && 'x' in ea && exists c :: c in ea && IsDigit(c)
  {
    hide SizePart;
    var q := NodeListEnds(nodes);
    SizePartShows(nodes[|nodes| - 1]);
    EndOverlaps(na, ea, q, SizePart(nodes[|nodes| - 1]), eb);
  }

  /** On safe ids the signature tells apart every two inputs a layout can tell apart. */
  lemma SignatureIsInjective(a: Input, b: Input)
    requires Safe(a) && Safe(b) && Signature(a) == Signature(b)
    ensures SameDrawing(a, b)
  {
    hide Decimal, Join, NodePart, EdgePart;
    var o, p := Resolve(a.opts), Resolve(b.opts);
    var na, nb := Join(NodeParts(a.nodes), ","), Join(NodeParts(b.nodes), ",");
    var ea, eb := Join(EdgeParts(a.edges), ","), Join(EdgeParts(b.edges), ",");
    var ra, rb := Decimal(o.rankSep) + "|" + (na + "|" + ea), Decimal(p.rankSep) + "|" + (nb + "|" + eb);
    SplitFirst(DirectionName(o.direction), Decimal(o.nodeSep) + "|" + ra,
               DirectionName(p.direction), Decimal(p.nodeSep) + "|" + rb, '|');
    DecimalHasNot(o.nodeSep, '|');
    DecimalHasNot(p.nodeSep, '|');
    SplitFirst(Decimal(o.nodeSep), ra, Decimal(p.nodeSep), rb, '|');
    DecimalHasNot(o.rankSep, '|');
    DecimalHasNot(p.rankSep, '|');
    SplitFirst(Decimal(o.rankSep), na + "|" + ea, Decimal(p.rankSep), nb + "|" + eb, '|');
    if |na| < |nb| {
      OverlapSpellsSize(na, ea, b.nodes, eb);
    } else if |nb| < |na| {
      OverlapSpellsSize(nb, eb, a.nodes, ea);
    }
    CutAt(na, ea, nb, eb, '|');
    DecimalIsInjective(o.nodeSep, p.nodeSep);
    DecimalIsInjective(o.rankSep, p.rankSep);
    NodesDecode(a.nodes, b.nodes);
    EdgesDecode(a.edges, b.edges);
  }

  // ---- the memoized layout -------------------------------------------------------------------------

  /** Layouts read nothing but what the signature spells. */
  lemma SameDrawingSameLayout(dagre: Drawing -> map<string, Point>, a: Input, b: Input)
    requires SameDrawing(a, b)
    ensures FreshLayout(dagre, a) == FreshLayout(dagre, b)
  {
    SameBoxes(a.nodes, b.nodes);
    SamePlaces(dagre(Draw(a)), a.nodes, b.nodes);
  }

  ghost predicate SameNodes(a: seq<LayoutNode>, b: seq<LayoutNode>) {
    && |a| == |b|
    && forall i :: 0 <= i < |a| ==> a[i].id == b[i].id && a[i].width == b[i].width && a[i].height == b[i].height
  }

  lemma {:induction false} SameBoxes(a: seq<LayoutNode>, b: seq<LayoutNode>)
    requires SameNodes(a, b)
    ensures Boxes(a) == Boxes(b)
  {
    if a != [] {
      assert a[|a| - 1].id == b[|b| - 1].id;
      SameBoxes(a[..|a| - 1], b[..|b| - 1]);
    }
  }

  lemma {:induction false} SamePlaces(laid: map<string, Point>, a: seq<LayoutNode>, b: seq<LayoutNode>)
    requires SameNodes(a, b)
    ensures Place(laid, a) == Place(laid, b)
  {
    if a != [] {
      assert a[|a| - 1].id == b[|b| - 1].id;
      SamePlaces(laid, a[..|a| - 1], b[..|b| - 1]);
    }
  }

  // ---- and exactly how far it goes ---------------------------------------------------------------

  predicate Over(id: string, alphabet: set<char>) {
    forall i :: 0 <= i < |id| ==> id[i] in alphabet
  }

  predicate InputOver(input: Input, alphabet: set<char>) {
    && (forall i :: 0 <= i < |input.nodes| ==> Over(input.nodes[i].id, alphabet))
    && (forall i :: 0 <= i < |input.edges| ==>
          Over(input.edges[i].source, alphabet) && Over(input.edges[i].target, alphabet))
  }

  /** Whatever dagre makes of drawings, the two inputs have one layout. */
  ghost predicate SameLayout(a: Input, b: Input) {
    forall dagre :: FreshLayout(dagre, a) == FreshLayout(dagre, b)
  }

  /** Inputs with ids over the alphabet that share a key share their layout. */
  ghost predicate TellsApart(alphabet: set<char>) {
    forall a, b :: InputOver(a, alphabet) && InputOver(b, alphabet) && Signature(a) == Signature(b) ==> SameLayout(a, b)
  }

  predicate HasDigit(alphabet: set<char>) {
    exists c :: c in alphabet && IsDigit(c)
  }

  /** Two inputs of one key, between two nodes: what `,` and `>` allow. */
  function Pair(first: string, edges: seq<LayoutEdge>): Input {
    Input([LayoutNode(first, 1, 1, None), LayoutNode("", 1, 1, None)], edges, LayoutOptions(None, None, None))
  }

  const ONWARD: Input := Pair(">", [LayoutEdge(">", "")])
  const BACKWARD: Input := Pair(">", [LayoutEdge("", ">")])

  const AFTER_COMMA: Input := Pair(",", [LayoutEdge("", ","), LayoutEdge("", "")])
  const BEFORE_COMMA: Input := Pair(",", [LayoutEdge("", ""), LayoutEdge(",", "")])

  /** A dagre that moves the empty id in one drawing only. */
  function Picky(drawing: Drawing): Drawing -> map<string, Point> {
    (d: Drawing) => if d == drawing then map["" := Point(9.0, 9.0)] else map[]
  }

  lemma PairIsDrawn(first: string, edges: seq<LayoutEdge>)
    requires first != ""
    ensures Draw(Pair(first, edges)).edges == DrawnEdges(Boxes(Pair(first, edges).nodes), edges)
    ensures Boxes(Pair(first, edges).nodes).at == map[first := Box(1, 1), "" := Box(1, 1)]
  {
    var pair := Pair(first, edges).nodes;
    assert pair[..1] == [pair[0]] && pair[..1][..0] == [];
    assert Boxes(pair[..1]).at == map[first := Box(1, 1)];
  }

  lemma PickyTellsApart(first: string, a: seq<LayoutEdge>, b: seq<LayoutEdge>)
    requires Draw(Pair(first, a)) != Draw(Pair(first, b))
    ensures FreshLayout(Picky(Draw(Pair(first, a))), Pair(first, a))
         != FreshLayout(Picky(Draw(Pair(first, a))), Pair(first, b))
  {
    var dagre := Picky(Draw(Pair(first, a)));
    var nodes := Pair(first, a).nodes;
    assert FreshLayout(dagre, Pair(first, a))[""] == TopLeft(dagre(Draw(Pair(first, a))), nodes[1]);
    assert FreshLayout(dagre, Pair(first, b))[""] == TopLeft(dagre(Draw(Pair(first, b))), nodes[1]);
  }

  /** With `>`: an edge and its reverse, between the nodes `>` and the empty id. */
  lemma ArrowConfuses()
    ensures Signature(ONWARD) == Signature(BACKWARD)
    ensures FreshLayout(Picky(Draw(ONWARD)), ONWARD) != FreshLayout(Picky(Draw(ONWARD)), BACKWARD)
  {
    var a, b := [LayoutEdge(">", "")], [LayoutEdge("", ">")];
    assert EdgePart(a[0]) == EdgePart(b[0]);
    assert EdgeParts(a) == EdgeParts(b);
    PairIsDrawn(">", a);
    PairIsDrawn(">", b);
    assert a[..0] == [] && b[..0] == [];
    assert Draw(ONWARD).edges == a && Draw(BACKWARD).edges == b && a[0] != b[0];
    PickyTellsApart(">", a, b);
  }

  /** With `,`: the loop at the empty id is not drawn, which leaves one edge each, in opposite
      directions. */
  lemma CommaConfuses()
    ensures Signature(AFTER_COMMA) == Signature(BEFORE_COMMA)
    ensures FreshLayout(Picky(Draw(AFTER_COMMA)), AFTER_COMMA) != FreshLayout(Picky(Draw(AFTER_COMMA)), BEFORE_COMMA)
  {
    var a, b := AFTER_COMMA.edges, BEFORE_COMMA.edges;
    CommaReadsAlike(a, b);
    PairIsDrawn(",", a);
    PairIsDrawn(",", b);
    var boxes := Boxes(AFTER_COMMA.nodes);
    assert a[..1] == [a[0]] && b[..1] == [b[0]] && a[..1][..0] == [] && b[..1][..0] == [];
    assert DrawnEdges(boxes, a[..1]) == [a[0]] && DrawnEdges(boxes, b[..1]) == [];
    assert Draw(AFTER_COMMA).edges == [a[0]] && Draw(BEFORE_COMMA).edges == [b[1]] && a[0] != b[1];
    PickyTellsApart(",", a, b);
  }

  lemma CommaReadsAlike(a: seq<LayoutEdge>, b: seq<LayoutEdge>)
    requires a == [LayoutEdge("", ","), LayoutEdge("", "")] && b == [LayoutEdge("", ""), LayoutEdge(",", "")]
    ensures Join(EdgeParts(a), ",") == Join(EdgeParts(b), ",")
  {
    assert EdgePart(a[0]) == ">," && EdgePart(a[1]) == ">" && EdgePart(b[0]) == ">" && EdgePart(b[1]) == ",>";
    assert EdgeParts(a) == [">,", ">"] && EdgeParts(b) == [">", ",>"];
    assert [">,", ">"][1..] == [">"] && [">", ",>"][1..] == [",>"];
  }

  function Small(c: char): int {
    c as int - '0' as int
  }

  /** A node id that ends like a node list, and the same text as the source of an edge. */
  function LongId(c: char): string {
    ":" + ([c] + "x" + [c]) + "|"
  }

  function LongNode(c: char): Input {
    Input([LayoutNode(LongId(c), Small(c), Small(c), None)], [LayoutEdge("", "")], LayoutOptions(None, None, None))
  }

  function LongEdge(c: char): Input {
    Input([LayoutNode("", Small(c), Small(c), None)], [LayoutEdge(LongId(c), "")], LayoutOptions(None, None, None))
  }

  /** With `|`, `:`, `x` and a digit: two inputs over different nodes. */
  lemma BarConfuses(c: char, dagre: Drawing -> map<string, Point>)
    requires IsDigit(c)
    ensures Signature(LongNode(c)) == Signature(LongEdge(c))
    ensures FreshLayout(dagre, LongNode(c)) != FreshLayout(dagre, LongEdge(c))
  {
    var a, b := LongNode(c), LongEdge(c);
    var id, size := LongId(c), ":" + ([c] + "x" + [c]);
    assert Decimal(Small(c)) == [c] by { assert DigitChar(Small(c)) == c; }
    assert NodePart(a.nodes[0]) == id + size && NodePart(b.nodes[0]) == size;
    assert EdgePart(a.edges[0]) == ">" && EdgePart(b.edges[0]) == id + ">";
    assert NodeParts(a.nodes) == [id + size] && NodeParts(b.nodes) == [size];
    assert EdgeParts(a.edges) == [">"] && EdgeParts(b.edges) == [id + ">"];
    assert (id + size) + "|" + ">" == size + "|" + (id + ">");
    assert id in FreshLayout(dagre, a);
    assert id[0] == ':' && b.nodes[..0] == [];
    assert FreshLayout(dagre, b) == Place(dagre(Draw(b)), [])["" := TopLeft(dagre(Draw(b)), b.nodes[0])];
  }

  /** Over any alphabet of ids, the memo key is sound exactly when it has neither comma nor arrow, and
      not all it takes to write `:1x1|`. */
  lemma SoundExactlyWithoutSeparators(alphabet: set<char>)
    ensures TellsApart(alphabet) <==>
            ',' !in alphabet && '>' !in alphabet
            && !('|' in alphabet && ':' in alphabet && 'x' in alphabet && HasDigit(alphabet))
  {
    hide Signature, Safe;
    if ',' !in alphabet && '>' !in alphabet
       && !('|' in alphabet && ':' in alphabet && 'x' in alphabet && HasDigit(alphabet)) {
      forall a, b | InputOver(a, alphabet) && InputOver(b, alphabet) && Signature(a) == Signature(b)
        ensures SameLayout(a, b)
      {
        OverIsSafe(a, alphabet);
        OverIsSafe(b, alphabet);
        SignatureIsInjective(a, b);
        forall dagre ensures FreshLayout(dagre, a) == FreshLayout(dagre, b) {
          SameDrawingSameLayout(dagre, a, b);
        }
      }
    }
    if TellsApart(alphabet) {
      NoSeparator(alphabet);
    }
  }

  lemma NoSeparator(alphabet: set<char>)
    requires TellsApart(alphabet)
    ensures ',' !in alphabet && '>' !in alphabet
    ensures !('|' in alphabet && ':' in alphabet && 'x' in alphabet && HasDigit(alphabet))
  {
    hide Signature, FreshLayout, Draw, Picky;
    ArrowConfuses();
    assert '>' in alphabet ==> InputOver(ONWARD, alphabet) && InputOver(BACKWARD, alphabet);
    CommaConfuses();
    assert ',' in alphabet ==> InputOver(AFTER_COMMA, alphabet) && InputOver(BEFORE_COMMA, alphabet);
    if '|' in alphabet && ':' in alphabet && 'x' in alphabet && HasDigit(alphabet) {
      var c :| c in alphabet && IsDigit(c);
      BarConfuses(c, _ => map[]);
      LongIsOver(c, alphabet);
    }
  }

  lemma LongIsOver(c: char, alphabet: set<char>)
    requires '|' in alphabet && ':' in alphabet && 'x' in alphabet && c in alphabet
    ensures InputOver(LongNode(c), alphabet) && InputOver(LongEdge(c), alphabet)
  {
    assert Over(LongId(c), alphabet);
  }

  lemma {:induction false} EdgeListOver(edges: seq<LayoutEdge>, alphabet: set<char>, c: char)
    requires forall i :: 0 <= i < |edges| ==> Over(edges[i].source, alphabet) && Over(edges[i].target, alphabet)
    requires c in Join(EdgeParts(edges), ",")
    ensures c in alphabet || c == '>' || c == ','
  {
    if edges != [] && c !in EdgePart(edges[0]) && c != ',' {
      assert EdgeParts(edges)[1..] == EdgeParts(edges[1..]);
      EdgeListOver(edges[1..], alphabet, c);
    }
  }

  lemma OverIsSafe(input: Input, alphabet: set<char>)
    requires InputOver(input, alphabet) && ',' !in alphabet && '>' !in alphabet
    requires !('|' in alphabet && ':' in alphabet && 'x' in alphabet && HasDigit(alphabet))
    ensures Safe(input)
  {
    forall c | c in Join(EdgeParts(input.edges), ",") ensures c in alphabet || c == '>' || c == ',' {
      EdgeListOver(input.edges, alphabet, c);
    }
  }

  // ---- the cache ---------------------------------------------------------------------------------

  /** Every entry is the layout of some input its key spells. */
  ghost predicate Traced(dagre: Drawing -> map<string, Point>, at: map<string, Positions>, origin: map<string, Input>) {
    forall k :: k in at ==> k in origin && Signature(origin[k]) == k && at[k] == FreshLayout(dagre, origin[k])
  }

  ghost predicate SafelyTraced(at: map<string, Positions>, origin: map<string, Input>) {
    forall k :: k in at ==> k in origin && Safe(origin[k])
  }

  /** The cache holds the latest entries stored, at most its capacity, each traced to an input. */
  ghost predicate Consistent(dagre: Drawing -> map<string, Point>, cache: JsMap<Positions>,
                             origin: map<string, Input>, stored: seq<string>)
  {
    && cache.Ok() && |cache.order| <= MAX_CACHE && HoldsLatest(cache, stored, MAX_CACHE)
    && Traced(dagre, cache.at, origin)
  }

  lemma StoreStaysConsistent(dagre: Drawing -> map<string, Point>, cache: JsMap<Positions>,
                             origin: map<string, Input>, stored: seq<string>, input: Input)
    requires Consistent(dagre, cache, origin, stored) && Signature(input) !in cache.at
    ensures var key := Signature(input);
            var after := cache.Store(MAX_CACHE, key, FreshLayout(dagre, input));
            && Consistent(dagre, after, origin[key := input], stored + [key])
            && (Safe(input) && SafelyTraced(cache.at, origin) ==> SafelyTraced(after.at, origin[key := input]))
  {
    hide Signature, FreshLayout, Safe, HoldsLatest, Traced, SafelyTraced;
    var key, laid := Signature(input), FreshLayout(dagre, input);
    StoreStaysTraced(dagre, cache, origin, input, cache.Store(MAX_CACHE, key, laid));
    assert cache.Store(MAX_CACHE, key, laid).Ok() && |cache.Store(MAX_CACHE, key, laid).order| <= MAX_CACHE by {
      cache.StoreIsBounded(MAX_CACHE, key, laid);
    }
    StoreHoldsLatest(cache, stored, MAX_CACHE, key, laid);
  }

  lemma StoreStaysTraced(dagre: Drawing -> map<string, Point>, cache: JsMap<Positions>, origin: map<string, Input>,
                         input: Input, after: JsMap<Positions>)
    requires cache.Ok() && |cache.order| <= MAX_CACHE && Traced(dagre, cache.at, origin)
    requires Signature(input) !in cache.at
    requires after == cache.Store(MAX_CACHE, Signature(input), FreshLayout(dagre, input))
    ensures Traced(dagre, after.at, origin[Signature(input) := input])
    ensures Safe(input) && SafelyTraced(cache.at, origin) ==> SafelyTraced(after.at, origin[Signature(input) := input])
  {
    hide Signature, FreshLayout, Safe, Traced, SafelyTraced;
    cache.StoreIsBounded(MAX_CACHE, Signature(input), FreshLayout(dagre, input));
    TraceGrows(dagre, cache.at, after.at, origin, input);
  }

  lemma TraceGrows(dagre: Drawing -> map<string, Point>, before: map<string, Positions>, after: map<string, Positions>,
                   origin: map<string, Input>, input: Input)
    requires Traced(dagre, before, origin)
    requires forall k :: k in after ==>
               if k == Signature(input) then after[k] == FreshLayout(dagre, input)
               else k in before && after[k] == before[k]
    ensures Traced(dagre, after, origin[Signature(input) := input])
    ensures Safe(input) && SafelyTraced(before, origin) ==> SafelyTraced(after, origin[Signature(input) := input])
  {
    hide Signature, FreshLayout, Safe;
  }

  /** The module-level cache; `origin` remembers, for the proof, which input an entry was computed from. */
  class LayoutEngine {
    const dagre: Drawing -> map<string, Point>
    var cache: JsMap<Positions>
    ghost var origin: map<string, Input>
    ghost var stored: seq<string>

    ghost predicate Valid()
      reads this
    {
      Consistent(dagre, cache, origin, stored)
    }

    /** Every entry was computed from ids clear of the separators. */
    ghost predicate AllSafe()
      reads this
    {
      SafelyTraced(cache.at, origin)
    }

    constructor (dagre: Drawing -> map<string, Point>)
      ensures Valid() && AllSafe() && cache.order == [] && this.dagre == dagre
    {
      hide Signature, FreshLayout, Safe;
      this.dagre := dagre;
      cache, origin, stored := JsMap([], map[]), map[], [];
    }

    method LayoutGraph(input: Input) returns (r: Positions)
      requires Valid()
      modifies this
      ensures Valid() && |cache.order| <= 32
      ensures exists from: Input :: Signature(from) == Signature(input) && r == FreshLayout(dagre, from)
      ensures Safe(input) && old(AllSafe()) ==> AllSafe() && r == FreshLayout(dagre, input)
      ensures if Signature(input) in old(cache).at then cache == old(cache) && r == cache.at[Signature(input)]
              else cache == old(cache).Store(MAX_CACHE, Signature(input), r) && r == FreshLayout(dagre, input)
    {
      hide Signature, FreshLayout, Safe;
      var key := Signature(input);
      if key in cache.at {
        r := cache.at[key];
        ghost var first := origin[key];
        if Safe(input) && AllSafe() {
          SignatureIsInjective(first, input);
          SameDrawingSameLayout(dagre, first, input);
        }
      } else {
        var drawing := DrawGraph(input);
        r := PlaceNodes(dagre(drawing), input.nodes);
        FreshIs(dagre, input);
        Remember(input, r);
      }
    }

    method Remember(input: Input, positions: Positions)
      requires Valid() && Signature(input) !in cache.at && positions == FreshLayout(dagre, input)
      modifies this
      ensures Valid()
      ensures cache == old(cache).Store(MAX_CACHE, Signature(input), positions)
      ensures Safe(input) && old(AllSafe()) ==> AllSafe()
    {
      hide Signature, FreshLayout, Safe, SafelyTraced, Consistent;
      StoreStaysConsistent(dagre, cache, origin, stored, input);
      if |cache.order| >= MAX_CACHE {
        cache := cache.DropOldest();
      }
      cache := cache.Set(Signature(input), positions);
      origin := origin[Signature(input) := input];
      stored := stored + [Signature(input)];
    }
  }

  lemma FreshIs(dagre: Drawing -> map<string, Point>, input: Input)
    ensures FreshLayout(dagre, input) == Place(dagre(Draw(input)), input.nodes)
  {
  }

  method DrawGraph(input: Input) returns (drawing: Drawing)
    ensures drawing == Draw(input)
  {
    var boxes: JsMap<Box> := JsMap([], map[]);
    for i := 0 to |input.nodes|
      invariant boxes == Boxes(input.nodes[..i])
    {
      assert input.nodes[..i + 1][..i] == input.nodes[..i];
      var n := input.nodes[i];
      boxes := boxes.Set(n.id, Box(n.width, n.height));
    }
    assert input.nodes[..|input.nodes|] == input.nodes;
    var drawn: seq<LayoutEdge> := [];
    for i := 0 to |input.edges|
      invariant drawn == DrawnEdges(boxes, input.edges[..i])
    {
      assert input.edges[..i + 1][..i] == input.edges[..i];
      var e := input.edges[i];
      if e.source in boxes.at && e.target in boxes.at && e.source != e.target {
        if e !in drawn {
          drawn := drawn + [e];
        }
      }
    }
    assert input.edges[..|input.edges|] == input.edges;
    drawing := Drawing(Resolve(input.opts), boxes, drawn);
  }

  method PlaceNodes(laid: map<string, Point>, nodes: seq<LayoutNode>) returns (positions: Positions)
    ensures positions == Place(laid, nodes)
  {
    positions := map[];
    for i := 0 to |nodes|
      invariant positions == Place(laid, nodes[..i])
    {
      assert nodes[..i + 1][..i] == nodes[..i];
      positions := positions[nodes[i].id := TopLeft(laid, nodes[i])];
    }
    assert nodes[..|nodes|] == nodes;
  }

  /** Asked for two inputs of one key, the engine answers the second with the layout of the first. */
  method AskBoth(dagre: Drawing -> map<string, Point>, a: Input, b: Input) returns (second: Positions)
    requires Signature(a) == Signature(b)
    ensures second == FreshLayout(dagre, a)
  {
    hide Signature, FreshLayout;
    var engine := new LayoutEngine(dagre);
    var first := engine.LayoutGraph(a);
    second := engine.LayoutGraph(b);
  }

  /** What each confusion costs: three sessions that end in a layout which is not the one asked for. */
  method StaleLayouts(c: char) returns (arrow: Positions, comma: Positions, bar: Positions)
    requires IsDigit(c)
    ensures arrow != FreshLayout(Picky(Draw(ONWARD)), BACKWARD)
    ensures comma != FreshLayout(Picky(Draw(AFTER_COMMA)), BEFORE_COMMA)
    ensures bar != FreshLayout(_ => map[], LongEdge(c))
  {
    hide Signature, FreshLayout, Draw, Picky;
    ArrowConfuses();
    arrow := AskBoth(Picky(Draw(ONWARD)), ONWARD, BACKWARD);
    CommaConfuses();
    comma := AskBoth(Picky(Draw(AFTER_COMMA)), AFTER_COMMA, BEFORE_COMMA);
    BarConfuses(c, _ => map[]);
    bar := AskBoth(_ => map[], LongNode(c), LongEdge(c));
  }
}
