/** The rest of `mxgraph_xml_to_svg`: the bounding box of every coordinate
    the extracted graph holds, the padded viewBox around it, and the document
    made of the arrowhead definition, the edges and then the nodes. */
module Convert {
  import opened Wrappers
  import opened Diagram
  import opened Extraction
  import opened Nodes
  import opened Edges

  // ---- the coordinates that make the bounding box ----

  /** The top-left and bottom-right corners of the nodes `ids`, in order. */
  function NodeCorners(ids: seq<string>, nodes: map<string, Node>): seq<Point>
    requires forall i :: 0 <= i < |ids| ==> ids[i] in nodes
    decreases |ids|
  {
    if ids == [] then []
    else
      var b := nodes[ids[|ids| - 1]].box;
      NodeCorners(ids[..|ids| - 1], nodes) + [Point(b.x, b.y), Point(b.x + b.w, b.y + b.h)]
  }

  /** The points an edge contributes: its waypoints, then its explicit source
      and target points when it has them. */
  function EdgeCoordinates(e: Edge): seq<Point>
  {
    e.waypoints + OptionToSeq(e.sourcePoint) + OptionToSeq(e.targetPoint)
  }

  function AllEdgeCoordinates(edges: seq<Edge>): seq<Point>
    decreases |edges|
  {
    if edges == [] then []
    else AllEdgeCoordinates(edges[..|edges| - 1]) + EdgeCoordinates(edges[|edges| - 1])
  }

  /** Every point whose coordinates go into `all_x` and `all_y`, in the order
      they are appended: node corners in dictionary order, then edge points. */
  function Coordinates(g: Graph): seq<Point>
    requires Valid(g)
  {
    NodeCorners(g.order, g.nodes) + AllEdgeCoordinates(g.edges)
  }

  function Xs(ps: seq<Point>): (xs: seq<real>)
    ensures |xs| == |ps|
  {
    seq(|ps|, i requires 0 <= i < |ps| => ps[i].x)
  }

  function Ys(ps: seq<Point>): (ys: seq<real>)
    ensures |ys| == |ps|
  {
    seq(|ps|, i requires 0 <= i < |ps| => ps[i].y)
  }

  /** Python's `min` of a non-empty list. */
  function Lowest(xs: seq<real>): (m: real)
    requires |xs| > 0
    ensures forall i :: 0 <= i < |xs| ==> m <= xs[i]
    ensures exists i :: 0 <= i < |xs| && m == xs[i]
    decreases |xs|
  {
    if |xs| == 1 then xs[0]
    else
      var rest := Lowest(xs[1..]);
      assert forall i :: 1 <= i < |xs| ==> xs[i] == xs[1..][i - 1];
      if xs[0] <= rest then xs[0] else rest
  }

  /** Python's `max` of a non-empty list. */
  function Highest(xs: seq<real>): (m: real)
    requires |xs| > 0
    ensures forall i :: 0 <= i < |xs| ==> xs[i] <= m
    ensures exists i :: 0 <= i < |xs| && m == xs[i]
    decreases |xs|
  {
    if |xs| == 1 then xs[0]
    else
      var rest := Highest(xs[1..]);
      assert forall i :: 1 <= i < |xs| ==> xs[i] == xs[1..][i - 1];
      if xs[0] >= rest then xs[0] else rest
  }

  // ---- rendering ----

  /** Drawings gathered in order; the first failure stops the gathering. */
  function Collect(rs: seq<Result<seq<Element>, Error>>): Result<seq<seq<Element>>, Error>
    decreases |rs|
  {
    if rs == [] then Ok([])
    else
      match Collect(rs[..|rs| - 1])
      case Err(err) => Err(err)
      case Ok(init) =>
        match rs[|rs| - 1]
        case Err(err) => Err(err)
        case Ok(els) => Ok(init + [els])
  }

  /** What drawing each edge gives, in list order. */
  function EdgeResults(edges: seq<Edge>, nodes: map<string, Node>, host: Host): (rs: seq<Result<seq<Element>, Error>>)
    ensures |rs| == |edges|
  {
    seq(|edges|, i requires 0 <= i < |edges| => EdgeElements(edges[i], nodes, host))
  }

  /** What drawing each node of `ids` gives, in order. */
  function NodeResults(ids: seq<string>, nodes: map<string, Node>, host: Host): (rs: seq<Result<seq<Element>, Error>>)
    requires forall i :: 0 <= i < |ids| ==> ids[i] in nodes
    ensures |rs| == |ids|
  {
    seq(|ids|, i requires 0 <= i < |ids| => NodeElements(nodes[ids[i]], host))
  }

  /** The drawings of `edges`, in order; the first failure stops it. */
  function EdgeGroups(edges: seq<Edge>, nodes: map<string, Node>, host: Host): Result<seq<seq<Element>>, Error>
  {
    Collect(EdgeResults(edges, nodes, host))
  }

  /** The drawings of the nodes `ids`, in order; the first failure stops it. */
  function NodeGroups(ids: seq<string>, nodes: map<string, Node>, host: Host): Result<seq<seq<Element>>, Error>
    requires forall i :: 0 <= i < |ids| ==> ids[i] in nodes
  {
    Collect(NodeResults(ids, nodes, host))
  }

  /** The document for an extracted graph: the fixed empty document when the
      graph holds no coordinate, and otherwise the tight bounding box grown
      by `padding` on every side, with the marker definition, the edges
      (drawn first, so that they lie behind) and the nodes. */
  function Render(g: Graph, padding: int, host: Host): Result<Document, Error>
    requires Valid(g)
  {
    var ps := Coordinates(g);
    if ps == [] then Ok(EmptyDocument)
    else Draw(g, ViewBox(ps, padding), host)
  }

  /** The viewBox: the tight bounding box of `ps` grown by `padding` on every
      side. */
  function ViewBox(ps: seq<Point>, padding: int): Box
    requires ps != []
  {
    var minX := Lowest(Xs(ps)) - padding as real;
    var minY := Lowest(Ys(ps)) - padding as real;
    var maxX := Highest(Xs(ps)) + padding as real;
    var maxY := Highest(Ys(ps)) + padding as real;
    Box(minX, minY, maxX - minX, maxY - minY)
  }

  /** The document in the viewBox `frame`: the marker, the edges, the nodes. */
  function Draw(g: Graph, frame: Box, host: Host): Result<Document, Error>
    requires Valid(g)
  {
    match EdgeGroups(g.edges, g.nodes, host)
    case Err(err) => Err(err)
    case Ok(edgeParts) =>
      match NodeGroups(g.order, g.nodes, host)
      case Err(err) => Err(err)
      case Ok(nodeParts) =>
        Ok(Document(frame.x, frame.y, frame.w, frame.h, [[ArrowMarker]] + edgeParts + nodeParts))
  }

  /** `mxgraph_xml_to_svg` on the `mxCell` elements of a diagram. */
  function ConvertCells(cells: seq<Cell>, padding: int, host: Host): Result<Document, Error>
  {
    match ExtractGraph(cells, host)
    case Err(err) => Err(err)
    case Ok(g) =>
      ExtractValid(cells, host);
      Render(g, padding, host)
  }

  // ---- the converter as written: loops that append ----

  lemma XsYsAppend(a: seq<Point>, b: seq<Point>)
    ensures Xs(a + b) == Xs(a) + Xs(b)
    ensures Ys(a + b) == Ys(a) + Ys(b)
  {
    assert forall i :: 0 <= i < |a + b| ==> Xs(a + b)[i] == (Xs(a) + Xs(b))[i];
    assert forall i :: 0 <= i < |a + b| ==> Ys(a + b)[i] == (Ys(a) + Ys(b))[i];
  }

  /** The loop over the nodes: two x and two y values per node. */
  method CollectCorners(ids: seq<string>, nodes: map<string, Node>) returns (allX: seq<real>, allY: seq<real>)
    requires forall i :: 0 <= i < |ids| ==> ids[i] in nodes
    ensures allX == Xs(NodeCorners(ids, nodes)) && allY == Ys(NodeCorners(ids, nodes))
  {
    allX, allY := [], [];
    for i := 0 to |ids|
      invariant allX == Xs(NodeCorners(ids[..i], nodes))
      invariant allY == Ys(NodeCorners(ids[..i], nodes))
    {
      assert ids[..i + 1][..i] == ids[..i];
      var b := nodes[ids[i]].box;
      XsYsAppend(NodeCorners(ids[..i], nodes), [Point(b.x, b.y), Point(b.x + b.w, b.y + b.h)]);
      allX := allX + [b.x, b.x + b.w];
      allY := allY + [b.y, b.y + b.h];
    }
    assert ids[..|ids|] == ids;
  }

  /** One turn of the loop over the edges: the waypoints, then the explicit
      points that are present. */
  method AppendEdgePoints(e: Edge, xs: seq<real>, ys: seq<real>) returns (allX: seq<real>, allY: seq<real>)
    ensures allX == xs + Xs(EdgeCoordinates(e)) && allY == ys + Ys(EdgeCoordinates(e))
  {
    allX, allY := xs, ys;
    for j := 0 to |e.waypoints|
      invariant allX == xs + Xs(e.waypoints[..j])
      invariant allY == ys + Ys(e.waypoints[..j])
    {
      assert e.waypoints[..j + 1] == e.waypoints[..j] + [e.waypoints[j]];
      XsYsAppend(e.waypoints[..j], [e.waypoints[j]]);
      allX := allX + [e.waypoints[j].x];
      allY := allY + [e.waypoints[j].y];
    }
    assert e.waypoints[..|e.waypoints|] == e.waypoints;
    if e.sourcePoint.Some? {
      allX := allX + [e.sourcePoint.value.x];
      allY := allY + [e.sourcePoint.value.y];
    }
    if e.targetPoint.Some? {
      allX := allX + [e.targetPoint.value.x];
      allY := allY + [e.targetPoint.value.y];
    }
    XsYsAppend(e.waypoints, OptionToSeq(e.sourcePoint));
    XsYsAppend(e.waypoints + OptionToSeq(e.sourcePoint), OptionToSeq(e.targetPoint));
  }

  lemma CollectStep(corners: seq<Point>, edges: seq<Edge>, k: nat)
    requires k < |edges|
    ensures Xs(corners + AllEdgeCoordinates(edges[..k])) + Xs(EdgeCoordinates(edges[k])) ==
            Xs(corners + AllEdgeCoordinates(edges[..k + 1]))
    ensures Ys(corners + AllEdgeCoordinates(edges[..k])) + Ys(EdgeCoordinates(edges[k])) ==
            Ys(corners + AllEdgeCoordinates(edges[..k + 1]))
  {
    assert edges[..k + 1][..k] == edges[..k];
    var before := corners + AllEdgeCoordinates(edges[..k]);
    XsYsAppend(before, EdgeCoordinates(edges[k]));
    assert before + EdgeCoordinates(edges[k]) == corners + AllEdgeCoordinates(edges[..k + 1]);
  }

  /** The bounding-box loops: `all_x` and `all_y` as they are filled. */
  method CollectCoordinates(g: Graph) returns (allX: seq<real>, allY: seq<real>)
    requires Valid(g)
    ensures allX == Xs(Coordinates(g)) && allY == Ys(Coordinates(g))
  {
    allX, allY := CollectCorners(g.order, g.nodes);
    allX, allY := CollectEdgePoints(NodeCorners(g.order, g.nodes), g.edges, allX, allY);
  }

  /** The loop over the edges, after the corners `corners` are collected. */
  method CollectEdgePoints(corners: seq<Point>, edges: seq<Edge>, xs: seq<real>, ys: seq<real>)
    returns (allX: seq<real>, allY: seq<real>)
    requires xs == Xs(corners) && ys == Ys(corners)
    ensures allX == Xs(corners + AllEdgeCoordinates(edges)) && allY == Ys(corners + AllEdgeCoordinates(edges))
  {
    allX, allY := xs, ys;
    assert corners + AllEdgeCoordinates(edges[..0]) == corners;
    for k := 0 to |edges|
      invariant allX == Xs(corners + AllEdgeCoordinates(edges[..k]))
      invariant allY == Ys(corners + AllEdgeCoordinates(edges[..k]))
    {
      CollectStep(corners, edges, k);
      allX, allY := AppendEdgePoints(edges[k], allX, allY);
    }
    assert edges[..|edges|] == edges;
  }

  /** One more drawing gathered. */
  lemma CollectNext(rs: seq<Result<seq<Element>, Error>>, i: nat, done: seq<seq<Element>>)
    requires i < |rs| && Collect(rs[..i]) == Ok(done)
    ensures Collect(rs[..i + 1]) ==
              match rs[i]
              case Err(err) => Err(err)
              case Ok(els) => Ok(done + [els])
  {
    var p := rs[..i + 1];
    assert p[..|p| - 1] == rs[..i];
    assert p[|p| - 1] == rs[i];
  }

  lemma {:induction false} CollectErrorSticks(rs: seq<Result<seq<Element>, Error>>, i: nat)
    requires i <= |rs| && Collect(rs[..i]).Err?
    ensures Collect(rs) == Collect(rs[..i])
    decreases |rs| - i
  {
    if i < |rs| {
      assert rs[..i + 1][..i] == rs[..i];
      CollectErrorSticks(rs, i + 1);
    } else {
      assert rs[..i] == rs;
    }
  }

  /** The loop that draws the edges. */
  method DrawEdges(edges: seq<Edge>, nodes: map<string, Node>, host: Host) returns (r: Result<seq<seq<Element>>, Error>)
    ensures r == EdgeGroups(edges, nodes, host)
  {
    ghost var rs := EdgeResults(edges, nodes, host);
    var parts: seq<seq<Element>> := [];
    for k := 0 to |edges|
      invariant Collect(rs[..k]) == Ok(parts)
    {
      CollectNext(rs, k, parts);
      var drawn := RenderEdge(edges[k], nodes, host);
      assert rs[k] == drawn;
      if drawn.Err? {
        CollectErrorSticks(rs, k + 1);
        return Err(drawn.error);
      }
      parts := parts + [drawn.value];
    }
    assert rs[..|edges|] == rs;
    return Ok(parts);
  }

  /** The loop that draws the nodes. */
  method DrawNodes(ids: seq<string>, nodes: map<string, Node>, host: Host) returns (r: Result<seq<seq<Element>>, Error>)
    requires forall i :: 0 <= i < |ids| ==> ids[i] in nodes
    ensures r == NodeGroups(ids, nodes, host)
  {
    ghost var rs := NodeResults(ids, nodes, host);
    var parts: seq<seq<Element>> := [];
    for k := 0 to |ids|
      invariant Collect(rs[..k]) == Ok(parts)
    {
      CollectNext(rs, k, parts);
      var drawn := RenderNode(nodes[ids[k]], host);
      assert rs[k] == drawn;
      if drawn.Err? {
        CollectErrorSticks(rs, k + 1);
        return Err(drawn.error);
      }
      parts := parts + [drawn.value];
    }
    assert rs[..|ids|] == rs;
    return Ok(parts);
  }

  /** The part of `mxgraph_xml_to_svg` after the extraction loop. */
  method RenderGraph(g: Graph, padding: int, host: Host) returns (r: Result<Document, Error>)
    requires Valid(g)
    ensures r == Render(g, padding, host)
  {
    var allX, allY := CollectCoordinates(g);
    if allX == [] || allY == [] {
      return Ok(EmptyDocument);
    }
    var frame := Frame(Coordinates(g), allX, allY, padding);
    r := DrawGraph(g, frame, host);
  }

  /** The viewBox from the collected coordinates `allX` and `allY` of `ps`. */
  method Frame(ghost ps: seq<Point>, allX: seq<real>, allY: seq<real>, padding: int) returns (frame: Box)
    requires ps != [] && allX == Xs(ps) && allY == Ys(ps)
    ensures frame == ViewBox(ps, padding)
  {
    var minX := Lowest(allX) - padding as real;
    var minY := Lowest(allY) - padding as real;
    var maxX := Highest(allX) + padding as real;
    var maxY := Highest(allY) + padding as real;
    frame := Box(minX, minY, maxX - minX, maxY - minY);
  }

  /** The drawing loops and the closing of the document. */
  method DrawGraph(g: Graph, frame: Box, host: Host) returns (r: Result<Document, Error>)
    requires Valid(g)
    ensures r == Draw(g, frame, host)
  {
    var edgeParts := DrawEdges(g.edges, g.nodes, host);
    if edgeParts.Err? {
      return Err(edgeParts.error);
    }
    var nodeParts := DrawNodes(g.order, g.nodes, host);
    if nodeParts.Err? {
      return Err(nodeParts.error);
    }
    return Ok(Document(frame.x, frame.y, frame.w, frame.h, [[ArrowMarker]] + edgeParts.value + nodeParts.value));
  }

  /** `mxgraph_xml_to_svg` on the `mxCell` elements of a diagram. */
  method MxGraphToSvg(cells: seq<Cell>, padding: int, host: Host) returns (r: Result<Document, Error>)
    ensures r == ConvertCells(cells, padding, host)
  {
    var extracted := ExtractCells(cells, host);
    if extracted.Err? {
      return Err(extracted.error);
    }
    ExtractValid(cells, host);
    r := RenderGraph(extracted.value, padding, host);
  }

  // ---- what the document shows ----

  /** The viewBox is the tightest box around the points grown by `padding`:
      every point lies at least `padding` inside each side, and on each side
      some point lies exactly `padding` inside. */
  lemma ViewBoxTight(ps: seq<Point>, padding: int)
    requires ps != []
    ensures var vb := ViewBox(ps, padding);
            forall p :: p in ps ==>
              vb.x + padding as real <= p.x <= vb.x + vb.w - padding as real &&
              vb.y + padding as real <= p.y <= vb.y + vb.h - padding as real
    ensures var vb := ViewBox(ps, padding);
            (exists p :: p in ps && p.x == vb.x + padding as real) &&
            (exists p :: p in ps && p.x == vb.x + vb.w - padding as real) &&
            (exists p :: p in ps && p.y == vb.y + padding as real) &&
            (exists p :: p in ps && p.y == vb.y + vb.h - padding as real)
    ensures padding >= 0 ==> forall p :: p in ps ==> InBox(p, ViewBox(ps, padding))
  {
    var xs, ys := Xs(ps), Ys(ps);
    forall p | p in ps
      ensures Lowest(xs) <= p.x <= Highest(xs) && Lowest(ys) <= p.y <= Highest(ys)
    {
      var i :| 0 <= i < |ps| && ps[i] == p;
      assert xs[i] == p.x && ys[i] == p.y;
    }
    var a :| 0 <= a < |xs| && Lowest(xs) == xs[a];
    assert ps[a] in ps;
    var b :| 0 <= b < |xs| && Highest(xs) == xs[b];
    assert ps[b] in ps;
    var c :| 0 <= c < |ys| && Lowest(ys) == ys[c];
    assert ps[c] in ps;
    var d :| 0 <= d < |ys| && Highest(ys) == ys[d];
    assert ps[d] in ps;
  }

  /** The corners of the box of node `ids[i]` are among the corners. */
  lemma {:induction false} NodeCornersMember(ids: seq<string>, nodes: map<string, Node>, i: nat)
    requires forall j :: 0 <= j < |ids| ==> ids[j] in nodes
    requires i < |ids|
    ensures var b := nodes[ids[i]].box;
            Point(b.x, b.y) in NodeCorners(ids, nodes) && Point(b.x + b.w, b.y + b.h) in NodeCorners(ids, nodes)
    decreases |ids|
  {
    var init := ids[..|ids| - 1];
    if i < |init| {
      assert init[i] == ids[i];
      NodeCornersMember(init, nodes, i);
    }
  }

  /** Edge `k`'s points are among the points of all the edges. */
  lemma {:induction false} EdgeCoordinatesMember(edges: seq<Edge>, k: nat)
    requires k < |edges|
    ensures forall p :: p in EdgeCoordinates(edges[k]) ==> p in AllEdgeCoordinates(edges)
    ensures |EdgeCoordinates(edges[k])| <= |AllEdgeCoordinates(edges)|
    decreases |edges|
  {
    var init := edges[..|edges| - 1];
    assert AllEdgeCoordinates(edges) == AllEdgeCoordinates(init) + EdgeCoordinates(edges[|edges| - 1]);
    if k < |init| {
      assert init[k] == edges[k];
      EdgeCoordinatesMember(init, k);
    }
  }

  lemma {:induction false} EdgeCoordinatesNone(edges: seq<Edge>)
    ensures |AllEdgeCoordinates(edges)| == 0 <==> forall k :: 0 <= k < |edges| ==> |EdgeCoordinates(edges[k])| == 0
    decreases |edges|
  {
    forall k | 0 <= k < |edges| {
      EdgeCoordinatesMember(edges, k);
    }
    if edges != [] {
      var init := edges[..|edges| - 1];
      EdgeCoordinatesNone(init);
      assert AllEdgeCoordinates(edges) == AllEdgeCoordinates(init) + EdgeCoordinates(edges[|edges| - 1]);
    }
  }

  /** Every node's two corners are among the coordinates. */
  lemma NodeCornersInCoordinates(g: Graph)
    requires Valid(g)
    ensures forall id :: id in g.nodes ==>
              Point(g.nodes[id].box.x, g.nodes[id].box.y) in Coordinates(g) &&
              Point(g.nodes[id].box.x + g.nodes[id].box.w, g.nodes[id].box.y + g.nodes[id].box.h) in Coordinates(g)
  {
    forall id | id in g.nodes
      ensures Point(g.nodes[id].box.x, g.nodes[id].box.y) in Coordinates(g)
      ensures Point(g.nodes[id].box.x + g.nodes[id].box.w, g.nodes[id].box.y + g.nodes[id].box.h) in Coordinates(g)
    {
      var i :| 0 <= i < |g.order| && g.order[i] == id;
      NodeCornersMember(g.order, g.nodes, i);
    }
  }

  /** Every edge's points are among the coordinates. */
  lemma EdgePointsInCoordinates(g: Graph)
    requires Valid(g)
    ensures forall k, p :: 0 <= k < |g.edges| && p in EdgeCoordinates(g.edges[k]) ==> p in Coordinates(g)
  {
    forall k, p | 0 <= k < |g.edges| && p in EdgeCoordinates(g.edges[k])
      ensures p in Coordinates(g)
    {
      EdgeCoordinatesMember(g.edges, k);
    }
  }

  /** A document other than the empty one has the viewBox of the coordinates. */
  lemma RenderFrame(g: Graph, padding: int, host: Host)
    requires Valid(g)
    requires Render(g, padding, host).Ok? && Render(g, padding, host).value.Document?
    ensures Coordinates(g) != []
    ensures var d := Render(g, padding, host).value;
            Box(d.minX, d.minY, d.width, d.height) == ViewBox(Coordinates(g), padding)
  {
  }

  /** With a padding that is not negative, the viewBox shows every node's
      box whole, and every waypoint and explicit end point of every edge. */
  lemma EverythingInView(g: Graph, padding: int, host: Host)
    requires Valid(g) && padding >= 0
    requires Render(g, padding, host).Ok? && Render(g, padding, host).value.Document?
    ensures var d := Render(g, padding, host).value;
            var frame := Box(d.minX, d.minY, d.width, d.height);
            forall id :: id in g.nodes ==>
              InBox(Point(g.nodes[id].box.x, g.nodes[id].box.y), frame) &&
              InBox(Point(g.nodes[id].box.x + g.nodes[id].box.w, g.nodes[id].box.y + g.nodes[id].box.h), frame)
    ensures var d := Render(g, padding, host).value;
            var frame := Box(d.minX, d.minY, d.width, d.height);
            forall k, p :: 0 <= k < |g.edges| && p in EdgeCoordinates(g.edges[k]) ==> InBox(p, frame)
  {
    RenderFrame(g, padding, host);
    ViewBoxTight(Coordinates(g), padding);
    NodeCornersInCoordinates(g);
    EdgePointsInCoordinates(g);
  }

  /** No coordinate at all: no node, and no edge with a waypoint or an
      explicit end point. */
  lemma NoCoordinates(g: Graph)
    requires Valid(g)
    ensures Coordinates(g) == [] <==>
              g.nodes == map[] &&
              forall k :: 0 <= k < |g.edges| ==>
                g.edges[k].waypoints == [] && g.edges[k].sourcePoint.None? && g.edges[k].targetPoint.None?
  {
    NoNodeCorners(g);
    NoEdgeCoordinates(g.edges);
    assert Coordinates(g) == NodeCorners(g.order, g.nodes) + AllEdgeCoordinates(g.edges);
  }

  lemma {:induction false} NodeCornersLength(ids: seq<string>, nodes: map<string, Node>)
    requires forall i :: 0 <= i < |ids| ==> ids[i] in nodes
    ensures |NodeCorners(ids, nodes)| == 2 * |ids|
    decreases |ids|
  {
    if ids != [] {
      NodeCornersLength(ids[..|ids| - 1], nodes);
    }
  }

  lemma NoNodeCorners(g: Graph)
    requires Valid(g)
    ensures NodeCorners(g.order, g.nodes) == [] <==> g.nodes == map[]
  {
    NodeCornersLength(g.order, g.nodes);
    if g.nodes != map[] {
      var id :| id in g.nodes;
      assert id in g.order;
    }
    if g.order != [] {
      assert g.order[0] in g.nodes;
    }
  }

  lemma NoEdgeCoordinates(edges: seq<Edge>)
    ensures AllEdgeCoordinates(edges) == [] <==>
              forall k :: 0 <= k < |edges| ==>
                edges[k].waypoints == [] && edges[k].sourcePoint.None? && edges[k].targetPoint.None?
  {
    EdgeCoordinatesNone(edges);
    forall k | 0 <= k < |edges|
      ensures |EdgeCoordinates(edges[k])| == 0 <==>
                edges[k].waypoints == [] && edges[k].sourcePoint.None? && edges[k].targetPoint.None?
    {
      EdgeCoordinatesEmpty(edges[k]);
    }
  }

  lemma EdgeCoordinatesEmpty(e: Edge)
    ensures |EdgeCoordinates(e)| == 0 <==> e.waypoints == [] && e.sourcePoint.None? && e.targetPoint.None?
  {
  }

  /** The fixed empty document comes out exactly when there is no
      coordinate; then no edge and no node is drawn, so nothing can fail. */
  lemma EmptyDocumentWhen(g: Graph, padding: int, host: Host)
    requires Valid(g)
    ensures Render(g, padding, host) == Ok(EmptyDocument) <==> Coordinates(g) == []
  {
    if Coordinates(g) != [] {
      assert Render(g, padding, host) == Draw(g, ViewBox(Coordinates(g), padding), host);
    }
  }

  lemma {:induction false} CollectLength(rs: seq<Result<seq<Element>, Error>>)
    ensures Collect(rs).Ok? ==> |Collect(rs).value| == |rs|
    decreases |rs|
  {
    if rs != [] {
      CollectLength(rs[..|rs| - 1]);
    }
  }

  lemma {:induction false} CollectAt(rs: seq<Result<seq<Element>, Error>>, k: nat)
    requires k < |rs|
    ensures Collect(rs).Ok? ==> |Collect(rs).value| == |rs| && rs[k] == Ok(Collect(rs).value[k])
    ensures rs[k].Err? ==> Collect(rs).Err?
    decreases |rs|
  {
    var init := rs[..|rs| - 1];
    CollectLength(rs);
    CollectLength(init);
    if k < |init| {
      assert init[k] == rs[k];
      CollectAt(init, k);
    }
  }

  lemma {:induction false} CollectOk(rs: seq<Result<seq<Element>, Error>>)
    requires forall k :: 0 <= k < |rs| ==> rs[k].Ok?
    ensures Collect(rs).Ok?
    decreases |rs|
  {
    if rs != [] {
      var init := rs[..|rs| - 1];
      assert forall k :: 0 <= k < |init| ==> init[k] == rs[k];
      CollectOk(init);
    }
  }

  /** Gathering succeeds exactly when every drawing does, and then holds
      every drawing, in order. */
  lemma CollectInOrder(rs: seq<Result<seq<Element>, Error>>)
    ensures Collect(rs).Ok? <==> forall k :: 0 <= k < |rs| ==> rs[k].Ok?
    ensures Collect(rs).Ok? ==>
              |Collect(rs).value| == |rs| && forall k :: 0 <= k < |rs| ==> rs[k] == Ok(Collect(rs).value[k])
  {
    CollectLength(rs);
    forall k | 0 <= k < |rs| {
      CollectAt(rs, k);
    }
    if forall k :: 0 <= k < |rs| ==> rs[k].Ok? {
      CollectOk(rs);
    }
  }

  /** The edges are drawn one group each, in list order; drawing them fails
      exactly when one of them fails. */
  lemma EdgeGroupsInOrder(edges: seq<Edge>, nodes: map<string, Node>, host: Host)
    ensures EdgeGroups(edges, nodes, host).Ok? <==>
              forall k :: 0 <= k < |edges| ==> EdgeElements(edges[k], nodes, host).Ok?
    ensures EdgeGroups(edges, nodes, host).Ok? ==>
              |EdgeGroups(edges, nodes, host).value| == |edges| &&
              forall k :: 0 <= k < |edges| ==> EdgeElements(edges[k], nodes, host) == Ok(EdgeGroups(edges, nodes, host).value[k])
  {
    var rs := EdgeResults(edges, nodes, host);
    CollectInOrder(rs);
    assert forall k :: 0 <= k < |edges| ==> rs[k] == EdgeElements(edges[k], nodes, host);
  }

  /** The nodes are drawn one group each, in the order given; drawing them
      fails exactly when one of them fails. */
  lemma NodeGroupsInOrder(ids: seq<string>, nodes: map<string, Node>, host: Host)
    requires forall i :: 0 <= i < |ids| ==> ids[i] in nodes
    ensures NodeGroups(ids, nodes, host).Ok? <==>
              forall k :: 0 <= k < |ids| ==> NodeElements(nodes[ids[k]], host).Ok?
    ensures NodeGroups(ids, nodes, host).Ok? ==>
              |NodeGroups(ids, nodes, host).value| == |ids| &&
              forall k :: 0 <= k < |ids| ==> NodeElements(nodes[ids[k]], host) == Ok(NodeGroups(ids, nodes, host).value[k])
  {
    var rs := NodeResults(ids, nodes, host);
    CollectInOrder(rs);
    assert forall k :: 0 <= k < |ids| ==> rs[k] == NodeElements(nodes[ids[k]], host);
  }

  /** A document other than the empty one is the marker, the drawn edges
      and the drawn nodes. */
  lemma RenderParts(g: Graph, padding: int, host: Host)
    requires Valid(g)
    requires Render(g, padding, host).Ok? && Render(g, padding, host).value.Document?
    ensures EdgeGroups(g.edges, g.nodes, host).Ok? && NodeGroups(g.order, g.nodes, host).Ok?
    ensures Render(g, padding, host).value.parts ==
              [[ArrowMarker]] + EdgeGroups(g.edges, g.nodes, host).value + NodeGroups(g.order, g.nodes, host).value
  {
  }

  /** A document that is not the empty one holds the marker definition, then
      one group per edge in list order, then one group per node in the order
      the nodes were first met, so that edges lie behind nodes. */
  lemma DocumentParts(g: Graph, padding: int, host: Host)
    requires Valid(g)
    requires Render(g, padding, host).Ok? && Render(g, padding, host).value.Document?
    ensures var parts := Render(g, padding, host).value.parts;
            |parts| == 1 + |g.edges| + |g.order| &&
            parts[0] == [ArrowMarker] &&
            (forall k :: 0 <= k < |g.edges| ==> EdgeElements(g.edges[k], g.nodes, host) == Ok(parts[1 + k])) &&
            (forall k :: 0 <= k < |g.order| ==>
               g.order[k] in g.nodes && NodeElements(g.nodes[g.order[k]], host) == Ok(parts[1 + |g.edges| + k]))
  {
    RenderParts(g, padding, host);
    var edgeParts := EdgeGroups(g.edges, g.nodes, host).value;
    var nodeParts := NodeGroups(g.order, g.nodes, host).value;
    var parts := Render(g, padding, host).value.parts;
    EdgeGroupsInOrder(g.edges, g.nodes, host);
    NodeGroupsInOrder(g.order, g.nodes, host);
    PartsAt(edgeParts, nodeParts);
    forall k | 0 <= k < |g.edges| ensures EdgeElements(g.edges[k], g.nodes, host) == Ok(parts[1 + k]) {
      assert parts[1 + k] == edgeParts[k];
    }
    forall k | 0 <= k < |g.order|
      ensures g.order[k] in g.nodes && NodeElements(g.nodes[g.order[k]], host) == Ok(parts[1 + |g.edges| + k])
    {
      assert parts[1 + |g.edges| + k] == nodeParts[k];
    }
  }

  lemma PartsAt(edgeParts: seq<seq<Element>>, nodeParts: seq<seq<Element>>)
    ensures var parts := [[ArrowMarker]] + edgeParts + nodeParts;
            |parts| == 1 + |edgeParts| + |nodeParts| &&
            parts[0] == [ArrowMarker] &&
            (forall k :: 0 <= k < |edgeParts| ==> parts[1 + k] == edgeParts[k]) &&
            (forall k :: 0 <= k < |nodeParts| ==> parts[1 + |edgeParts| + k] == nodeParts[k])
  {
  }

  /** Once there is something to show, the conversion fails exactly when
      some edge or some node cannot be drawn. */
  lemma RenderFails(g: Graph, padding: int, host: Host)
    requires Valid(g) && Coordinates(g) != []
    ensures Render(g, padding, host).Err? <==>
              (exists k :: 0 <= k < |g.edges| && EdgeElements(g.edges[k], g.nodes, host).Err?) ||
              (exists k :: 0 <= k < |g.order| && NodeElements(g.nodes[g.order[k]], host).Err?)
  {
    EdgeGroupsInOrder(g.edges, g.nodes, host);
    NodeGroupsInOrder(g.order, g.nodes, host);
  }
}
