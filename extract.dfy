/** Cell extraction (the first loop of `mxgraph_xml_to_svg`): vertex cells
    with a geometry become nodes keyed by id, edge cells become edges in
    document order, and every other cell is skipped. */
module Extraction {
  import opened Wrappers
  import opened Diagram
  import opened Style
  import opened Shape

  /** `float(element.get(name, "0"))`: an absent attribute is 0. */
  function Coord(a: Option<string>, host: Host): Result<real, Error>
  {
    match a
    case None => Ok(0.0)
    case Some(t) =>
      match host.toFloat(t)
      case None => Err(BadFloat(t))
      case Some(v) => Ok(v)
  }

  /** The coordinates of an `mxPoint`, x read first. */
  function PointOf(p: MxPoint, host: Host): Result<Point, Error>
  {
    var px :- Coord(p.x, host);
    var py :- Coord(p.y, host);
    Ok(Point(px, py))
  }

  /** The points of an `Array`, in order. */
  function Waypoints(arr: seq<MxPoint>, host: Host): Result<seq<Point>, Error>
    decreases |arr|
  {
    if arr == [] then Ok([])
    else
      var init :- Waypoints(arr[..|arr| - 1], host);
      var p :- PointOf(arr[|arr| - 1], host);
      Ok(init + [p])
  }

  /** The explicit source and target points of an edge. */
  datatype Ends = Ends(source: Option<Point>, target: Option<Point>)

  /** The explicit points after reading the geometry's own `mxPoint`
      children: each child is read, and one tagged `sourcePoint` or
      `targetPoint` replaces the earlier point with that tag. */
  function ExplicitEnds(pts: seq<MxPoint>, host: Host): Result<Ends, Error>
    decreases |pts|
  {
    if pts == [] then Ok(Ends(None, None))
    else
      var prev :- ExplicitEnds(pts[..|pts| - 1], host);
      var q := pts[|pts| - 1];
      var p :- PointOf(q, host);
      if q.role == "sourcePoint" then Ok(prev.(source := Some(p)))
      else if q.role == "targetPoint" then Ok(prev.(target := Some(p)))
      else Ok(prev)
  }

  /** The waypoints of a geometry: those of its `Array`, or none. */
  function GeometryWaypoints(g: Geometry, host: Host): Result<seq<Point>, Error>
  {
    match g.route
    case None => Ok([])
    case Some(arr) => Waypoints(arr, host)
  }

  /** The edge an edge cell makes; without a geometry it has no waypoints and
      no explicit points. */
  function EdgeOf(c: Cell, st: StyleMap, host: Host): Result<Edge, Error>
  {
    if c.geometry.None? then Ok(Edge(c.source, c.target, c.value, st, [], None, None))
    else
      var wps :- GeometryWaypoints(c.geometry.value, host);
      var ends :- ExplicitEnds(c.geometry.value.points, host);
      Ok(Edge(c.source, c.target, c.value, st, wps, ends.source, ends.target))
  }

  /** The node a vertex cell makes: its box (x, y, width, height, read in that
      order), its value as label, its shape kind and its style. */
  function NodeOf(c: Cell, geom: Geometry, st: StyleMap, host: Host): Result<Node, Error>
  {
    var x :- Coord(geom.x, host);
    var y :- Coord(geom.y, host);
    var w :- Coord(geom.width, host);
    var h :- Coord(geom.height, host);
    var kind :- Classify(st);
    Ok(Node(Box(x, y, w, h), c.value, kind, st))
  }

  predicate MakesNode(c: Cell) {
    c.vertex == Some("1") && c.geometry.Some?
  }

  /** An edge cell that does not already make a node. */
  predicate MakesEdge(c: Cell) {
    !MakesNode(c) && c.edge == Some("1")
  }

  /** `nodes[id] = n`: a new id goes to the end of the order, an old one keeps
      its place. */
  function Insert(g: Graph, id: string, n: Node): Graph
  {
    Graph(if id in g.nodes then g.order else g.order + [id], g.nodes[id := n], g.edges)
  }

  /** One turn of the extraction loop. */
  function Step(graph: Graph, c: Cell, host: Host): Result<Graph, Error>
  {
    var st := StyleOf(c.style);
    if MakesNode(c) then
      var n :- NodeOf(c, c.geometry.value, st, host);
      Ok(Insert(graph, c.id, n))
    else if MakesEdge(c) then
      var e :- EdgeOf(c, st, host);
      Ok(graph.(edges := graph.edges + [e]))
    else Ok(graph)
  }

  /** The graph after the loop has read `cells`; the first error stops it. */
  function ExtractGraph(cells: seq<Cell>, host: Host): Result<Graph, Error>
    decreases |cells|
  {
    if cells == [] then Ok(Graph([], map[], []))
    else
      var prev :- ExtractGraph(cells[..|cells| - 1], host);
      Step(prev, cells[|cells| - 1], host)
  }

  lemma ExtractSnoc(cells: seq<Cell>, i: nat, host: Host)
    requires i < |cells|
    ensures ExtractGraph(cells[..i], host).Err? ==>
              ExtractGraph(cells[..i + 1], host) == ExtractGraph(cells[..i], host)
    ensures ExtractGraph(cells[..i], host).Ok? ==>
              ExtractGraph(cells[..i + 1], host) == Step(ExtractGraph(cells[..i], host).value, cells[i], host)
  {
    assert cells[..i + 1][..i] == cells[..i];
  }

  /** Once the loop has failed, the later cells do not matter. */
  lemma {:induction false} ErrorSticks(cells: seq<Cell>, i: nat, host: Host)
    requires i <= |cells| && ExtractGraph(cells[..i], host).Err?
    ensures ExtractGraph(cells, host) == ExtractGraph(cells[..i], host)
    decreases |cells| - i
  {
    if i < |cells| {
      ExtractSnoc(cells, i, host);
      ErrorSticks(cells, i + 1, host);
    } else {
      assert cells[..i] == cells;
    }
  }

  /** The waypoint loop of the extraction. */
  method ReadWaypoints(arr: seq<MxPoint>, host: Host) returns (r: Result<seq<Point>, Error>)
    ensures r == Waypoints(arr, host)
  {
    var waypoints: seq<Point> := [];
    for i := 0 to |arr|
      invariant Waypoints(arr[..i], host) == Ok(waypoints)
    {
      assert arr[..i + 1][..i] == arr[..i];
      var p := PointOf(arr[i], host);
      if p.Err? {
        WaypointsErrorSticks(arr, i + 1, host);
        return Err(p.error);
      }
      waypoints := waypoints + [p.value];
    }
    assert arr[..|arr|] == arr;
    return Ok(waypoints);
  }

  lemma {:induction false} WaypointsErrorSticks(arr: seq<MxPoint>, i: nat, host: Host)
    requires i <= |arr| && Waypoints(arr[..i], host).Err?
    ensures Waypoints(arr, host) == Waypoints(arr[..i], host)
    decreases |arr| - i
  {
    if i < |arr| {
      assert arr[..i + 1][..i] == arr[..i];
      WaypointsErrorSticks(arr, i + 1, host);
    } else {
      assert arr[..i] == arr;
    }
  }

  /** The explicit-point loop of the extraction. */
  method ReadEnds(pts: seq<MxPoint>, host: Host) returns (r: Result<Ends, Error>)
    ensures r == ExplicitEnds(pts, host)
  {
    var sourcePoint: Option<Point> := None;
    var targetPoint: Option<Point> := None;
    for i := 0 to |pts|
      invariant ExplicitEnds(pts[..i], host) == Ok(Ends(sourcePoint, targetPoint))
    {
      assert pts[..i + 1][..i] == pts[..i];
      var p := PointOf(pts[i], host);
      if p.Err? {
        EndsErrorSticks(pts, i + 1, host);
        return Err(p.error);
      }
      if pts[i].role == "sourcePoint" {
        sourcePoint := Some(p.value);
      } else if pts[i].role == "targetPoint" {
        targetPoint := Some(p.value);
      }
    }
    assert pts[..|pts|] == pts;
    return Ok(Ends(sourcePoint, targetPoint));
  }

  lemma {:induction false} EndsErrorSticks(pts: seq<MxPoint>, i: nat, host: Host)
    requires i <= |pts| && ExplicitEnds(pts[..i], host).Err?
    ensures ExplicitEnds(pts, host) == ExplicitEnds(pts[..i], host)
    decreases |pts| - i
  {
    if i < |pts| {
      assert pts[..i + 1][..i] == pts[..i];
      EndsErrorSticks(pts, i + 1, host);
    } else {
      assert pts[..i] == pts;
    }
  }

  /** The edge branch of the extraction loop. */
  method ReadEdge(c: Cell, st: StyleMap, host: Host) returns (r: Result<Edge, Error>)
    ensures r == EdgeOf(c, st, host)
  {
    var waypoints: seq<Point> := [];
    var ends := Ends(None, None);
    if c.geometry.Some? {
      var geom := c.geometry.value;
      if geom.route.Some? {
        waypoints :- ReadWaypoints(geom.route.value, host);
      }
      ends :- ReadEnds(geom.points, host);
    }
    return Ok(Edge(c.source, c.target, c.value, st, waypoints, ends.source, ends.target));
  }

  /** The extraction loop of `mxgraph_xml_to_svg`: fills the node dictionary
      (keeping its insertion order) and the edge list. */
  method ExtractCells(cells: seq<Cell>, host: Host) returns (r: Result<Graph, Error>)
    ensures r == ExtractGraph(cells, host)
  {
    var order: seq<string> := [];
    var nodes: map<string, Node> := map[];
    var edges: seq<Edge> := [];
    for i := 0 to |cells|
      invariant ExtractGraph(cells[..i], host) == Ok(Graph(order, nodes, edges))
    {
      ExtractSnoc(cells, i, host);
      var cell := cells[i];
      var style := ParseStyle(cell.style);
      var isEdge := cell.edge == Some("1");
      var isVertex := cell.vertex == Some("1");
      if isVertex && cell.geometry.Some? {
        var n := NodeOf(cell, cell.geometry.value, style, host);
        if n.Err? {
          ErrorSticks(cells, i + 1, host);
          return Err(n.error);
        }
        if cell.id !in nodes {
          order := order + [cell.id];
        }
        nodes := nodes[cell.id := n.value];
      } else if isEdge {
        var e := ReadEdge(cell, style, host);
        if e.Err? {
          ErrorSticks(cells, i + 1, host);
          return Err(e.error);
        }
        edges := edges + [e.value];
      }
    }
    assert cells[..|cells|] == cells;
    return Ok(Graph(order, nodes, edges));
  }

  // ---- what the extraction keeps ----

  predicate PointsOk(pts: seq<MxPoint>, host: Host) {
    forall i :: 0 <= i < |pts| ==> PointOf(pts[i], host).Ok?
  }

  /** The waypoints are the points of the `Array`, one for one and in order;
      reading them fails exactly when one of them cannot be read. */
  lemma {:induction false} WaypointsInOrder(arr: seq<MxPoint>, host: Host)
    ensures Waypoints(arr, host).Ok? <==> PointsOk(arr, host)
    ensures Waypoints(arr, host).Ok? ==> |Waypoints(arr, host).value| == |arr|
    ensures Waypoints(arr, host).Ok? ==>
              forall i :: 0 <= i < |arr| ==> PointOf(arr[i], host) == Ok(Waypoints(arr, host).value[i])
    decreases |arr|
  {
    if arr != [] {
      var init := arr[..|arr| - 1];
      WaypointsInOrder(init, host);
      assert forall i :: 0 <= i < |init| ==> init[i] == arr[i];
    }
  }

  /** The last child with the given `as` attribute, if any. */
  predicate LastWithRole(pts: seq<MxPoint>, i: int, role: string) {
    0 <= i < |pts| && pts[i].role == role &&
    forall j :: i < j < |pts| ==> pts[j].role != role
  }

  /** Every `mxPoint` child is read, whatever its role; an explicit point is
      present exactly when some child carries its role, and then it is the
      last such child. */
  lemma EndsLastWins(pts: seq<MxPoint>, host: Host)
    ensures ExplicitEnds(pts, host).Ok? <==> PointsOk(pts, host)
    ensures ExplicitEnds(pts, host).Ok? ==>
              (ExplicitEnds(pts, host).value.source.None? <==>
                 forall i :: 0 <= i < |pts| ==> pts[i].role != "sourcePoint")
    ensures ExplicitEnds(pts, host).Ok? ==>
              (ExplicitEnds(pts, host).value.target.None? <==>
                 forall i :: 0 <= i < |pts| ==> pts[i].role != "targetPoint")
    ensures ExplicitEnds(pts, host).Ok? ==>
              forall i :: LastWithRole(pts, i, "sourcePoint") ==>
                ExplicitEnds(pts, host).value.source == Some(PointOf(pts[i], host).value)
    ensures ExplicitEnds(pts, host).Ok? ==>
              forall i :: LastWithRole(pts, i, "targetPoint") ==>
                ExplicitEnds(pts, host).value.target == Some(PointOf(pts[i], host).value)
  {
    EndsOk(pts, host);
    if ExplicitEnds(pts, host).Ok? {
      EndAbsent(pts, host, "sourcePoint");
      EndAbsent(pts, host, "targetPoint");
      forall i | LastWithRole(pts, i, "sourcePoint") {
        EndIsLast(pts, host, "sourcePoint", i);
      }
      forall i | LastWithRole(pts, i, "targetPoint") {
        EndIsLast(pts, host, "targetPoint", i);
      }
    }
  }

  /** Reading the explicit points fails exactly when some child cannot be read. */
  lemma {:induction false} EndsOk(pts: seq<MxPoint>, host: Host)
    ensures ExplicitEnds(pts, host).Ok? <==> PointsOk(pts, host)
    decreases |pts|
  {
    if pts != [] {
      var init := pts[..|pts| - 1];
      EndsOk(init, host);
      assert forall i :: 0 <= i < |init| ==> init[i] == pts[i];
    }
  }

  /** The explicit point with the given role. */
  function End(ends: Ends, role: string): Option<Point> {
    if role == "sourcePoint" then ends.source else ends.target
  }

  /** The explicit point of one role is absent exactly when no child has that role. */
  lemma {:induction false} EndAbsent(pts: seq<MxPoint>, host: Host, role: string)
    requires role == "sourcePoint" || role == "targetPoint"
    requires ExplicitEnds(pts, host).Ok? && PointsOk(pts, host)
    ensures End(ExplicitEnds(pts, host).value, role).None? <==> forall i :: 0 <= i < |pts| ==> pts[i].role != role
    decreases |pts|
  {
    if pts != [] {
      var init := pts[..|pts| - 1];
      EndOfLast(pts, host, role);
      RoleSnoc(pts, init, role);
      EndAbsent(init, host, role);
    }
  }

  /** The explicit point of one role is that of the last child with that role. */
  lemma {:induction false} EndIsLast(pts: seq<MxPoint>, host: Host, role: string, i: nat)
    requires role == "sourcePoint" || role == "targetPoint"
    requires ExplicitEnds(pts, host).Ok? && PointsOk(pts, host)
    requires LastWithRole(pts, i, role)
    ensures End(ExplicitEnds(pts, host).value, role) == Some(PointOf(pts[i], host).value)
    decreases |pts|
  {
    var n := |pts| - 1;
    var init := pts[..n];
    EndOfLast(pts, host, role);
    RoleSnoc(pts, init, role);
    if i < n {
      assert init[i] == pts[i];
      EndIsLast(init, host, role, i);
    }
  }

  /** The last child sets the point of its role and leaves the other alone. */
  lemma EndOfLast(pts: seq<MxPoint>, host: Host, role: string)
    requires role == "sourcePoint" || role == "targetPoint"
    requires pts != [] && ExplicitEnds(pts, host).Ok? && PointsOk(pts, host)
    ensures ExplicitEnds(pts[..|pts| - 1], host).Ok? && PointsOk(pts[..|pts| - 1], host)
    ensures PointOf(pts[|pts| - 1], host).Ok?
    ensures End(ExplicitEnds(pts, host).value, role) ==
              if pts[|pts| - 1].role == role then Some(PointOf(pts[|pts| - 1], host).value)
              else End(ExplicitEnds(pts[..|pts| - 1], host).value, role)
  {
    var init := pts[..|pts| - 1];
    assert forall i :: 0 <= i < |init| ==> init[i] == pts[i];
  }

  /** Which children carry a role, split at the last child. */
  lemma RoleSnoc(pts: seq<MxPoint>, init: seq<MxPoint>, role: string)
    requires pts != [] && init == pts[..|pts| - 1]
    ensures (forall i :: 0 <= i < |pts| ==> pts[i].role != role) <==>
              (forall i :: 0 <= i < |init| ==> init[i].role != role) && pts[|pts| - 1].role != role
    ensures forall i :: LastWithRole(pts, i, role) ==>
              if pts[|pts| - 1].role == role then i == |pts| - 1 else LastWithRole(init, i, role)
  {
    assert forall i :: 0 <= i < |init| ==> init[i] == pts[i];
  }

  /** The error a cell stops the extraction with, if any. */
  function CellError(c: Cell, host: Host): Option<Error>
  {
    var st := StyleOf(c.style);
    if MakesNode(c) then
      (match NodeOf(c, c.geometry.value, st, host) case Err(e) => Some(e) case Ok(_) => None)
    else if MakesEdge(c) then
      (match EdgeOf(c, st, host) case Err(e) => Some(e) case Ok(_) => None)
    else None
  }

  /** A step fails exactly when its cell does, with the cell's error. */
  lemma StepFails(graph: Graph, c: Cell, host: Host)
    ensures Step(graph, c, host).Ok? <==> CellError(c, host).None?
    ensures Step(graph, c, host).Err? ==> CellError(c, host) == Some(Step(graph, c, host).error)
  {
  }

  /** The extraction succeeds exactly when no cell fails, and otherwise stops
      with the error of the first cell that does. */
  lemma ExtractFailsAtFirst(cells: seq<Cell>, host: Host)
    ensures ExtractGraph(cells, host).Ok? <==>
              forall i :: 0 <= i < |cells| ==> CellError(cells[i], host).None?
    ensures ExtractGraph(cells, host).Err? ==>
              exists i :: 0 <= i < |cells| &&
                (forall j :: 0 <= j < i ==> CellError(cells[j], host).None?) &&
                CellError(cells[i], host) == Some(ExtractGraph(cells, host).error)
  {
    ExtractOk(cells, host);
    if ExtractGraph(cells, host).Err? {
      var i := FirstFailure(cells, host);
    }
  }

  /** The extraction succeeds exactly when no cell fails. */
  lemma {:induction false} ExtractOk(cells: seq<Cell>, host: Host)
    ensures ExtractGraph(cells, host).Ok? <==>
              forall i :: 0 <= i < |cells| ==> CellError(cells[i], host).None?
    decreases |cells|
  {
    if cells != [] {
      var n := |cells| - 1;
      var init := cells[..n];
      ExtractOk(init, host);
      ExtractLastOk(cells, host);
      AllSnoc(cells, init, c => CellError(c, host).None?);
    }
  }

  /** The extraction of a non-empty list succeeds exactly when that of all
      but the last cell does and the last cell does not fail. */
  lemma ExtractLastOk(cells: seq<Cell>, host: Host)
    requires cells != []
    ensures ExtractGraph(cells, host).Ok? <==>
              ExtractGraph(cells[..|cells| - 1], host).Ok? && CellError(cells[|cells| - 1], host).None?
  {
    var init := ExtractGraph(cells[..|cells| - 1], host);
    if init.Ok? {
      StepFails(init.value, cells[|cells| - 1], host);
    }
  }

  lemma AllSnoc(cells: seq<Cell>, init: seq<Cell>, ok: Cell -> bool)
    requires cells != [] && init == cells[..|cells| - 1]
    ensures (forall i :: 0 <= i < |cells| ==> ok(cells[i])) <==>
              (forall i :: 0 <= i < |init| ==> ok(init[i])) && ok(cells[|cells| - 1])
  {
    assert forall i :: 0 <= i < |init| ==> init[i] == cells[i];
  }

  /** A failed extraction stops at the first failing cell, with its error. */
  lemma {:induction false} FirstFailure(cells: seq<Cell>, host: Host) returns (i: nat)
    requires ExtractGraph(cells, host).Err?
    ensures i < |cells| && (forall j :: 0 <= j < i ==> CellError(cells[j], host).None?)
    ensures CellError(cells[i], host) == Some(ExtractGraph(cells, host).error)
    decreases |cells|
  {
    var n := |cells| - 1;
    var init := cells[..n];
    assert forall j :: 0 <= j < |init| ==> init[j] == cells[j];
    if ExtractGraph(init, host).Ok? {
      ExtractOk(init, host);
      StepFails(ExtractGraph(init, host).value, cells[n], host);
      i := n;
    } else {
      i := FirstFailure(init, host);
    }
  }

  /** Each step keeps `order` and the keys of `nodes` in step. */
  lemma StepValid(graph: Graph, c: Cell, host: Host)
    requires Valid(graph) && Step(graph, c, host).Ok?
    ensures Valid(Step(graph, c, host).value)
  {
    if MakesNode(c) {
      var next := Step(graph, c, host).value;
      if c.id !in graph.nodes {
        assert c.id !in graph.order;
        assert next.order == graph.order + [c.id];
      }
    }
  }

  /** Every extracted graph lists each node id exactly once in `order`. */
  lemma {:induction false} ExtractValid(cells: seq<Cell>, host: Host)
    requires ExtractGraph(cells, host).Ok?
    ensures Valid(ExtractGraph(cells, host).value)
    decreases |cells|
  {
    if cells != [] {
      var init := cells[..|cells| - 1];
      ExtractValid(init, host);
      StepValid(ExtractGraph(init, host).value, cells[|cells| - 1], host);
    }
  }

  /** The ids of the cells that make nodes, repeats included. */
  function NodeIds(cells: seq<Cell>): seq<string>
    decreases |cells|
  {
    if cells == [] then []
    else
      var c := cells[|cells| - 1];
      NodeIds(cells[..|cells| - 1]) + (if MakesNode(c) then [c.id] else [])
  }

  /** `s` without repeats, each element where it first occurs. */
  function Dedup(s: seq<string>): seq<string>
    decreases |s|
  {
    if s == [] then []
    else
      var d := Dedup(s[..|s| - 1]);
      if s[|s| - 1] in d then d else d + [s[|s| - 1]]
  }

  lemma {:induction false} DedupMembers(s: seq<string>)
    ensures forall x :: x in Dedup(s) <==> x in s
    ensures forall i, j :: 0 <= i < j < |Dedup(s)| ==> Dedup(s)[i] != Dedup(s)[j]
    decreases |s|
  {
    if s != [] {
      var init := s[..|s| - 1];
      DedupMembers(init);
      assert s == init + [s[|s| - 1]];
    }
  }

  lemma {:induction false} NodeIdsMembers(cells: seq<Cell>)
    ensures forall id :: id in NodeIds(cells) <==>
              exists i :: 0 <= i < |cells| && MakesNode(cells[i]) && cells[i].id == id
    decreases |cells|
  {
    if cells != [] {
      var init := cells[..|cells| - 1];
      NodeIdsMembers(init);
      assert forall i :: 0 <= i < |init| ==> init[i] == cells[i];
      forall id | exists i :: 0 <= i < |cells| && MakesNode(cells[i]) && cells[i].id == id
        ensures id in NodeIds(cells)
      {
        var i :| 0 <= i < |cells| && MakesNode(cells[i]) && cells[i].id == id;
        if i < |init| {
          assert init[i] == cells[i];
        }
      }
    }
  }

  /** The node dictionary keeps its keys in the order in which their first
      vertex cells come, without repeats. */
  lemma {:induction false} ExtractOrder(cells: seq<Cell>, host: Host)
    requires ExtractGraph(cells, host).Ok?
    ensures ExtractGraph(cells, host).value.order == Dedup(NodeIds(cells))
    decreases |cells|
  {
    if cells != [] {
      var init := cells[..|cells| - 1];
      var c := cells[|cells| - 1];
      ExtractOrder(init, host);
      ExtractValid(init, host);
      DedupMembers(NodeIds(init));
      var prev := ExtractGraph(init, host).value;
      assert ExtractGraph(cells, host) == Step(prev, c, host);
      if MakesNode(c) {
        var ids := NodeIds(cells);
        assert ids == NodeIds(init) + [c.id];
        assert ids[..|ids| - 1] == NodeIds(init);
        assert c.id in prev.nodes <==> c.id in Dedup(NodeIds(init));
      } else {
        assert NodeIds(cells) == NodeIds(init);
      }
    }
  }

  /** The keys of the node dictionary are exactly the ids of the vertex cells
      that have a geometry. */
  lemma ExtractKeys(cells: seq<Cell>, host: Host)
    requires ExtractGraph(cells, host).Ok?
    ensures forall id :: id in ExtractGraph(cells, host).value.nodes <==>
              exists i :: 0 <= i < |cells| && MakesNode(cells[i]) && cells[i].id == id
  {
    ExtractValid(cells, host);
    ExtractOrder(cells, host);
    NodeIdsMembers(cells);
    DedupMembers(NodeIds(cells));
  }

  /** Cell `i` makes a node and no later cell makes one with its id. */
  predicate LastNodeCell(cells: seq<Cell>, i: int) {
    0 <= i < |cells| && MakesNode(cells[i]) &&
    forall j :: i < j < |cells| && MakesNode(cells[j]) ==> cells[j].id != cells[i].id
  }

  /** A later vertex cell with the same id replaces the earlier node: each
      node is the one its last vertex cell makes. */
  lemma {:induction false} ExtractLastWins(cells: seq<Cell>, host: Host)
    requires ExtractGraph(cells, host).Ok?
    ensures forall i :: LastNodeCell(cells, i) ==>
              cells[i].id in ExtractGraph(cells, host).value.nodes &&
              NodeOf(cells[i], cells[i].geometry.value, StyleOf(cells[i].style), host) ==
                Ok(ExtractGraph(cells, host).value.nodes[cells[i].id])
    decreases |cells|
  {
    if cells != [] {
      var init := cells[..|cells| - 1];
      ExtractLastWins(init, host);
      assert forall i :: 0 <= i < |init| ==> init[i] == cells[i];
      forall i | LastNodeCell(cells, i) && i < |init|
        ensures LastNodeCell(init, i)
      {
      }
    }
  }

  /** The cells that make edges, in document order. */
  function EdgeCells(cells: seq<Cell>): seq<Cell>
    decreases |cells|
  {
    if cells == [] then []
    else
      var c := cells[|cells| - 1];
      EdgeCells(cells[..|cells| - 1]) + (if MakesEdge(c) then [c] else [])
  }

  /** The edge list holds one edge per edge cell, in document order. */
  lemma {:induction false} ExtractEdges(cells: seq<Cell>, host: Host)
    requires ExtractGraph(cells, host).Ok?
    ensures |ExtractGraph(cells, host).value.edges| == |EdgeCells(cells)|
    ensures forall k :: 0 <= k < |EdgeCells(cells)| ==>
              EdgeOf(EdgeCells(cells)[k], StyleOf(EdgeCells(cells)[k].style), host) ==
                Ok(ExtractGraph(cells, host).value.edges[k])
    decreases |cells|
  {
    if cells != [] {
      var init := cells[..|cells| - 1];
      ExtractEdges(init, host);
    }
  }
}
