/** Edge rendering (`_connection_point`, `_render_edge`): the route through
    the optional start point, the waypoints and the optional end point, drawn
    as an arrowed polyline with an optional label beside its middle segment. */
module Edges {
  import opened Wrappers
  import opened Diagram
  import opened Style
  import opened Markup

  /** `_connection_point`: the point at fractions (px, py) of the box's width
      and height. */
  function ConnectionPoint(b: Box, px: real, py: real): Point
  {
    Point(b.x + b.w * px, b.y + b.h * py)
  }

  lemma ScaleWithin(lo: real, w: real, p: real, v: real)
    requires w >= 0.0 && 0.0 <= p <= 1.0 && v == lo + w * p
    ensures lo <= v <= lo + w
  {
    assert 0.0 <= w * p;
    assert w - w * p == w * (1.0 - p);
    assert 0.0 <= w * (1.0 - p);
  }

  /** Fractions in [0, 1] give a point of the box (of a box whose sides are
      not negative). */
  lemma ConnectionPointInBox(b: Box, px: real, py: real)
    requires b.w >= 0.0 && b.h >= 0.0 && 0.0 <= px <= 1.0 && 0.0 <= py <= 1.0
    ensures InBox(ConnectionPoint(b, px, py), b)
  {
    var p := ConnectionPoint(b, px, py);
    ScaleWithin(b.x, b.w, px, p.x);
    ScaleWithin(b.y, b.h, py, p.y);
  }

  /** Fractions 0 and 1 reach the box's corners, and the defaults (0.5, 1) and
      (0.5, 0) the middles of its bottom and top sides. */
  lemma ConnectionPointCorners(b: Box)
    ensures ConnectionPoint(b, 0.0, 0.0) == Point(b.x, b.y)
    ensures ConnectionPoint(b, 1.0, 1.0) == Point(b.x + b.w, b.y + b.h)
    ensures ConnectionPoint(b, 0.5, 1.0) == Point(b.x + b.w / 2.0, b.y + b.h)
    ensures ConnectionPoint(b, 0.5, 0.0) == Point(b.x + b.w / 2.0, b.y)
  {
  }

  /** Where an edge leaves its source (`exitX`, `exitY`) and enters its target
      (`entryX`, `entryY`), as fractions of the node's box. */
  datatype Fractions = Fractions(exitX: real, exitY: real, entryX: real, entryY: real)

  /** The four fractions, each read through `float()`; by default an edge
      leaves from the middle of the bottom side and enters at the middle of
      the top side. */
  function EdgeFractions(st: StyleMap, host: Host): Result<Fractions, Error>
  {
    var exitX :- GetReal(st, "exitX", 0.5, host);
    var exitY :- GetReal(st, "exitY", 1.0, host);
    var entryX :- GetReal(st, "entryX", 0.5, host);
    var entryY :- GetReal(st, "entryY", 0.0, host);
    Ok(Fractions(exitX, exitY, entryX, entryY))
  }

  /** The endpoint id names a node: it is present, non-empty and a key of
      `nodes`. */
  predicate Attached(id: Option<string>, nodes: map<string, Node>) {
    id.Some? && id.value != [] && id.value in nodes
  }

  /** An end of the route: the connection point of the attached node, or else
      the explicit point, if any. */
  function Endpoint(id: Option<string>, nodes: map<string, Node>, px: real, py: real, explicit: Option<Point>): Option<Point>
  {
    if Attached(id, nodes) then Some(ConnectionPoint(nodes[id.value].box, px, py)) else explicit
  }

  function Start(e: Edge, nodes: map<string, Node>, f: Fractions): Option<Point>
  {
    Endpoint(e.source, nodes, f.exitX, f.exitY, e.sourcePoint)
  }

  function End(e: Edge, nodes: map<string, Node>, f: Fractions): Option<Point>
  {
    Endpoint(e.target, nodes, f.entryX, f.entryY, e.targetPoint)
  }

  /** The points the polyline goes through: the start, if any, then every
      waypoint in order, then the end, if any. */
  function Route(e: Edge, nodes: map<string, Node>, f: Fractions): (ps: seq<Point>)
    ensures |ps| == |OptionToSeq(Start(e, nodes, f))| + |e.waypoints| + |OptionToSeq(End(e, nodes, f))|
  {
    OptionToSeq(Start(e, nodes, f)) + e.waypoints + OptionToSeq(End(e, nodes, f))
  }

  /** The points list of `_render_edge`, built point by point. */
  method RoutePoints(e: Edge, nodes: map<string, Node>, f: Fractions) returns (points: seq<Point>)
    ensures points == Route(e, nodes, f)
  {
    points := AppendEndpoint([], e.source, nodes, f.exitX, f.exitY, e.sourcePoint);
    points := AppendWaypoints(points, e.waypoints);
    points := AppendEndpoint(points, e.target, nodes, f.entryX, f.entryY, e.targetPoint);
  }

  /** The waypoints are appended one by one, in order. */
  method AppendWaypoints(points: seq<Point>, waypoints: seq<Point>) returns (r: seq<Point>)
    ensures r == points + waypoints
  {
    r := points;
    for i := 0 to |waypoints|
      invariant r == points + waypoints[..i]
    {
      r := r + [waypoints[i]];
      assert waypoints[..i + 1] == waypoints[..i] + [waypoints[i]];
    }
    assert waypoints[..|waypoints|] == waypoints;
  }

  /** One end of the route is appended: the attached node's connection
      point, else the explicit point, else nothing. */
  method AppendEndpoint(points: seq<Point>, id: Option<string>, nodes: map<string, Node>, px: real, py: real, explicit: Option<Point>)
    returns (r: seq<Point>)
    ensures r == points + OptionToSeq(Endpoint(id, nodes, px, py, explicit))
  {
    r := points;
    if id.Some? && id.value != [] && id.value in nodes {
      r := r + [ConnectionPoint(nodes[id.value].box, px, py)];
    } else if explicit.Some? {
      r := r + [explicit.value];
    }
  }

  /** The label's displacement from the segment from `a` to `b`: 10 units
      along (-dy, dx) divided by the host's `hypot` of the segment, with a
      zero length read as 1. */
  function Offset(a: Point, b: Point, host: Host): Point
  {
    var dx := b.x - a.x;
    var dy := b.y - a.y;
    var h := host.hypot(dx, dy);
    var len := if h == 0.0 then 1.0 else h;
    Point(-dy / len * 10.0, dx / len * 10.0)
  }

  /** Where the label goes: the midpoint of the segment that ends at point
      `|points| / 2`, moved by the offset. */
  function LabelAnchor(points: seq<Point>, host: Host): Point
    requires |points| >= 2
  {
    var m := |points| / 2;
    var a := points[m - 1];
    var b := points[m];
    var off := Offset(a, b, host);
    Point((a.x + b.x) / 2.0 + off.x, (a.y + b.y) / 2.0 + off.y)
  }

  /** The label's white background, `len(label) * 7 + 6` wide and 16 high,
      centred on the anchor, then the label itself in bold 11. */
  function EdgeLabel(text: string, anchor: Point, host: Host): seq<Element>
  {
    var tw := (|text| * 7 + 6) as real;
    [LabelBackground(anchor.x - tw / 2.0, anchor.y - 8.0, tw, 16.0)] +
    TextElements(anchor.x, anchor.y, text, 11.0, true, host)
  }

  /** What `_render_edge` draws: nothing when the route has fewer than two
      points, else the polyline, then the label when the edge has one. The
      fractions are read first, the stroke width only for a drawn edge. */
  function EdgeElements(e: Edge, nodes: map<string, Node>, host: Host): Result<seq<Element>, Error>
  {
    match EdgeFractions(e.style, host)
    case Err(err) => Err(err)
    case Ok(f) =>
      var points := Route(e, nodes, f);
      if |points| < 2 then Ok([])
      else
        match GetReal(e.style, "strokeWidth", 2.0, host)
        case Err(err) => Err(err)
        case Ok(sw) =>
          var line := [SvgPolyline(points, Get(e.style, "strokeColor", "#000000"), sw)];
          if e.text == [] then Ok(line)
          else Ok(line + EdgeLabel(e.text, LabelAnchor(points, host), host))
  }

  /** The label part of `_render_edge`: the midpoint of the segment ending
      at point `|points| / 2`, pushed off the line, gets a background and the
      text. */
  method PlaceLabel(points: seq<Point>, text: string, host: Host) returns (parts: seq<Element>)
    requires |points| >= 2
    ensures parts == EdgeLabel(text, LabelAnchor(points, host), host)
  {
    var anchor := LabelPoint(points, host);
    parts := DrawLabel(text, anchor, host);
  }

  /** The label position of `_render_edge`, computed step by step. */
  method LabelPoint(points: seq<Point>, host: Host) returns (anchor: Point)
    requires |points| >= 2
    ensures anchor == LabelAnchor(points, host)
  {
    var mid := |points| / 2;
    var mx := (points[mid - 1].x + points[mid].x) / 2.0;
    var my := (points[mid - 1].y + points[mid].y) / 2.0;
    var dx := points[mid].x - points[mid - 1].x;
    var dy := points[mid].y - points[mid - 1].y;
    var length := host.hypot(dx, dy);
    if length == 0.0 {
      length := 1.0;
    }
    var ox := -dy / length * 10.0;
    var oy := dx / length * 10.0;
    assert Offset(points[mid - 1], points[mid], host) == Point(ox, oy);
    anchor := Point(mx + ox, my + oy);
  }

  /** The label's background, then its text, at the anchor. */
  method DrawLabel(text: string, anchor: Point, host: Host) returns (parts: seq<Element>)
    ensures parts == EdgeLabel(text, anchor, host)
  {
    var tw := (|text| * 7 + 6) as real;
    var background := LabelBackground(anchor.x - tw / 2.0, anchor.y - 8.0, tw, 16.0);
    var t := TextSvg(anchor.x, anchor.y, text, 11.0, true, host);
    parts := [background] + t;
  }

  /** `_render_edge`. */
  method RenderEdge(e: Edge, nodes: map<string, Node>, host: Host) returns (r: Result<seq<Element>, Error>)
    ensures r == EdgeElements(e, nodes, host)
  {
    var fr := EdgeFractions(e.style, host);
    if fr.Err? {
      return Err(fr.error);
    }
    var points := RoutePoints(e, nodes, fr.value);
    if |points| < 2 {
      return Ok([]);
    }
    var stroke := Get(e.style, "strokeColor", "#000000");
    var width := GetReal(e.style, "strokeWidth", 2.0, host);
    if width.Err? {
      return Err(width.error);
    }
    var parts := [SvgPolyline(points, stroke, width.value)];
    if e.text != [] {
      var labelParts := PlaceLabel(points, e.text, host);
      parts := parts + labelParts;
    }
    return Ok(parts);
  }

  /** An edge fails exactly when one of its four fractions is rejected by
      `float()`, or when it is drawn and its stroke width is rejected. An edge
      whose route has fewer than two points draws nothing, whatever its stroke
      width. */
  lemma EdgeFails(e: Edge, nodes: map<string, Node>, host: Host)
    ensures var f := EdgeFractions(e.style, host);
            EdgeElements(e, nodes, host).Err? <==>
              f.Err? || (|Route(e, nodes, f.value)| >= 2 && GetReal(e.style, "strokeWidth", 2.0, host).Err?)
    ensures var f := EdgeFractions(e.style, host);
            f.Ok? && |Route(e, nodes, f.value)| < 2 ==> EdgeElements(e, nodes, host) == Ok([])
  {
  }

  /** The route's ends: a source that names a node gives that node's
      connection point at the exit fractions, else the explicit source point
      (if any) is used; likewise at the target with the entry fractions; the
      waypoints lie in between, in order. */
  lemma RouteEnds(e: Edge, nodes: map<string, Node>, f: Fractions)
    ensures var ps := Route(e, nodes, f);
            var k := |OptionToSeq(Start(e, nodes, f))|;
            && ps[k..k + |e.waypoints|] == e.waypoints
            && (Attached(e.source, nodes) ==>
                  k == 1 && ps[0] == ConnectionPoint(nodes[e.source.value].box, f.exitX, f.exitY))
            && (!Attached(e.source, nodes) ==>
                  (k == 1 <==> e.sourcePoint.Some?) && (k == 1 ==> ps[0] == e.sourcePoint.value))
            && (Attached(e.target, nodes) ==>
                  ps[|ps| - 1] == ConnectionPoint(nodes[e.target.value].box, f.entryX, f.entryY))
            && (!Attached(e.target, nodes) && e.targetPoint.Some? ==> ps[|ps| - 1] == e.targetPoint.value)
            && (!Attached(e.target, nodes) && e.targetPoint.None? ==> |ps| == k + |e.waypoints|)
  {
    var a := OptionToSeq(Start(e, nodes, f));
    var ps := Route(e, nodes, f);
    assert ps == a + e.waypoints + OptionToSeq(End(e, nodes, f));
    assert ps[|a|..|a| + |e.waypoints|] == e.waypoints;
  }

  /** The label is pushed off its segment at a right angle. */
  lemma OffsetPerpendicular(a: Point, b: Point, host: Host)
    ensures var off := Offset(a, b, host);
            off.x * (b.x - a.x) + off.y * (b.y - a.y) == 0.0
  {
    var dx := b.x - a.x;
    var dy := b.y - a.y;
    var h := host.hypot(dx, dy);
    var len := if h == 0.0 then 1.0 else h;
    var off := Offset(a, b, host);
    var q := 10.0 / len;
    assert off.x == -dy * q && off.y == dx * q;
    assert off.x * dx + off.y * dy == q * (dx * dy - dx * dy);
  }

  /** When the host's `hypot` is the true length of a segment of non-zero
      length (positive, squaring to dx^2 + dy^2), the label sits 10 units
      from the segment. */
  lemma OffsetLength(a: Point, b: Point, host: Host)
    requires var dx := b.x - a.x;
             var dy := b.y - a.y;
             var h := host.hypot(dx, dy);
             h > 0.0 && h * h == dx * dx + dy * dy
    ensures var off := Offset(a, b, host);
            off.x * off.x + off.y * off.y == 100.0
  {
    var dx := b.x - a.x;
    var dy := b.y - a.y;
    var h := host.hypot(dx, dy);
    var q := 10.0 / h;
    var off := Offset(a, b, host);
    assert off.x == -dy * q && off.y == dx * q;
    assert off.x * off.x + off.y * off.y == q * q * (dx * dx + dy * dy);
    assert q * h == 10.0;
    assert q * q * (h * h) == (q * h) * (q * h);
  }

  /** A drawn edge is the polyline through its route, in its stroke colour
      and width; a labelled one adds a background `len(label) * 7 + 6` by 16
      centred on the label point, then the label in bold 11 at that point.
      The label point is found on the segment ending at point `n / 2`, which
      always exists. */
  lemma EdgeDrawn(e: Edge, nodes: map<string, Node>, host: Host)
    requires EdgeElements(e, nodes, host).Ok? && EdgeElements(e, nodes, host).value != []
    ensures var f := EdgeFractions(e.style, host).value;
            var ps := Route(e, nodes, f);
            var parts := EdgeElements(e, nodes, host).value;
            && |ps| >= 2 && 1 <= |ps| / 2 < |ps|
            && parts[0] == SvgPolyline(ps, Get(e.style, "strokeColor", "#000000"),
                                       GetReal(e.style, "strokeWidth", 2.0, host).value)
            && (e.text == [] ==> |parts| == 1)
            && (e.text != [] ==>
                  var p := LabelAnchor(ps, host);
                  && |parts| >= 2
                  && parts[1].LabelBackground?
                  && parts[1].w == (|e.text| * 7 + 6) as real && parts[1].h == 16.0
                  && parts[1].x + parts[1].w / 2.0 == p.x && parts[1].y + parts[1].h / 2.0 == p.y
                  && parts[2..] == TextElements(p.x, p.y, e.text, 11.0, true, host))
  {
    var f := EdgeFractions(e.style, host).value;
    var ps := Route(e, nodes, f);
    var line := [SvgPolyline(ps, Get(e.style, "strokeColor", "#000000"),
                             GetReal(e.style, "strokeWidth", 2.0, host).value)];
    if e.text != [] {
      LabelAfterLine(line, e.text, LabelAnchor(ps, host), host);
    }
  }

  /** The label drawn after the polyline: a background centred on the
      anchor, then the text. */
  lemma LabelAfterLine(line: seq<Element>, text: string, p: Point, host: Host)
    requires |line| == 1
    ensures var parts := line + EdgeLabel(text, p, host);
            && |parts| >= 2 && parts[0] == line[0]
            && parts[1].LabelBackground?
            && parts[1].w == (|text| * 7 + 6) as real && parts[1].h == 16.0
            && parts[1].x + parts[1].w / 2.0 == p.x && parts[1].y + parts[1].h / 2.0 == p.y
            && parts[2..] == TextElements(p.x, p.y, text, 11.0, true, host)
  {
    var parts := line + EdgeLabel(text, p, host);
    assert parts[2..] == EdgeLabel(text, p, host)[1..];
  }
}
