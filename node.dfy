/** Node rendering (`_render_node` and the shape primitives it calls): the
    outline for the node's kind, then its label centred in the box. */
module Nodes {
  import opened Wrappers
  import opened Diagram
  import opened Style
  import opened Markup
  import opened Strings

  function Min(a: real, b: real): real { if a <= b then a else b }
  function Max(a: real, b: real): real { if a >= b then a else b }

  /** The label font size: `min(12, 0.35h, 0.12w)`, but never below 9. */
  function NodeFontSize(w: real, h: real): (fs: real)
    ensures 9.0 <= fs <= 12.0
    ensures fs == 12.0 <==> h * 0.35 >= 12.0 && w * 0.12 >= 12.0
    ensures fs > 9.0 ==> fs <= h * 0.35 && fs <= w * 0.12
    ensures fs == 12.0 || fs >= h * 0.35 || fs >= w * 0.12
  {
    Max(9.0, Min(Min(12.0, h * 0.35), w * 0.12))
  }

  /** `_diamond_svg`'s vertices: top, right, bottom and left of the diamond
      centred at (cx, cy). */
  function DiamondPoints(cx: real, cy: real, w: real, h: real): seq<Point>
  {
    var hw, hh := w / 2.0, h / 2.0;
    [Point(cx, cy - hh), Point(cx + hw, cy), Point(cx, cy + hh), Point(cx - hw, cy)]
  }

  /** The horizontal skew of a parallelogram. */
  function Skew(w: real, h: real): (k: real)
    ensures k <= h * 0.4 && k <= w * 0.15
    ensures k == h * 0.4 || k == w * 0.15
  {
    Min(h * 0.4, w * 0.15)
  }

  /** `_parallelogram_svg`'s vertices: the top edge shifted right by the skew,
      the bottom edge shifted left by it. */
  function ParallelogramPoints(x: real, y: real, w: real, h: real): seq<Point>
  {
    var k := Skew(w, h);
    [Point(x + k, y), Point(x + w, y), Point(x + w - k, y + h), Point(x, y + h)]
  }

  /** The outline `_render_node` draws for a node of kind `kind` in box `b`. */
  function Outline(kind: ShapeKind, b: Box, paint: Paint): Element
  {
    match kind
    case Terminal => SvgRect(b.x, b.y, b.w, b.h, b.h / 2.0, b.h / 2.0, paint)
    case Diamond => SvgPolygon(DiamondPoints(b.x + b.w / 2.0, b.y + b.h / 2.0, b.w, b.h), paint)
    case Parallelogram => SvgPolygon(ParallelogramPoints(b.x, b.y, b.w, b.h), paint)
    case Ellipse => SvgEllipse(b.x + b.w / 2.0, b.y + b.h / 2.0, b.w / 2.0, b.h / 2.0, paint)
    case RoundedRect => SvgRect(b.x, b.y, b.w, b.h, 6.0, 6.0, paint)
    case Rectangle => SvgRect(b.x, b.y, b.w, b.h, 0.0, 0.0, paint)
  }

  /** The node's fill, stroke and stroke width; the width goes through
      `float()` and may fail. */
  function NodePaint(st: StyleMap, host: Host): Result<Paint, Error>
  {
    var sw :- GetReal(st, "strokeWidth", 2.0, host);
    Ok(Paint(Get(st, "fillColor", "#ffffff"), Get(st, "strokeColor", "#000000"), sw))
  }

  /** The centre of a box, where a node's label goes. */
  function Centre(b: Box): Point {
    Point(b.x + b.w / 2.0, b.y + b.h / 2.0)
  }

  /** What `_render_node` draws: the outline, then (when the node has a label)
      the label centred in the box in the node font size. */
  function NodeElements(node: Node, host: Host): Result<seq<Element>, Error>
  {
    match NodePaint(node.style, host)
    case Err(e) => Err(e)
    case Ok(paint) =>
      var b := node.box;
      var outline := [Outline(node.kind, b, paint)];
      if node.text == [] then Ok(outline)
      else Ok(outline + TextElements(Centre(b).x, Centre(b).y, node.text, NodeFontSize(b.w, b.h), false, host))
  }

  /** `NodeElements` once the paint is known. */
  lemma NodeElementsOfPaint(node: Node, host: Host, paint: Paint)
    requires NodePaint(node.style, host) == Ok(paint)
    ensures node.text == [] ==> NodeElements(node, host) == Ok([Outline(node.kind, node.box, paint)])
    ensures node.text != [] ==>
              NodeElements(node, host) ==
              Ok([Outline(node.kind, node.box, paint)] +
                 TextElements(Centre(node.box).x, Centre(node.box).y, node.text,
                              NodeFontSize(node.box.w, node.box.h), false, host))
  {
  }

  /** `_render_node`: collects the node's parts in order. */
  method RenderNode(node: Node, host: Host) returns (r: Result<seq<Element>, Error>)
    ensures r == NodeElements(node, host)
  {
    var fill := Get(node.style, "fillColor", "#ffffff");
    var stroke := Get(node.style, "strokeColor", "#000000");
    var width := GetReal(node.style, "strokeWidth", 2.0, host);
    if width.Err? {
      assert NodePaint(node.style, host) == Err(width.error);
      return Err(width.error);
    }
    var paint := Paint(fill, stroke, width.value);
    var b := node.box;
    assert NodePaint(node.style, host) == Ok(paint);
    NodeElementsOfPaint(node, host, paint);
    var parts: seq<Element> := [Outline(node.kind, b, paint)];
    if node.text != [] {
      var c := Centre(b);
      var fs := NodeFontSize(b.w, b.h);
      var text := TextSvg(c.x, c.y, node.text, fs, false, host);
      parts := parts + text;
    }
    return Ok(parts);
  }

  /** The diamond drawn for a box has the midpoints of the box's four sides
      as its vertices, which lie in the box when its sides are not negative. */
  lemma DiamondTouchesSides(b: Box)
    ensures DiamondPoints(b.x + b.w / 2.0, b.y + b.h / 2.0, b.w, b.h) ==
            [Point(b.x + b.w / 2.0, b.y), Point(b.x + b.w, b.y + b.h / 2.0),
             Point(b.x + b.w / 2.0, b.y + b.h), Point(b.x, b.y + b.h / 2.0)]
    ensures b.w >= 0.0 && b.h >= 0.0 ==>
            forall p :: p in DiamondPoints(b.x + b.w / 2.0, b.y + b.h / 2.0, b.w, b.h) ==> InBox(p, b)
  {
  }

  /** For a box with sides not negative the skew is not negative, the four
      vertices lie in the box, and they form a parallelogram: its diagonals
      share their midpoint, and its top and bottom edges are equally long. */
  lemma ParallelogramInBox(x: real, y: real, w: real, h: real)
    requires w >= 0.0 && h >= 0.0
    ensures 0.0 <= Skew(w, h) <= w
    ensures var ps := ParallelogramPoints(x, y, w, h);
            && (forall p :: p in ps ==> InBox(p, Box(x, y, w, h)))
            && ps[0].x + ps[2].x == ps[1].x + ps[3].x
            && ps[0].y + ps[2].y == ps[1].y + ps[3].y
            && ps[1].x - ps[0].x == ps[2].x - ps[3].x
  {
  }

  /** The outline of each kind, read back: corner radius h/2 for a terminal,
      6 for a rounded rectangle and 0 for a rectangle, all on the node's box;
      an ellipse centred on the box with radii w/2 and h/2; a polygon for a
      diamond or a parallelogram. */
  lemma OutlineShapes(kind: ShapeKind, b: Box, paint: Paint)
    ensures var e := Outline(kind, b, paint);
            && (e.SvgRect? <==> kind in {Terminal, RoundedRect, Rectangle})
            && (e.SvgRect? ==> e.x == b.x && e.y == b.y && e.w == b.w && e.h == b.h && e.rx == e.ry)
            && (kind == Terminal ==> e.rx == b.h / 2.0)
            && (kind == RoundedRect ==> e.rx == 6.0)
            && (kind == Rectangle ==> e.rx == 0.0)
            && (e.SvgEllipse? <==> kind == Ellipse)
            && (e.SvgEllipse? && b.w >= 0.0 && b.h >= 0.0 ==> InBox(Point(e.cx, e.cy), b))
            && (e.SvgEllipse? ==> e.cx - e.rx == b.x && e.cx + e.rx == b.x + b.w &&
                                  e.cy - e.ry == b.y && e.cy + e.ry == b.y + b.h)
            && (e.SvgPolygon? <==> kind in {Diamond, Parallelogram})
            && e.paint == paint
  {
  }

  /** A node's drawing fails exactly when its `strokeWidth` is present and
      `float()` rejects it. */
  lemma NodeFails(node: Node, host: Host)
    ensures NodeElements(node, host).Err? <==>
            "strokeWidth" in node.style && host.toFloat(node.style["strokeWidth"]).None?
  {
    assert NodeElements(node, host).Err? <==> NodePaint(node.style, host).Err?;
  }

  /** A drawn node is its outline alone when it has no label, and the outline
      followed by the label's elements, centred in the box, when it has one. */
  lemma NodeParts(node: Node, host: Host)
    requires NodeElements(node, host).Ok?
    ensures |NodeElements(node, host).value| >= 1
    ensures NodeElements(node, host).value[0] == Outline(node.kind, node.box, NodePaint(node.style, host).value)
    ensures node.text == [] ==> |NodeElements(node, host).value| == 1
    ensures node.text != [] ==>
              NodeElements(node, host).value[1..] ==
              TextElements(Centre(node.box).x, Centre(node.box).y,
                           node.text, NodeFontSize(node.box.w, node.box.h), false, host)
  {
  }

  /** A node's label is drawn at the centre of its box in a font size between
      9 and 12: a single line at the centre point, several lines centred
      horizontally with their first and last baselines symmetric about the
      centre. */
  lemma NodeLabelCentred(node: Node, host: Host)
    requires NodeElements(node, host).Ok? && |NodeElements(node, host).value| > 1
    ensures var e := NodeElements(node, host).value[1];
            var b := node.box;
            && |NodeElements(node, host).value| == 2
            && 9.0 <= e.fontSize <= 12.0
            && !e.bold
            && (e.SvgText? ==> e.x == b.x + b.w / 2.0 && e.y == b.y + b.h / 2.0)
            && (e.SvgTextBlock? ==>
                  && e.x == b.x + b.w / 2.0
                  && e.spans[0].y + e.spans[|e.spans| - 1].y == 2.0 * (b.y + b.h / 2.0))
  {
    NodeParts(node, host);
    var b := node.box;
    var parts := NodeElements(node, host).value;
    var c, fs := Centre(b), NodeFontSize(b.w, b.h);
    assert node.text != [];
    LabelFirst(parts, c.x, c.y, CleanLabel(node.text, host), fs, false);
  }
}
