/** The entities of the draw.io (mxGraph) to SVG converter: the parsed cells it
    reads, the nodes and edges it extracts from them, and the SVG elements it
    emits, kept as structured values instead of formatted text. */
module Diagram {
  import opened Wrappers

  /** A parsed style string: attribute name to attribute text. */
  type StyleMap = map<string, string>

  /** The six canonical shape kinds a vertex is drawn as. */
  datatype ShapeKind = Parallelogram | Diamond | Ellipse | Terminal | RoundedRect | Rectangle

  /** What Python raises on the way: `int()` (arcSize) or `float()` (numeric
      style values) given text it cannot read. */
  datatype Error = BadInt(text: string) | BadFloat(text: string)

  datatype Point = Point(x: real, y: real)

  /** A node's bounding box: top-left corner, width and height. */
  datatype Box = Box(x: real, y: real, w: real, h: real)

  /** Library calls the converter makes and the model does not interpret:
      Python's `float(text)` (None where it raises `ValueError`), `math.hypot`
      and `html.unescape`. */
  datatype Host = Host(toFloat: string -> Option<real>,
                       hypot: (real, real) -> real,
                       unescape: string -> string)

  // ---- input: mxCell elements, already read out of the XML tree ----

  /** An `mxPoint` element: its `as` attribute ("" when absent) and the text
      of its coordinate attributes (None when absent). */
  datatype MxPoint = MxPoint(role: string, x: Option<string>, y: Option<string>)

  /** An `mxGeometry` element: the text of its coordinate attributes (None
      when absent), the `mxPoint` children of its first `Array` child (None
      when it has no `Array` child), and its own direct `mxPoint` children in
      document order. */
  datatype Geometry = Geometry(x: Option<string>, y: Option<string>,
                               width: Option<string>, height: Option<string>,
                               route: Option<seq<MxPoint>>,
                               points: seq<MxPoint>)

  /** An `mxCell` element. `id`, `style` and `value` read as "" when absent,
      as `cell.get(name, "")` does; the others are None when absent. */
  datatype Cell = Cell(id: string, style: string, value: string,
                       vertex: Option<string>, edge: Option<string>,
                       source: Option<string>, target: Option<string>,
                       geometry: Option<Geometry>)

  // ---- extracted graph ----

  datatype Node = Node(box: Box, text: string, kind: ShapeKind, style: StyleMap)

  datatype Edge = Edge(source: Option<string>, target: Option<string>,
                       text: string, style: StyleMap,
                       waypoints: seq<Point>,
                       sourcePoint: Option<Point>, targetPoint: Option<Point>)

  /** The `nodes` dictionary (its keys in insertion order in `order`) and the
      `edges` list. */
  datatype Graph = Graph(order: seq<string>, nodes: map<string, Node>, edges: seq<Edge>)

  /** `order` lists every key of `nodes` exactly once, as a Python dict keeps them. */
  predicate Valid(g: Graph) {
    && (forall i, j :: 0 <= i < j < |g.order| ==> g.order[i] != g.order[j])
    && (forall id :: id in g.order ==> id in g.nodes)
    && (forall id :: id in g.nodes ==> id in g.order)
  }

  // ---- output ----

  /** Fill colour, stroke colour and stroke width of a node outline. */
  datatype Paint = Paint(fill: string, stroke: string, strokeWidth: real)

  /** One `tspan` line of a multi-line label. */
  datatype Span = Span(y: real, content: string)

  /** One SVG element. Text content is stored already XML-escaped. */
  datatype Element =
    | ArrowMarker                                     // the `defs` arrowhead marker
    | SvgRect(x: real, y: real, w: real, h: real, rx: real, ry: real, paint: Paint)
    | LabelBackground(x: real, y: real, w: real, h: real)   // white, rx=ry=2, no stroke
    | SvgPolygon(points: seq<Point>, paint: Paint)
    | SvgEllipse(cx: real, cy: real, rx: real, ry: real, paint: Paint)
    | SvgPolyline(points: seq<Point>, stroke: string, strokeWidth: real)  // arrowhead at the end
    | SvgText(x: real, y: real, content: string, fontSize: real, bold: bool)
    | SvgTextBlock(x: real, spans: seq<Span>, fontSize: real, bold: bool)

  /** The SVG document: the fixed 100x100 empty document, or a viewBox with its
      parts (the marker definition, then one group per edge, then one per node). */
  datatype Document =
    | EmptyDocument
    | Document(minX: real, minY: real, width: real, height: real, parts: seq<seq<Element>>)

  predicate InBox(p: Point, b: Box) {
    b.x <= p.x <= b.x + b.w && b.y <= p.y <= b.y + b.h
  }
}
