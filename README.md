# draw.io diagrams to SVG, and notebook repair — a Dafny model

This project models two pieces of the documentation tooling of the repository:

- **The mxGraph (draw.io) to SVG converter** in `utils/drawio_to_svg.py`. It
  parses the `style` string of each `mxCell` into a key/value map. It
  classifies each vertex as one of six shapes: parallelogram, diamond,
  ellipse, terminal, rounded rectangle or rectangle. It extracts the node
  dictionary and the edge list from the cells. It computes the padded
  bounding box of every coordinate. It then draws the document: the arrowhead
  marker first, then every edge as a polyline with an optional label on a
  white background, then every node as its outline with a centred label.
  Label text has its HTML tags stripped, its entities unescaped, its
  surrounding whitespace trimmed, and its special characters XML-escaped.
- **`_repair_minimal`** in `utils/ipynb_to_md.py`, the best-effort repair of a
  loosely shaped notebook JSON payload. It wraps a bare list of cells, fills in
  the four top-level keys, flattens list-wrapped cells, promotes string cells
  to markdown cells, drops anything else, and normalises each cell's
  `metadata`, `source`, `cell_type`, `outputs` and `execution_count`.

Modules, one per concern of the source:

| file | module | models |
|---|---|---|
| `wrappers.dfy` | `Wrappers` | `Option`, `Result` |
| `strings.dfy` | `Strings` | the Python `str` operations used: `strip`, `split`, `in`, and `int()` in base 10 |
| `diagram.dfy` | `Diagram` | the cells read from the XML, the extracted graph, and the SVG elements as values |
| `style.dfy` | `Style` | `_parse_style` |
| `shape.dfy` | `Shape` | `_classify_shape` |
| `text.dfy` | `Markup` | `_text_svg` and `_escape_xml` |
| `node.dfy` | `Nodes` | `_render_node` and the shape primitives |
| `edge.dfy` | `Edges` | `_connection_point` and `_render_edge` |
| `extract.dfy` | `Extraction` | the cell loop of `mxgraph_xml_to_svg` |
| `convert.dfy` | `Convert` | the bounding box and the assembly of `mxgraph_xml_to_svg` |
| `notebook.dfy` | `Notebook` | `_repair_minimal` |

The converter's loops and `_repair_minimal` are written as methods with
loops, such as `Style.ParseStyle`, `Extraction.ExtractCells`,
`Convert.CollectCoordinates` and `Notebook.RepairMinimal`. Each is proved
equal to a specification function. The lemmas beside each function state
what the source promises about it.

Where Python raises an exception, the model returns `Err`:

- `int()` on an unreadable `arcSize` gives `BadInt`.
- `float()` on an unreadable coordinate, fraction or stroke width gives
  `BadFloat`.
- Iterating a non-iterable `cells` gives `NotIterable`.
- `"".join` of a `source` list holding a non-string gives `JoinTypeError`.

The first error ends the conversion, as the exception does.

Library calls the model does not interpret are parameters, bundled in
`Diagram.Host`:

- `float(text)`;
- `math.hypot`;
- `html.unescape`.

`int()` (utils/drawio_to_svg.py:66) and `float()` raise on a non-numeric
value, and the model returns `Err` there (`Shape.BadArcSize`,
`Nodes.NodeFails`, `Edges.EdgeFails`, `Extraction.ExtractFailsAtFirst`). A
missing attribute falls back to its default, and an empty `arcSize` counts
as 0.

## Model

| member | source | states |
|---|---|---|
| Strings.Strip | utils/drawio_to_svg.py:39 | `strip()` leaves no whitespace at either end; it is empty exactly when the text is all whitespace; otherwise it is the slice between the first and the last non-whitespace character |
| Strings.StripUnique | utils/drawio_to_svg.py:39 | any slice framed by whitespace, with no whitespace at its own ends, is the `strip()` of the text |
| Strings.Split | utils/drawio_to_svg.py:38 | `split(sep)` gives at least one piece; no piece holds the separator; joining the pieces with the separator gives the text back |
| Strings.SplitJoin | utils/drawio_to_svg.py:38 | splitting a join of separator-free pieces gives the pieces back |
| Strings.SplitSingle | utils/drawio_to_svg.py:172-173 | the text splits into one piece exactly when it holds no separator |
| Strings.ParseIntOfNatToString | utils/drawio_to_svg.py:66 | `int()` reads back the decimal spelling of any integer, for either sign |
| Strings.ParseIntOfDigits | utils/drawio_to_svg.py:66 | `int()` of a digit string, with or without a leading minus, is its base-10 value |
| Strings.GroupChars | utils/drawio_to_svg.py:66 | a digit group `int()` accepts holds only digits and underscores and ends in a digit |
| Strings.GroupSingleUnderscores | utils/drawio_to_svg.py:66 | a digit group `int()` accepts never holds two underscores in a row |
| Style.ParseStyle | utils/drawio_to_svg.py:33-46 | the segment loop computes exactly the map the specification function gives for the style text |
| Style.EntryBlank | utils/drawio_to_svg.py:39-45 | a segment adds nothing exactly when it is whitespace only |
| Style.EntryKeyValue | utils/drawio_to_svg.py:40-42 | a segment `k=v` whose key has no `=` maps the stripped key to the stripped value; the split is at the first `=` |
| Style.FoldSegmentsKeys | utils/drawio_to_svg.py:38-45 | the keys of the map are exactly the keys that some segment writes |
| Style.FoldSegmentsLastWins | utils/drawio_to_svg.py:38-45 | each key holds the value of the last segment that writes it |
| Style.ParseFormat | utils/drawio_to_svg.py:33-46 | parsing `k1=v1;k2=v2;…` for writable entries gives the map of those entries, later ones winning (round trip) |
| Style.FlagExample | utils/drawio_to_svg.py:43-45 | a bare token such as `rhombus` maps to "1" |
| Style.PairExample | utils/drawio_to_svg.py:33-46 | `a=1;b=2` parses to the two-key map |
| Shape.Classify | utils/drawio_to_svg.py:54-71 | a result is the kind whose rule matches while no earlier rule does; it fails exactly when the first three rules miss and `int()` rejects the arc size, with that text as the error |
| Shape.FirstMatchUnique | utils/drawio_to_svg.py:54-71 | at most one kind is the first match, so the classification is well defined |
| Shape.ClassifyTotal | utils/drawio_to_svg.py:54-71 | whenever `int()` accepts the arc size, the kind that matches first is the result |
| Shape.ClassifyReadsSixKeys | utils/drawio_to_svg.py:56-66 | two styles that agree on `shape`, `perimeter`, `rhombus`, `ellipse`, `rounded` and `arcSize` classify alike |
| Shape.ClassifyRounded | utils/drawio_to_svg.py:65-70 | past the first three rules, a rounded style with a readable arc size n is a terminal when n ≥ 40 and a rounded rectangle otherwise |
| Shape.RoundedByArc | utils/drawio_to_svg.py:65-70 | with `rounded=1`, an arc size n gives a terminal when n ≥ 40 and a rounded rectangle below that |
| Shape.RoundedWithoutArc | utils/drawio_to_svg.py:65-70 | a missing or empty arc size reads as 0: a rounded rectangle |
| Shape.BadArcSize | utils/drawio_to_svg.py:57-66 | an unreadable arc size fails only when the rule that reads it is reached; a diamond is classified before it |
| Markup.StripTags | utils/drawio_to_svg.py:167 | the tag-stripped text is the input with some characters deleted |
| Markup.StripTagsTagFree | utils/drawio_to_svg.py:167 | no tag is left after stripping |
| Markup.StripTagsOfTagFree | utils/drawio_to_svg.py:167 | text with no tag is left unchanged |
| Markup.StripTagsIdempotent | utils/drawio_to_svg.py:167 | stripping twice is stripping once |
| Markup.StripTagsNoAngle | utils/drawio_to_svg.py:167 | text with no `<` is left unchanged |
| Markup.EscapeXmlIsSinglePass | utils/drawio_to_svg.py:200-207 | because `&` is replaced first, the four chained replacements equal escaping each character once |
| Markup.EscapeXmlConcat | utils/drawio_to_svg.py:200-207 | escaping distributes over concatenation |
| Markup.EscapeXmlSafe | utils/drawio_to_svg.py:200-207 | escaped text holds no raw `<`, `>` or `"` |
| Markup.EscapeXmlPlain | utils/drawio_to_svg.py:200-207 | text with none of `& < > "` is returned unchanged |
| Markup.UnescapeEscape | utils/drawio_to_svg.py:200-207 | unescaping the four entities gives the escaped text back, so escaping loses nothing |
| Markup.LineSpans | utils/drawio_to_svg.py:188-195 | one span per line, each holding that line escaped |
| Markup.LayoutLines | utils/drawio_to_svg.py:188-196 | the `tspan` loop computes the specified spans |
| Markup.TextSvg | utils/drawio_to_svg.py:156-197 | `_text_svg` computes the specified elements for the cleaned label |
| Markup.LabelKept | utils/drawio_to_svg.py:167-197 | nothing is drawn exactly when the cleaned label is empty; otherwise one element, a plain text exactly when the label has one line; its lines, unescaped and rejoined, are the cleaned label |
| Markup.TextKeepsLabel | utils/drawio_to_svg.py:156-197 | the same for the raw label: what is drawn, read back, is the tag-stripped, unescaped, trimmed label |
| Markup.LinesCentred | utils/drawio_to_svg.py:188-190 | a block's first and last baselines are symmetric about y, and consecutive baselines are 1.2 font sizes apart |
| Markup.LabelPlacement | utils/drawio_to_svg.py:173-195 | the label is at (x, y) in the requested font size and weight: one line at the point, several centred on it |
| Nodes.NodeFontSize | utils/drawio_to_svg.py:270-271 | the node font size lies in [9, 12]; it is 12 exactly when 0.35h and 0.12w both reach 12; above 9 it is at most 0.35h and 0.12w; and it reaches 12, 0.35h or 0.12w, so together it is max(9, min(12, 0.35h, 0.12w)) |
| Nodes.Skew | utils/drawio_to_svg.py:133 | the skew is at most 0.4h and at most 0.15w, and equals one of them |
| Nodes.RenderNode | utils/drawio_to_svg.py:215-274 | `_render_node` computes the specified outline and label for the node |
| Nodes.DiamondTouchesSides | utils/drawio_to_svg.py:105-120 | the diamond's vertices are the midpoints of the box's four sides, inside the box |
| Nodes.ParallelogramInBox | utils/drawio_to_svg.py:123-138 | the skew lies in [0, w]; the vertices lie in the box and form a parallelogram (shared diagonal midpoint, equal top and bottom) |
| Nodes.OutlineShapes | utils/drawio_to_svg.py:231-266 | corner radius h/2 for a terminal, 6 for a rounded rectangle, 0 for a rectangle, all on the node's box; an ellipse inscribed in the box; a polygon for a diamond or a parallelogram; the node's paint throughout |
| Nodes.NodeFails | utils/drawio_to_svg.py:225-227 | drawing a node fails exactly when its `strokeWidth` is present and `float()` rejects it |
| Nodes.NodeParts | utils/drawio_to_svg.py:229-274 | the outline comes first; an unlabelled node draws nothing else; a labelled one adds the label's elements centred in the box at the node font size |
| Nodes.NodeLabelCentred | utils/drawio_to_svg.py:268-272 | a node's label sits at the centre of its box, in a font size between 9 and 12, not bold |
| Edges.ConnectionPointInBox | utils/drawio_to_svg.py:282-289 | fractions in [0, 1] give a point of the node's box |
| Edges.ConnectionPointCorners | utils/drawio_to_svg.py:282-302 | fractions 0 and 1 reach the corners; the default exit (0.5, 1) and entry (0.5, 0) are the bottom and top midpoints |
| Edges.Route | utils/drawio_to_svg.py:304-320 | the route has one point per resolved end plus one per waypoint |
| Edges.RoutePoints | utils/drawio_to_svg.py:304-320 | the point-appending code computes the specified route |
| Edges.AppendEndpoint | utils/drawio_to_svg.py:306-310 | an end appends the connection point of its attached node, else its explicit point, else nothing |
| Edges.AppendWaypoints | utils/drawio_to_svg.py:312-314 | the waypoint loop appends every waypoint, in order |
| Edges.RouteEnds | utils/drawio_to_svg.py:306-320 | an attached source gives the connection point at the exit fractions, else the explicit source point if any; the same at the target with the entry fractions; the waypoints lie in between, in order |
| Edges.PlaceLabel | utils/drawio_to_svg.py:337-362 | the label code computes the specified background and bold text at the anchor |
| Edges.LabelPoint | utils/drawio_to_svg.py:339-351 | the step-by-step midpoint and offset computation gives the specified label anchor, with a zero `hypot` read as 1 |
| Edges.DrawLabel | utils/drawio_to_svg.py:353-362 | the background `len*7+6` by 16 around the anchor, then the bold 11-point label at the anchor |
| Edges.RenderEdge | utils/drawio_to_svg.py:292-364 | `_render_edge` computes the specified elements |
| Edges.EdgeFails | utils/drawio_to_svg.py:299-328 | an edge fails exactly when a fraction is rejected, or when it has a route of at least two points and a rejected stroke width; a shorter route draws nothing |
| Edges.EdgeDrawn | utils/drawio_to_svg.py:322-362 | a drawn edge is the polyline through its route in its stroke colour and width; a label adds a background `len*7+6` by 16 centred on the anchor and then the bold label there; the anchor segment ending at point n/2 always exists |
| Edges.OffsetPerpendicular | utils/drawio_to_svg.py:344-351 | the label's offset is at right angles to its segment |
| Edges.OffsetLength | utils/drawio_to_svg.py:347-351 | when `hypot` is the true positive length, the offset is 10 units long |
| Extraction.ReadWaypoints | utils/drawio_to_svg.py:427-432 | the waypoint loop computes the specified waypoints |
| Extraction.ReadEnds | utils/drawio_to_svg.py:435-442 | the explicit-point loop computes the specified source and target points |
| Extraction.ReadEdge | utils/drawio_to_svg.py:420-454 | the edge branch computes the specified edge |
| Extraction.ExtractCells | utils/drawio_to_svg.py:392-454 | the cell loop computes the specified graph, or the first error |
| Extraction.WaypointsInOrder | utils/drawio_to_svg.py:427-432 | reading waypoints fails exactly when a point cannot be read; otherwise there is one waypoint per `mxPoint` of the `Array`, in order |
| Extraction.EndsLastWins | utils/drawio_to_svg.py:435-442 | every direct `mxPoint` is read, whatever its role; an explicit end is present exactly when some child has its role, and it is the last such child |
| Extraction.StepFails | utils/drawio_to_svg.py:395-454 | one turn of the loop fails exactly when its cell does, with that cell's error |
| Extraction.ExtractFailsAtFirst | utils/drawio_to_svg.py:395-454 | extraction succeeds exactly when no cell fails; otherwise it stops with the first failing cell's error |
| Extraction.FirstFailure | utils/drawio_to_svg.py:395-454 | a failed extraction names a cell before which every cell succeeds and whose error is the result |
| Extraction.StepValid | utils/drawio_to_svg.py:405-419 | a turn of the loop keeps the node order and the node keys in step |
| Extraction.ExtractValid | utils/drawio_to_svg.py:392-419 | the extracted node order lists each key of the node dictionary exactly once |
| Extraction.ExtractOrder | utils/drawio_to_svg.py:405-419 | the node dictionary keeps its keys in the order of their first vertex cell |
| Extraction.ExtractKeys | utils/drawio_to_svg.py:400-419 | the node keys are exactly the ids of the vertex cells that have a geometry |
| Extraction.ExtractLastWins | utils/drawio_to_svg.py:411-419 | each node is the one made by the last vertex cell with its id |
| Extraction.ExtractEdges | utils/drawio_to_svg.py:420-454 | there is one edge per edge cell that does not make a node, in document order, each read from its cell |
| Convert.Lowest | utils/drawio_to_svg.py:476-477 | `min` is a lower bound that is attained |
| Convert.Highest | utils/drawio_to_svg.py:478-479 | `max` is an upper bound that is attained |
| Convert.CollectCorners | utils/drawio_to_svg.py:459-461 | the node loop collects two x and two y values per node, in dictionary order |
| Convert.AppendEdgePoints | utils/drawio_to_svg.py:462-471 | one turn of the edge loop appends the edge's waypoints, then its explicit source, then its explicit target |
| Convert.CollectCoordinates | utils/drawio_to_svg.py:456-471 | `all_x` and `all_y` are the x and y values of the specified coordinate list |
| Convert.CollectEdgePoints | utils/drawio_to_svg.py:462-471 | the edge loop extends the collected corners by every edge's waypoints and explicit ends, in order |
| Convert.DrawEdges | utils/drawio_to_svg.py:493-495 | the edge loop computes the specified groups |
| Convert.DrawNodes | utils/drawio_to_svg.py:497-509 | the node loop computes the specified groups |
| Convert.DrawGraph | utils/drawio_to_svg.py:483-512 | the drawing and closing of the document compute the specified document |
| Convert.RenderGraph | utils/drawio_to_svg.py:456-512 | everything after extraction computes the specified document |
| Convert.Frame | utils/drawio_to_svg.py:476-481 | the viewBox computed from `min` and `max` of the collected values is the padded bounding box of the coordinates |
| Convert.MxGraphToSvg | utils/drawio_to_svg.py:372-512 | the converter on a diagram's cells computes the specified document |
| Convert.ViewBoxTight | utils/drawio_to_svg.py:476-481 | every coordinate lies at least `padding` inside each side of the viewBox; on each side some coordinate lies exactly `padding` inside; with padding ≥ 0 every coordinate is in the viewBox |
| Convert.NodeCornersInCoordinates | utils/drawio_to_svg.py:459-461 | both corners of every node are among the coordinates |
| Convert.EdgePointsInCoordinates | utils/drawio_to_svg.py:462-471 | every waypoint and explicit end of every edge is among the coordinates |
| Convert.EverythingInView | utils/drawio_to_svg.py:456-481 | with padding ≥ 0, the viewBox holds every node's box and every waypoint and explicit end of every edge |
| Convert.NoCoordinates | utils/drawio_to_svg.py:456-473 | there is no coordinate exactly when there is no node and no edge has a waypoint or an explicit end |
| Convert.EmptyDocumentWhen | utils/drawio_to_svg.py:473-474 | the fixed 100×100 empty document comes out exactly when there is no coordinate |
| Convert.EdgeGroupsInOrder | utils/drawio_to_svg.py:493-495 | one group per edge, in list order, each the edge's drawing; it fails exactly when some edge fails |
| Convert.NodeGroupsInOrder | utils/drawio_to_svg.py:497-509 | one group per node, in dictionary order, each the node's drawing; it fails exactly when some node fails |
| Convert.CollectInOrder | utils/drawio_to_svg.py:493-509 | collecting drawn groups succeeds exactly when every item is drawn, and then holds each item's group, one per item, in order |
| Convert.DocumentParts | utils/drawio_to_svg.py:484-511 | a non-empty document is the marker, then each edge's drawing in order, then each node's drawing in order, so edges lie behind nodes |
| Convert.RenderFails | utils/drawio_to_svg.py:493-509 | once there is a coordinate, the conversion fails exactly when some edge or some node cannot be drawn |
| Notebook.Lookup | utils/ipynb_to_md.py:139 | a key is found exactly when it is among the dict's keys |
| Notebook.LookupSet | utils/ipynb_to_md.py:140 | after `d[k] = v`, `k` holds `v` and every other key is unchanged; an existing key keeps its place and a new one goes last |
| Notebook.SetSame | utils/ipynb_to_md.py:147 | writing back a key's own value changes nothing |
| Notebook.LookupSetDefault | utils/ipynb_to_md.py:122-125 | `setdefault` adds the value only when the key is absent and leaves every other key alone |
| Notebook.UniqueAfterWrites | utils/ipynb_to_md.py:122-152 | assignment and `setdefault` keep the dict's keys unique |
| Notebook.FirstDict | utils/ipynb_to_md.py:131 | the result is none exactly when no item is a dict; otherwise it is the first dict |
| Notebook.UnwrapCell | utils/ipynb_to_md.py:130-136 | the flattening and promotion code computes the specified cell dict or drop |
| Notebook.NormaliseCell | utils/ipynb_to_md.py:139-152 | the per-cell normalisation computes the specified cell |
| Notebook.RepairMinimal | utils/ipynb_to_md.py:114-157 | `_repair_minimal` computes the specified repaired payload or error |
| Notebook.TopLevelLookup | utils/ipynb_to_md.py:118-125 | each of the four top-level keys keeps a present value and otherwise gets its default; every other key keeps its value |
| Notebook.TopLevelKeys | utils/ipynb_to_md.py:118-125 | a list payload becomes the cells and any other non-dict gives none; `metadata` `{}`, `nbformat` 4 and `nbformat_minor` 5 are filled in only where absent; other keys of a dict payload are kept; a wrapped payload has exactly the four keys, in order |
| Notebook.JoinConcat | utils/ipynb_to_md.py:143-144 | `"".join` succeeds exactly on a list of strings, and joining distributes over list concatenation |
| Notebook.RepairCellFails | utils/ipynb_to_md.py:142-147 | normalising a cell fails exactly when its source is a list holding a non-string |
| Notebook.CellDefaultsLookup | utils/ipynb_to_md.py:150-152 | `cell_type`, `outputs` and `execution_count` get "markdown", `[]` and None only where absent; all else is unchanged |
| Notebook.RepairCellLookup | utils/ipynb_to_md.py:139-152 | the metadata is the old one if it is a dict, else `{}`; the source is joined if a list, "" if None, else kept; the three reader fields keep their value or get their default; any other key keeps its value |
| Notebook.RepairCellWellFormed | utils/ipynb_to_md.py:139-152 | every normalised cell has dict metadata, a source that is neither a list nor None, and the three reader fields |
| Notebook.RepairCellFixed | utils/ipynb_to_md.py:139-152 | a well-formed cell comes out of normalisation unchanged |
| Notebook.RepairCellsInOrder | utils/ipynb_to_md.py:127-156 | the repaired cells are exactly the surviving cells (dicts, first dicts of lists, promoted strings), each normalised, in order; the loop fails exactly when one cannot be normalised |
| Notebook.RepairLoop | utils/ipynb_to_md.py:127-154 | the cell loop computes the specified repaired cells, or the first error |
| Notebook.RepairCellsFixed | utils/ipynb_to_md.py:127-156 | a list of well-formed cell dicts passes through the loop unchanged |
| Notebook.RepairedShape | utils/ipynb_to_md.py:114-157 | a repaired payload is a dict whose `cells` is a list of well-formed cell dicts; its other keys hold their filled-in top-level values |
| Notebook.TopLevelOfRepaired | utils/ipynb_to_md.py:118-125 | a repaired payload needs no top-level filling in |
| Notebook.RepairIdempotent | utils/ipynb_to_md.py:114-157 | repairing a repaired payload changes nothing |

## Left out

- XML parsing (`ET.fromstring` and `findall(".//mxCell")`) is not modelled. The input is the sequence of `mxCell` elements, already read into `Diagram.Cell` values. A malformed document, which makes the parser raise, is outside the model.
- The SVG text itself is not modelled: the f-string formatting of floats, the attribute order, the `"\n".join` of the parts, and the constant `<svg>`/`<defs>` header. The output is the structured `Diagram.Document`, in the same order and with the same values, constants and escaped contents. A node or edge label that cleans to nothing makes `_text_svg` return an empty string, which the source still appends (after the edge label's background rectangle); the model appends no element there, so an edge keeps only its `LabelBackground`.
- The default `padding=20` of `mxgraph_xml_to_svg` is not modelled: `Convert.ConvertCells` and `Convert.MxGraphToSvg` always take the padding explicitly.
- Python floats are modelled as exact reals, so rounding is not modelled.
- `float()`, `math.hypot` and `html.unescape` are host parameters (`Diagram.Host`) and are not interpreted. Absent attributes take the default value directly rather than sending the default text through `float()`.
- `Strings.ParseInt` accepts ASCII digits, a sign, single underscores between digits and surrounding whitespace. Non-ASCII Unicode digits, which Python's `int()` also accepts, are not modelled.
- Edges.OffsetLength: the label's distance of 10 is proved only when the host's `hypot` is the true, positive length of the segment. For a zero-length segment the source divides by 1, and the model does the same (`Edges.Offset`).
- The command-line entry points of both files, `utils/drawio_to_png.py`, and the rest of `utils/ipynb_to_md.py` are outside the modelled core. That rest includes notebook loading, `nbformat` and `nbconvert`.
- `_repair_minimal` mutates the payload dict and the cell dicts in place. The model treats them as values (`Notebook.Json`), so aliasing between the payload and the caller's object is not captured.
- A JSON object is an ordered list of fields with unique keys, as a Python dict is. Duplicate keys in the raw JSON text belong to the JSON decoder and are not modelled.
- The converter keeps one `svg_parts` list. The model keeps the edge groups and the node groups in two lists, `Convert.DrawEdges` and `Convert.DrawNodes`, joined behind the marker, and `Convert.DocumentParts` states the resulting order.
