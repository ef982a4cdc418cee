# Diarrhea pathway diagram: snapshot and comparison picture

This project models the part of the virtual-skills-centre "Diarrhea" module
(`M04_VSC_Diarrhea.js`) that turns the learner's flowchart into the picture
shown beside the expert's answer.

- **The snapshot** (`updateDiagramData`). The editor walks the children of
  the diagram's root container in order. Each vertex becomes a node record
  (id, label, style, geometry). Each edge becomes an edge record whose
  endpoints are reduced to ids, or null when an end is missing. Anything else
  is dropped. The result is stored in `currentDiagramData`.
- **The comparison renderer** (`renderDiagram`). A snapshot becomes a 500 by
  350 picture. The model writes the picture as a list of draw commands
  (`Placeholder`, `ArrowMarker`, `Line`, `RoundRect`, `Diamond`, `Text`), not
  SVG elements. With no nodes the picture is one centred caption. Otherwise:
  - the node rectangles are folded into a bounding box;
  - the box is shrunk by `min(480/width, 330/height, 1)` and centred;
  - an edge is drawn as a line between the centres of its two nodes, but
    only when both ends are ids of nodes;
  - every node then gets a shape and a centred label. The shape is a diamond
    when the style mentions `decision` and a rounded rectangle otherwise. Its
    colours come from an ordered substring cascade over the style.
- **The editor around it**. The element palette and `addNode` insert a new
  vertex centred in the visible area and retake the snapshot.
  `showComparison` retakes the snapshot and renders the student picture.
  The built-in template serves as a worked example: its records, bounds,
  scale, offsets and lines are stated value by value, and so are its node
  shapes and their labels.

Modules, one file each: `Diagram` (the data model), `Styles` (substring
search and the colour cascade), `SnapshotBuilder` (the snapshot loop),
`Layout` (bounds, scale, offsets), `Render` (node map, edge loop, node loop,
the whole picture), `Template` (the template and its picture) and `Editor`
(the element table and the class holding the editor's two globals).

JavaScript numbers are modelled as exact `real`s. Dividing by a zero extent
gives `Infinity` in JavaScript, which never wins the minimum, so `Scale`
skips that axis. The initial `Infinity`/`-Infinity` accumulators of the
bounds fold are modelled as "no box yet" (`None`).

## Model

| member | source | states |
|---|---|---|
| `SnapshotBuilder.NodeOf` | M04_VSC_Diarrhea.js:542-547 | the object pushed for a vertex: its id, value, style and geometry, copied; `SnapshotBuilder.NodeRecordOrigin` states that every node record is one of these |
| `SnapshotBuilder.EdgeOf` | M04_VSC_Diarrhea.js:549-554 | the object pushed for an edge: its id, the ids of its ends (null for a missing end) and its value; `SnapshotBuilder.EdgeRecordOrigin` states that every edge record is one of these |
| `SnapshotBuilder.EndpointId` | M04_VSC_Diarrhea.js:551-552 | an edge end becomes its cell's id, or null when the end is missing; `SnapshotBuilder.EdgeRecordOrigin` states it for every record |
| `SnapshotBuilder.NodeRecords` | M04_VSC_Diarrhea.js:537-558 | the node records pushed while visiting the children, one per vertex, never more than there are children; their order and origin are `NodeRecordAt` and `NodeRecordOrigin` |
| `SnapshotBuilder.EdgeRecords` | M04_VSC_Diarrhea.js:537-558 | the edge records pushed while visiting the children, one per edge, never more than there are children; their order and origin are `EdgeRecordAt` and `EdgeRecordOrigin` |
| `SnapshotBuilder.SnapshotOf` | M04_VSC_Diarrhea.js:537-558 | the snapshot of a child list: its node records and its edge records, which `CollectRecords` computes |
| `SnapshotBuilder.CollectRecords` | M04_VSC_Diarrhea.js:528-559 | the loop's result is the snapshot `SnapshotOf(children)`: node records for vertices, edge records for edges |
| `SnapshotBuilder.NodeRecordAt` | M04_VSC_Diarrhea.js:537-548 | the vertex at child index j has its record at index (number of earlier vertices), after the records of earlier vertices |
| `SnapshotBuilder.EdgeRecordAt` | M04_VSC_Diarrhea.js:549-556 | the edge at child index j has its record at index (number of earlier edges), after the records of earlier edges |
| `SnapshotBuilder.NodeRecordOrigin` | M04_VSC_Diarrhea.js:540-546 | every node record is a vertex child's id, value, style and geometry, copied unchanged, at the position its rank gives |
| `SnapshotBuilder.EdgeRecordOrigin` | M04_VSC_Diarrhea.js:549-556 | every edge record copies an edge child's id and value; its source/target is the endpoint cell's id when that end exists and null exactly when it does not |
| `SnapshotBuilder.NodeRecordsAppend` | M04_VSC_Diarrhea.js:537-548 | visiting two runs of children yields the node records of the first run, then those of the second |
| `SnapshotBuilder.EdgeRecordsAppend` | M04_VSC_Diarrhea.js:549-556 | visiting two runs of children yields the edge records of the first run, then those of the second |
| `SnapshotBuilder.SnapshotSize` | M04_VSC_Diarrhea.js:537-556 | each child yields at most one record; the records account for every child exactly when no child is neither vertex nor edge |
| `SnapshotBuilder.SnapshotPlaced` | M04_VSC_Diarrhea.js:540-546 | when every vertex has geometry, every node record has geometry |
| `SnapshotBuilder.AppendVertex` | M04_VSC_Diarrhea.js:448-462 | a vertex inserted after the existing children adds one node record at the end and leaves the edge records as they were |
| `Styles.Contains` | M04_VSC_Diarrhea.js:717 | `includes`: never true for a keyword longer than the style, always true for the empty keyword; `Styles.ContainsIff` states it in full |
| `Styles.Colours` | M04_VSC_Diarrhea.js:712-734 | the colour cascade: a missing style keeps the default pair, `presentation` wins over every other keyword, and a style with `decision` is drawn in the decision or the presentation colours; `Styles.ColoursFollowRules` ties it to the ordered table |
| `Styles.IsDecision` | M04_VSC_Diarrhea.js:737 | the diamond test: the style exists and contains `decision`; `Render.NodeShape` draws a diamond exactly then |
| `Styles.ContainsIff` | M04_VSC_Diarrhea.js:717 | `includes` holds exactly when the keyword occurs at some index of the style |
| `Styles.FirstMatchIsEarliest` | M04_VSC_Diarrhea.js:716-732 | an ordered rule table yields the palette of the earliest rule that matches |
| `Styles.FirstMatchDefault` | M04_VSC_Diarrhea.js:713-714 | when no rule matches, the default pair `#e3f2fd`/`#1976d2` is kept |
| `Styles.ColoursFollowRules` | M04_VSC_Diarrhea.js:712-734 | the colour cascade equals the first match in the table presentation, decision, pathway, diagnostic-or-treatment, outcome; a missing style gives the default pair |
| `Styles.AbsentByLetterPair` | M04_VSC_Diarrhea.js:717 | a keyword two of whose adjacent letters never stand side by side in the style is not included in it |
| `Styles.OnlyOwnKeyword` | M04_VSC_Diarrhea.js:717-731 | a style lacking the keywords' letter pairs contains none of the other kinds' keywords |
| `Styles.LacksPresentationPair` | M04_VSC_Diarrhea.js:124-161 | no palette style other than the presentation style has the letters `pr` side by side |
| `Styles.LacksDecisionPair` | M04_VSC_Diarrhea.js:124-161 | no palette style other than the decision style has the letters `ec` side by side |
| `Styles.LacksPathwayPair` | M04_VSC_Diarrhea.js:124-161 | no palette style other than the pathway style has the letters `pa` side by side |
| `Styles.LacksDiagnosticPair` | M04_VSC_Diarrhea.js:124-161 | no palette style other than the diagnostic style has the letters `di` side by side |
| `Styles.LacksTreatmentPair` | M04_VSC_Diarrhea.js:124-161 | no palette style other than the treatment style has the letters `tr` side by side |
| `Styles.LacksOutcomePair` | M04_VSC_Diarrhea.js:124-161 | no palette style other than the outcome style has the letters `ou` side by side |
| `Styles.CascadeMatchesTags` | M04_VSC_Diarrhea.js:713-737 | on each of the six styles the palette creates, the cascade gives that kind's own colours, and the diamond test holds exactly for the decision kind |
| `Styles.UnknownStyleDefault` | M04_VSC_Diarrhea.js:712-737 | a style naming none of the kinds (`unknown-tag`) falls through every test: default colours, drawn as a rectangle |
| `Layout.Extend` | M04_VSC_Diarrhea.js:651-656 | one step of the bounds fold: a node without geometry is skipped, the first rectangle sets the box, later ones widen it; `Layout.BoundsEnclose` and `Layout.BoundsAttained` state what the fold yields |
| `Layout.Bounds` | M04_VSC_Diarrhea.js:648-657 | the fold yields no box exactly when no node has geometry |
| `Layout.ComputeBounds` | M04_VSC_Diarrhea.js:648-657 | the `forEach` with its four accumulators computes `Bounds(nodes)` |
| `Layout.BoundsEnclose` | M04_VSC_Diarrhea.js:650-656 | `minX <= g.x`, `g.x + g.width <= maxX` and likewise for y, for every node with geometry |
| `Layout.BoundsAttained` | M04_VSC_Diarrhea.js:650-656 | each of the four bounds is an edge of some node rectangle |
| `Layout.Scale` | M04_VSC_Diarrhea.js:661 | the scale is at most 1, at most 480/width and 330/height for non-zero extents, and equals one of the three |
| `Layout.ScaleFits` | M04_VSC_Diarrhea.js:659-661 | for non-negative extents the scale is positive and the scaled box is at most 480 by 330 |
| `Layout.ScaleKeepsWhatFits` | M04_VSC_Diarrhea.js:661 | a diagram that already fits 480 by 330 is drawn at scale 1 |
| `Layout.Anchor` | M04_VSC_Diarrhea.js:694-697 | the edge loop's end point (centre in diagram units, then transformed) is the centre of the rectangle the node loop draws |
| `Layout.CentreOfPlace` | M04_VSC_Diarrhea.js:694-697 | the centre of a placed rectangle equals the original rectangle's centre, scaled and shifted |
| `Layout.Fit` | M04_VSC_Diarrhea.js:659-663 | the scale and offsets for a box; `Layout.FitCentres` and `Layout.PlacedInCanvas` state that it centres the box inside the canvas |
| `Layout.Place` | M04_VSC_Diarrhea.js:707-710 | a node rectangle in canvas coordinates; `Layout.PlacedInCanvas` states that it stays inside the canvas |
| `Layout.FitCentres` | M04_VSC_Diarrhea.js:659-663 | the scaled bounds have equal left and right margins and equal top and bottom margins, each at least 10 |
| `Layout.PlacedInCanvas` | M04_VSC_Diarrhea.js:707-710 | a node rectangle within the bounds, of non-negative size, is drawn inside the 500 by 350 canvas |
| `Layout.CentredInCanvas` | M04_VSC_Diarrhea.js:707-710 | any positive scale with equal, non-negative margins around the bounds draws every enclosed rectangle inside the canvas |
| `Layout.AxisInCanvas` | M04_VSC_Diarrhea.js:662-663 | one axis of the placement: an interval within the bounds lands within [0, size] |
| `Layout.CentreInCanvas` | M04_VSC_Diarrhea.js:759-760 | the centre of a rectangle inside the canvas is inside it |
| `Render.NodeMap` | M04_VSC_Diarrhea.js:666-667 | when every node has geometry, every node in the map does |
| `Render.NodeMapLookup` | M04_VSC_Diarrhea.js:666-667 | an id is in the map exactly when some node has it, and it finds the last node with that id |
| `Render.BuildNodeMap` | M04_VSC_Diarrhea.js:666-667 | the `forEach` of `Map.set` builds `NodeMap(nodes)` |
| `Render.MarkerId` | M04_VSC_Diarrhea.js:674 | `'arrowhead-' + type`: the id is that prefix followed by the variant, so different variants get different marker ids; the lines refer to the same id (:700) |
| `Render.Resolves` | M04_VSC_Diarrhea.js:689-692 | the `sourceNode && targetNode` test for one end: the end is non-null and is a key of the node map. `nodeMap.get(null)` is `undefined`, and a node record, being an object, is always truthy |
| `Render.EdgeLine` | M04_VSC_Diarrhea.js:688-703 | one pass of the edge loop: at most one command, and one exactly when both ends resolve |
| `Render.EdgeCommands` | M04_VSC_Diarrhea.js:688-703 | the commands of the edge loop; `Render.EdgeLineFor`, `Render.EdgeLineOrigin` and `Render.EdgeCommandsAtMostOne` state what they are |
| `Render.EdgeLineFor` | M04_VSC_Diarrhea.js:688-703 | the edge at index i yields a line exactly when both ends resolve, after the lines of earlier edges, between the centres of the two drawn rectangles; otherwise it yields nothing |
| `Render.EdgeLineOrigin` | M04_VSC_Diarrhea.js:688-703 | every command of the edge loop is a line with the variant's marker, drawn for some edge both of whose ends resolve, between its nodes' centres |
| `Render.EdgeCommandsAppend` | M04_VSC_Diarrhea.js:688-703 | the lines for two runs of edges are those of the first run, then those of the second |
| `Render.EdgeCommandsAtMostOne` | M04_VSC_Diarrhea.js:688-703 | the edge loop emits at most one line per edge |
| `Render.DrawEdges` | M04_VSC_Diarrhea.js:688-703 | the edge loop computes `EdgeCommands(edges, nodeMap, t, marker)` |
| `Render.Label` | M04_VSC_Diarrhea.js:766 | `node.value || ''`: the label text, empty for a null value |
| `Render.NodeCommands` | M04_VSC_Diarrhea.js:705-768 | the commands of the node loop; `Render.NodeCommandsAt` states that node k gives commands 2k and 2k+1 |
| `Render.NodeShape` | M04_VSC_Diarrhea.js:713-754 | a diamond exactly when the style contains `decision`, with corners at the midpoints of the drawn rectangle's sides; otherwise that rectangle with corner radius 5; in the cascade's colours |
| `Render.KindDrawing` | M04_VSC_Diarrhea.js:713-754 | a node with one of the six palette styles is drawn in that kind's colours, as a diamond exactly for decisions |
| `Render.NodeCommandsAt` | M04_VSC_Diarrhea.js:705-770 | the node loop emits exactly two commands per node, in node order: its shape, then a text at its centre holding `value` or `''` |
| `Render.DrawNode` | M04_VSC_Diarrhea.js:706-767 | one pass of the node loop yields `NodeShape` and the centred label |
| `Render.DrawNodes` | M04_VSC_Diarrhea.js:705-770 | the node loop computes `NodeCommands(nodes, t)` |
| `Render.FitToCanvas` | M04_VSC_Diarrhea.js:659-663 | the width, height, scale and offsets computed in turn give the transform `Fit(box)` whose margins `Layout.FitCentres` describes |
| `Render.Rendering` | M04_VSC_Diarrhea.js:624-771 | the whole picture; `Render.RenderEmpty`, `Render.RenderOrder` and `Render.RenderInCanvas` state its shape and its bounds |
| `Render.RenderDiagram` | M04_VSC_Diarrhea.js:624-771 | `renderDiagram` computes `Rendering(data, variant)` |
| `Render.RenderEmpty` | M04_VSC_Diarrhea.js:634-645 | the picture is exactly the caption "No diagram elements found" at (250, 175) if and only if there is no snapshot or it has no nodes |
| `Render.RenderOrder` | M04_VSC_Diarrhea.js:669-770 | a non-empty picture is the `arrowhead-<variant>` marker, then only lines (at most one per edge) using it, then only shapes and labels, two per node |
| `Render.RenderInCanvas` | M04_VSC_Diarrhea.js:659-766 | when node sizes are non-negative, every drawn point, line end and shape of the picture lies within the 500 by 350 canvas |
| `Render.EdgesInCanvas` | M04_VSC_Diarrhea.js:688-699 | both ends of every line lie within the canvas |
| `Render.NodesInCanvas` | M04_VSC_Diarrhea.js:705-766 | every node shape and label lies within the canvas |
| `Render.NodeInCanvas` | M04_VSC_Diarrhea.js:705-766 | one node's rectangle, shape and label centre lie within the canvas |
| `Render.ShapeInCanvas` | M04_VSC_Diarrhea.js:737-750 | the diamond or rectangle drawn for a rectangle inside the canvas is inside it |
| `Template.TemplateRecords` | M04_VSC_Diarrhea.js:374-397 | the template's snapshot is its four nodes n1..n4 in order and the edges n1→n2, n2→n3, n2→n4 |
| `Template.TemplateFit` | M04_VSC_Diarrhea.js:648-663 | the template's bounds are (100, 20)–(700, 320), so it is drawn at scale 0.8 with offsets (-70, 39) |
| `Template.TemplateNodeMap` | M04_VSC_Diarrhea.js:666-667 | the template's node map sends each id n1..n4 to its own node |
| `Template.TemplateLines` | M04_VSC_Diarrhea.js:688-703 | the template's three edges become lines (250,79)→(258,175), (258,175)→(82,271), (258,175)→(418,271) |
| `Template.TemplateShapes` | M04_VSC_Diarrhea.js:705-768 | the template's nodes give eight commands: a rounded rectangle and the label `Dog with Diarrhea` at (250, 79); the duration diamond with its corners and its two-line question at (258, 175); the acute and chronic pathway rectangles with their labels at (82, 271) and (418, 271); each in its kind's colours |
| `Template.FirstNodeDrawn` | M04_VSC_Diarrhea.js:705-768 | the node loop's first two commands for the template: the presentation rectangle and its label at its centre |
| `Template.SecondNodeDrawn` | M04_VSC_Diarrhea.js:705-768 | the node loop's third and fourth commands for the template: the duration diamond and its label at its centre |
| `Template.PathwayNodeDrawn` | M04_VSC_Diarrhea.js:705-768 | a pathway node placed at a rectangle gives that rounded rectangle in the pathway colours, then its own label at the rectangle's centre |
| `Template.PresentationDrawn` | M04_VSC_Diarrhea.js:706-749 | the presenting complaint is a 160 by 48 rounded rectangle at (170, 55) in the presentation colours |
| `Template.DurationDrawn` | M04_VSC_Diarrhea.js:737-742 | the duration question is a diamond with corners (258,135), (330,175), (258,215), (186,175) in the decision colours |
| `Template.PathwayDrawn` | M04_VSC_Diarrhea.js:713-749 | a pathway node is a rounded rectangle in the pathway colours |
| `Template.TemplatePicture` | M04_VSC_Diarrhea.js:624-771 | the student picture of the template is the marker, the template's lines, then its node commands |
| `Editor.ElementSpecOf` | M04_VSC_Diarrhea.js:124-161 | each palette entry carries its kind's style string and a positive size |
| `Editor.KindTag` | M04_VSC_Diarrhea.js:417-421 | a kind is accepted exactly when it is one of the six table keys |
| `Editor.ViewCentre` | M04_VSC_Diarrhea.js:434-441 | the chosen point is the one the view draws at the middle of the container |
| `Editor.NewVertex` | M04_VSC_Diarrhea.js:448-456 | the inserted vertex has the entry's label, style and size, and its rectangle is centred on the chosen point |
| `Editor.NewNodeDrawing` | M04_VSC_Diarrhea.js:448-456 | a node added from the palette is drawn in its kind's colours, as a diamond exactly for a decision |
| `Editor.DiagramEditor.constructor` | M04_VSC_Diarrhea.js:118-119 | the editor starts with the given graph (or none) and no snapshot |
| `Editor.DiagramEditor.UpdateDiagramData` | M04_VSC_Diarrhea.js:528-559 | without a graph nothing changes; otherwise `currentDiagramData` becomes the snapshot of the graph, and the graph is unchanged |
| `Editor.DiagramEditor.AddNode` | M04_VSC_Diarrhea.js:416-463 | an unknown kind, no graph or no container changes nothing; otherwise the kind's vertex is appended centred in the view and the snapshot gains exactly its node record |
| `Editor.DiagramEditor.ShowComparison` | M04_VSC_Diarrhea.js:565-588 | the snapshot is retaken, and the student picture is `Rendering(snapshot, "student")` exactly when there is a container and a snapshot |

## Left out

- The mxGraph library: the graph is a sequence of cells and `insertVertex`
  appends one. Stylesheet setup, `fit`/`center`, zoom, selection, the key
  handler, `removeCells` (clear, delete, template reload) and
  `normalizeVertexLabelStyles` are not modelled.
- `applyLabelCentering` rewrites the new vertex's style through
  `mxUtils.setStyle`, a library call. `DiagramEditor.AddNode` stores the
  entry's style unchanged.
- DOM and SVG details (element creation, fonts, stroke widths, the marker's
  polygon, `byRole`) are reduced to the draw commands. A missing student
  container is a boolean parameter of `ShowComparison`.
- The viewport's size, scale and translation are parameters. A missing
  container is `None`. The view's scale must be non-zero, as mxGraph keeps it.
- The expert picture (an image with `onload`/`onerror`), `showMessage`,
  `setTimeout` deferrals, `confirm` dialogs, downloads, tabs, device
  detection and panning are I/O or UI wiring.
- IEEE-754 rounding: coordinates are exact reals.
- Nodes without geometry: the renderer's node loop reads `geometry` without a
  guard. `Render.RenderDiagram` therefore requires every node to have
  geometry, and `DiagramEditor` keeps that as its invariant.
- A node record holds the live `mxGeometry` object that `cell.getGeometry()`
  returns (M04_VSC_Diarrhea.js:546), not a copy. The model's `Rect` is a
  value, so the snapshot does not share anything with the graph. mxGraph
  replaces a cell's geometry on move and resize rather than changing it, so
  the snapshot's contents are the same either way; the aliasing itself is not
  modelled.
- `setupEventListeners` runs twice (M04_VSC_Diarrhea.js:212, inside
  `initializeMxGraph`, and :934, in the `DOMContentLoaded` handler). The
  palette's click handler therefore calls `addNode` twice per click, and the
  change listener is registered twice. `DiagramEditor.AddNode` models one
  call.
- Labels and styles are strings or null. mxGraph also allows object values,
  which are not modelled.
- `Editor.KindTag`: keys are compared as strings. Names that JavaScript
  inherits on every object (such as `toString`) also pass the
  `diarrheaElements[type]` test, and the model does not capture that.
- The template's fourth label keeps the characters the source file holds
  between `Chronic (` and ` 3 weeks)`: U+00E2 U+2030 U+00A5, the UTF-8 bytes
  of `≥` read back as Windows-1252 (`Template.ChronicLabel`). The page shows
  those three characters, so the model does too.
- The colour choice is not a lookup of exact style tags: the code tests
  substrings of the style in a fixed order, and a style holding two keywords
  takes the earlier rule's colours. The model follows the code.
  `Styles.CascadeMatchesTags` shows that on the six palette styles this gives
  each kind its own colours, as an exact-tag lookup would.
- Without a graph, `updateDiagramData` returns early and leaves
  `currentDiagramData` as it was; it does not store an empty snapshot. The
  model follows the code.
- The mxGraph change listener (M04_VSC_Diarrhea.js:910-914) retakes the
  snapshot after every edit of the graph model. The model retakes it only
  where the module calls `updateDiagramData` itself: in
  `DiagramEditor.UpdateDiagramData`, `DiagramEditor.AddNode` and
  `DiagramEditor.ShowComparison`. Edits made through mxGraph (dragging,
  connecting, deleting) are not modelled.
- `insertVertex(parent, null, …)` makes mxGraph generate a fresh cell id.
  `DiagramEditor.AddNode` takes that id as its parameter `newId`, and the
  model does not require it to differ from the ids already in the graph.
