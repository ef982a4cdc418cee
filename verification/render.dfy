/**
 * The comparison renderer (`renderDiagram`): a snapshot becomes a list of
 * draw commands for a 500 by 350 canvas. An empty snapshot gives a single
 * placeholder caption; otherwise an arrowhead marker, one line per edge whose
 * two endpoints are known nodes, then a shape and a label per node.
 */
module Render {
  import opened Diagram
  import opened Styles
  import opened Layout

  /** What the renderer appends to the picture, in order. */
  datatype Command =
    | Placeholder(at: Point, caption: string)
    | ArrowMarker(id: string)
    | Line(from: Point, to: Point, marker: string)
    | RoundRect(box: Rect, radius: real, fill: string, stroke: string)
    | Diamond(top: Point, right: Point, bottom: Point, left: Point, fill: string, stroke: string)
    | Text(at: Point, content: string)

  const EmptyCaption := "No diagram elements found"
  const CornerRadius := 5.0

  /** The marker's id is namespaced by the rendering variant ("student" or another). */
  function MarkerId(variant: string): (id: string)
    ensures |id| == 10 + |variant| && id[..10] == "arrowhead-" && id[10..] == variant
  {
    "arrowhead-" + variant
  }

  // ---------------------------------------------------------------------------
  // The node map
  // ---------------------------------------------------------------------------

  predicate MapPlaced(m: map<string, NodeRecord>)
  {
    forall id :: id in m ==> m[id].geometry.Some?
  }

  /** `nodeMap`: each node stored under its id; a later node with the same id replaces an earlier one. */
  function NodeMap(nodes: seq<NodeRecord>): (m: map<string, NodeRecord>)
    ensures AllPlaced(nodes) ==> MapPlaced(m)
  {
    if nodes == [] then map[]
    else
      var last := nodes[|nodes| - 1];
      NodeMap(nodes[..|nodes| - 1])[last.id := last]
  }

  /**
   * An id is in the node map exactly when some node has it, and it maps to
   * the last node in the list that has it.
   */
  lemma {:induction false} NodeMapLookup(nodes: seq<NodeRecord>, id: string)
    ensures id in NodeMap(nodes) <==> exists k :: 0 <= k < |nodes| && nodes[k].id == id
    ensures id in NodeMap(nodes) ==>
      exists k :: 0 <= k < |nodes| && nodes[k].id == id && NodeMap(nodes)[id] == nodes[k]
                  && forall j :: k < j < |nodes| ==> nodes[j].id != id
  {
    if nodes != [] {
      var n := |nodes| - 1;
      var init := nodes[..n];
      NodeMapLookup(init, id);
      if nodes[n].id == id {
        assert NodeMap(nodes)[id] == nodes[n];
      } else {
        if exists k :: 0 <= k < |nodes| && nodes[k].id == id {
          var k :| 0 <= k < |nodes| && nodes[k].id == id;
          assert init[k] == nodes[k];
        }
        if id in NodeMap(init) {
          var k :| 0 <= k < |init| && init[k].id == id && NodeMap(init)[id] == init[k]
                   && forall j :: k < j < |init| ==> init[j].id != id;
          assert nodes[k] == init[k];
          forall j | k < j < |nodes| ensures nodes[j].id != id {
            if j < n { assert nodes[j] == init[j]; }
          }
        }
      }
    }
  }

  // ---------------------------------------------------------------------------
  // Edges
  // ---------------------------------------------------------------------------

  /** `nodeMap.get(end)` finds a node: the end is present and is the id of a node. */
  predicate Resolves(m: map<string, NodeRecord>, end: Option<string>)
  {
    end.Some? && end.value in m
  }

  /** What the edge loop appends for one edge. */
  function EdgeLine(e: EdgeRecord, m: map<string, NodeRecord>, t: Transform, marker: string): (r: seq<Command>)
    requires MapPlaced(m)
    ensures |r| <= 1
    ensures r != [] <==> Resolves(m, e.source) && Resolves(m, e.target)
  {
    if Resolves(m, e.source) && Resolves(m, e.target) then
      [Line(Anchor(t, m[e.source.value].geometry.value), Anchor(t, m[e.target.value].geometry.value), marker)]
    else []
  }

  /** What the edge loop has appended after visiting `edges`. */
  function EdgeCommands(edges: seq<EdgeRecord>, m: map<string, NodeRecord>, t: Transform, marker: string): seq<Command>
    requires MapPlaced(m)
  {
    if edges == [] then []
    else EdgeCommands(edges[..|edges| - 1], m, t, marker) + EdgeLine(edges[|edges| - 1], m, t, marker)
  }

  /**
   * Completeness, in order: the edge at index i yields a line exactly when both
   * of its ends resolve, placed after the lines of the edges before it, from
   * the centre of the source node's drawn rectangle to the target's.
   */
  lemma EdgeLineFor(edges: seq<EdgeRecord>, m: map<string, NodeRecord>, t: Transform, marker: string, i: int)
    requires MapPlaced(m) && 0 <= i < |edges|
    ensures var e := edges[i];
            var before := |EdgeCommands(edges[..i], m, t, marker)|;
      && EdgeCommands(edges[..i], m, t, marker) <= EdgeCommands(edges, m, t, marker)
      && (Resolves(m, e.source) && Resolves(m, e.target) ==>
            before < |EdgeCommands(edges, m, t, marker)|
            && EdgeCommands(edges, m, t, marker)[before]
               == Line(Centre(Place(t, m[e.source.value].geometry.value)), Centre(Place(t, m[e.target.value].geometry.value)), marker))
      && (!(Resolves(m, e.source) && Resolves(m, e.target)) ==>
            EdgeCommands(edges[..i + 1], m, t, marker) == EdgeCommands(edges[..i], m, t, marker))
  {
    assert edges[..i + 1][..i] == edges[..i];
    EdgeCommandsAppend(edges[..i + 1], edges[i + 1..], m, t, marker);
    assert edges[..i + 1] + edges[i + 1..] == edges;
  }

  lemma {:induction false} EdgeCommandsAppend(a: seq<EdgeRecord>, b: seq<EdgeRecord>, m: map<string, NodeRecord>, t: Transform, marker: string)
    requires MapPlaced(m)
    ensures EdgeCommands(a + b, m, t, marker) == EdgeCommands(a, m, t, marker) + EdgeCommands(b, m, t, marker)
    decreases |b|
  {
    if b == [] {
      assert a + b == a;
    } else {
      var b' := b[..|b| - 1];
      assert (a + b)[..|a + b| - 1] == a + b';
      assert (a + b)[|a + b| - 1] == b[|b| - 1];
      EdgeCommandsAppend(a, b', m, t, marker);
    }
  }

  /**
   * Soundness: every command of the edge loop is a line using the marker,
   * drawn for some edge both of whose ends resolve, between the centres of
   * the two nodes' drawn rectangles. Unresolved edges yield nothing.
   */
  lemma {:induction false} EdgeLineOrigin(edges: seq<EdgeRecord>, m: map<string, NodeRecord>, t: Transform, marker: string, k: int)
    requires MapPlaced(m) && 0 <= k < |EdgeCommands(edges, m, t, marker)|
    ensures exists i :: (0 <= i < |edges| && Resolves(m, edges[i].source) && Resolves(m, edges[i].target)
      && EdgeCommands(edges, m, t, marker)[k]
         == Line(Centre(Place(t, m[edges[i].source.value].geometry.value)), Centre(Place(t, m[edges[i].target.value].geometry.value)), marker))
  {
    var n := |edges| - 1;
    var init := edges[..n];
    if k < |EdgeCommands(init, m, t, marker)| {
      EdgeLineOrigin(init, m, t, marker, k);
      var i :| 0 <= i < |init| && Resolves(m, init[i].source) && Resolves(m, init[i].target)
        && EdgeCommands(init, m, t, marker)[k]
           == Line(Centre(Place(t, m[init[i].source.value].geometry.value)), Centre(Place(t, m[init[i].target.value].geometry.value)), marker);
      assert edges[i] == init[i];
      assert EdgeCommands(edges, m, t, marker)[k] == EdgeCommands(init, m, t, marker)[k];
    } else {
      assert edges[n] == edges[|edges| - 1];
      assert EdgeCommands(edges, m, t, marker)[k] == EdgeLine(edges[n], m, t, marker)[0];
    }
  }

  // ---------------------------------------------------------------------------
  // Nodes
  // ---------------------------------------------------------------------------

  /** The label text: `node.value || ''`. */
  function Label(value: Option<string>): string
  {
    match value
    case None => ""
    case Some(v) => v
  }

  function Midpoint(p: Point, q: Point): Point
  {
    Point((p.x + q.x) / 2.0, (p.y + q.y) / 2.0)
  }

  /** The shape the node loop draws for a node, in its colours. */
  function NodeShape(n: NodeRecord, t: Transform): (c: Command)
    requires n.geometry.Some?
    ensures c.Diamond? <==> IsDecision(n.style)
    ensures !c.Diamond? ==> c == RoundRect(Place(t, n.geometry.value), 5.0, Colours(n.style).fill, Colours(n.style).stroke)
    ensures c.Diamond? ==>
      var r := Place(t, n.geometry.value);
      && c.top == Midpoint(Point(r.x, r.y), Point(r.x + r.width, r.y))
      && c.right == Midpoint(Point(r.x + r.width, r.y), Point(r.x + r.width, r.y + r.height))
      && c.bottom == Midpoint(Point(r.x, r.y + r.height), Point(r.x + r.width, r.y + r.height))
      && c.left == Midpoint(Point(r.x, r.y), Point(r.x, r.y + r.height))
      && c.fill == Colours(n.style).fill && c.stroke == Colours(n.style).stroke
  {
    var r := Place(t, n.geometry.value);
    var palette := Colours(n.style);
    if IsDecision(n.style) then
      var centerX := r.x + r.width / 2.0;
      var centerY := r.y + r.height / 2.0;
      Diamond(Point(centerX, r.y), Point(r.x + r.width, centerY), Point(centerX, r.y + r.height), Point(r.x, centerY),
              palette.fill, palette.stroke)
    else
      RoundRect(r, CornerRadius, palette.fill, palette.stroke)
  }

  /** A node whose style is one of the six kinds' is drawn in that kind's colours, as a diamond exactly when it is a decision. */
  lemma KindDrawing(n: NodeRecord, tag: StyleTag, t: Transform)
    requires n.geometry.Some? && n.style == Some(TagStyle(tag))
    ensures NodeShape(n, t).Diamond? <==> tag == Decision
    ensures tag != Decision ==> NodeShape(n, t) == RoundRect(Place(t, n.geometry.value), 5.0, TagPalette(tag).fill, TagPalette(tag).stroke)
    ensures tag == Decision ==> NodeShape(n, t).fill == DecisionPalette.fill && NodeShape(n, t).stroke == DecisionPalette.stroke
  {
    CascadeMatchesTags(tag);
  }

  /** What the node loop has appended after visiting `nodes`: a shape, then a centred label, per node. */
  function NodeCommands(nodes: seq<NodeRecord>, t: Transform): seq<Command>
    requires AllPlaced(nodes)
  {
    if nodes == [] then []
    else
      var n := nodes[|nodes| - 1];
      NodeCommands(nodes[..|nodes| - 1], t)
        + [NodeShape(n, t), Text(Centre(Place(t, n.geometry.value)), Label(n.value))]
  }

  /** The node loop emits exactly two commands per node, in node order: its shape, then its label at its centre. */
  lemma {:induction false} NodeCommandsAt(nodes: seq<NodeRecord>, t: Transform, k: int)
    requires AllPlaced(nodes) && 0 <= k < |nodes|
    ensures |NodeCommands(nodes, t)| == 2 * |nodes|
    ensures NodeCommands(nodes, t)[2 * k] == NodeShape(nodes[k], t)
    ensures NodeCommands(nodes, t)[2 * k + 1] == Text(Centre(Place(t, nodes[k].geometry.value)), Label(nodes[k].value))
  {
    var n := |nodes| - 1;
    if k < n {
      assert nodes[..n][k] == nodes[k];
      NodeCommandsAt(nodes[..n], t, k);
    } else if n > 0 {
      NodeCommandsAt(nodes[..n], t, n - 1);
    }
  }

  // ---------------------------------------------------------------------------
  // The whole picture
  // ---------------------------------------------------------------------------

  /** The picture `renderDiagram(diagramData, variant)` builds. */
  function Rendering(data: Option<Snapshot>, variant: string): seq<Command>
    requires data.Some? ==> AllPlaced(data.value.nodes)
  {
    if data.None? || data.value.nodes == [] then [Placeholder(Point(250.0, 175.0), EmptyCaption)]
    else
      var nodes := data.value.nodes;
      assert nodes[0].geometry.Some?;
      var t := Fit(Bounds(nodes).value);
      var marker := MarkerId(variant);
      [ArrowMarker(marker)] + EdgeCommands(data.value.edges, NodeMap(nodes), t, marker) + NodeCommands(nodes, t)
  }

  /** The `forEach` that fills `nodeMap`. */
  method BuildNodeMap(nodes: seq<NodeRecord>) returns (nodeMap: map<string, NodeRecord>)
    ensures nodeMap == NodeMap(nodes)
  {
    nodeMap := map[];
    var i := 0;
    while i < |nodes|
      invariant 0 <= i <= |nodes|
      invariant nodeMap == NodeMap(nodes[..i])
    {
      nodeMap := nodeMap[nodes[i].id := nodes[i]];
      assert nodes[..i + 1][..i] == nodes[..i];
      i := i + 1;
    }
    assert nodes[..i] == nodes;
  }

  /** The edge loop: a line between the transformed centres of the two ends, when both are in the map. */
  method DrawEdges(edges: seq<EdgeRecord>, nodeMap: map<string, NodeRecord>, t: Transform, marker: string)
    returns (lines: seq<Command>)
    requires MapPlaced(nodeMap)
    ensures lines == EdgeCommands(edges, nodeMap, t, marker)
  {
    lines := [];
    var j := 0;
    while j < |edges|
      invariant 0 <= j <= |edges|
      invariant lines == EdgeCommands(edges[..j], nodeMap, t, marker)
    {
      var edge := edges[j];
      if edge.source.Some? && edge.source.value in nodeMap && edge.target.Some? && edge.target.value in nodeMap {
        var source := nodeMap[edge.source.value].geometry.value;
        var target := nodeMap[edge.target.value].geometry.value;
        var from := Point((source.x + source.width / 2.0) * t.scale + t.dx, (source.y + source.height / 2.0) * t.scale + t.dy);
        var to := Point((target.x + target.width / 2.0) * t.scale + t.dx, (target.y + target.height / 2.0) * t.scale + t.dy);
        AnchorFormula(t, source);
        AnchorFormula(t, target);
        assert Resolves(nodeMap, edge.source) && Resolves(nodeMap, edge.target);
        assert [Line(from, to, marker)] == EdgeLine(edge, nodeMap, t, marker);
        lines := lines + [Line(from, to, marker)];
      }
      assert edges[..j + 1][..j] == edges[..j];
      assert edges[..j + 1][j] == edge;
      j := j + 1;
    }
    assert edges[..j] == edges;
  }

  lemma AnchorFormula(t: Transform, g: Rect)
    ensures Anchor(t, g) == Point((g.x + g.width / 2.0) * t.scale + t.dx, (g.y + g.height / 2.0) * t.scale + t.dy)
  {
    CentreOfPlace(t, g);
  }

  /** The body of the node loop for one node: its shape in its colours, then its label at its centre. */
  method DrawNode(node: NodeRecord, t: Transform) returns (shape: Command, caption: Command)
    requires node.geometry.Some?
    ensures shape == NodeShape(node, t)
    ensures caption == Text(Centre(Place(t, node.geometry.value)), Label(node.value))
  {
    var g := node.geometry.value;
    var x := g.x * t.scale + t.dx;
    var y := g.y * t.scale + t.dy;
    var width := g.width * t.scale;
    var height := g.height * t.scale;
    var palette := Colours(node.style);
    if IsDecision(node.style) {
      var centerX := x + width / 2.0;
      var centerY := y + height / 2.0;
      shape := Diamond(Point(centerX, y), Point(x + width, centerY), Point(centerX, y + height), Point(x, centerY),
                       palette.fill, palette.stroke);
    } else {
      shape := RoundRect(Rect(x, y, width, height), CornerRadius, palette.fill, palette.stroke);
    }
    caption := Text(Point(x + width / 2.0, y + height / 2.0), Label(node.value));
  }

  /** The node loop: each node's shape in its colours, then its label at its centre. */
  method DrawNodes(nodes: seq<NodeRecord>, t: Transform) returns (shapes: seq<Command>)
    requires AllPlaced(nodes)
    ensures shapes == NodeCommands(nodes, t)
  {
    shapes := [];
    var k := 0;
    while k < |nodes|
      invariant 0 <= k <= |nodes|
      invariant shapes == NodeCommands(nodes[..k], t)
    {
      var node := nodes[k];
      var shape, caption := DrawNode(node, t);
      shapes := shapes + [shape, caption];
      assert nodes[..k + 1][..k] == nodes[..k];
      assert nodes[..k + 1][k] == node;
      k := k + 1;
    }
    assert nodes[..k] == nodes;
  }

  /** The scale and the offsets that centre the bounds `box` on the canvas. */
  method FitToCanvas(box: Box) returns (t: Transform)
    ensures t == Fit(box)
  {
    var diagramWidth := box.maxX - box.minX;
    var diagramHeight := box.maxY - box.minY;
    var scale := Scale(diagramWidth, diagramHeight);
    var offsetX := (CanvasWidth - diagramWidth * scale) / 2.0 - box.minX * scale;
    var offsetY := (CanvasHeight - diagramHeight * scale) / 2.0 - box.minY * scale;
    t := Transform(scale, offsetX, offsetY);
  }

  /** `renderDiagram`: the placeholder for an empty snapshot, else marker, edges, then nodes, fitted to the canvas. */
  method RenderDiagram(data: Option<Snapshot>, variant: string) returns (commands: seq<Command>)
    requires data.Some? ==> AllPlaced(data.value.nodes)
    ensures commands == Rendering(data, variant)
  {
    if data.None? || |data.value.nodes| == 0 {
      return [Placeholder(Point(250.0, 175.0), EmptyCaption)];
    }
    var nodes := data.value.nodes;
    var bounds := ComputeBounds(nodes);
    assert nodes[0].geometry.Some?;
    var t := FitToCanvas(bounds.value);

    var nodeMap := BuildNodeMap(nodes);
    var marker := MarkerId(variant);
    var lines := DrawEdges(data.value.edges, nodeMap, t, marker);
    var shapes := DrawNodes(nodes, t);
    commands := [ArrowMarker(marker)] + lines + shapes;
  }

  // ---------------------------------------------------------------------------
  // Properties of the picture
  // ---------------------------------------------------------------------------

  /** The picture is the lone placeholder caption at the canvas centre exactly when there are no nodes. */
  lemma RenderEmpty(data: Option<Snapshot>, variant: string)
    requires data.Some? ==> AllPlaced(data.value.nodes)
    ensures Rendering(data, variant) == [Placeholder(Point(250.0, 175.0), "No diagram elements found")]
            <==> data.None? || data.value.nodes == []
  {
  }

  /**
   * The layout of a non-empty picture: the marker first, then only lines
   * (at most one per edge), then only node shapes and labels, two per node.
   */
  lemma RenderOrder(data: Option<Snapshot>, variant: string)
    requires data.Some? && AllPlaced(data.value.nodes) && data.value.nodes != []
    ensures var cmds := Rendering(data, variant);
            var nodes := data.value.nodes;
            var lines := |cmds| - 2 * |nodes| - 1;
      && 0 <= lines <= |data.value.edges|
      && cmds[0] == ArrowMarker(MarkerId(variant))
      && (forall i :: 1 <= i <= lines ==> cmds[i].Line? && cmds[i].marker == MarkerId(variant))
      && (forall i :: lines < i < |cmds| ==> cmds[i].RoundRect? || cmds[i].Diamond? || cmds[i].Text?)
  {
    var nodes := data.value.nodes;
    var edges := data.value.edges;
    assert nodes[0].geometry.Some?;
    var t := Fit(Bounds(nodes).value);
    var m := NodeMap(nodes);
    var marker := MarkerId(variant);
    var cmds := Rendering(data, variant);
    var ec := EdgeCommands(edges, m, t, marker);
    var nc := NodeCommands(nodes, t);
    assert cmds == [ArrowMarker(marker)] + ec + nc;
    NodeCommandsAt(nodes, t, 0);
    EdgeCommandsAtMostOne(edges, m, t, marker);
    forall i | 1 <= i <= |ec| ensures cmds[i].Line? && cmds[i].marker == marker {
      EdgeLineOrigin(edges, m, t, marker, i - 1);
      assert cmds[i] == ec[i - 1];
    }
    forall i | |ec| < i < |cmds| ensures cmds[i].RoundRect? || cmds[i].Diamond? || cmds[i].Text? {
      var p := i - 1 - |ec|;
      assert cmds[i] == nc[p];
      NodeCommandsAt(nodes, t, p / 2);
      assert p == 2 * (p / 2) || p == 2 * (p / 2) + 1;
    }
  }

  lemma {:induction false} EdgeCommandsAtMostOne(edges: seq<EdgeRecord>, m: map<string, NodeRecord>, t: Transform, marker: string)
    requires MapPlaced(m)
    ensures |EdgeCommands(edges, m, t, marker)| <= |edges|
  {
    if edges != [] {
      EdgeCommandsAtMostOne(edges[..|edges| - 1], m, t, marker);
    }
  }

  /** Where a command is drawn lies within the 500 by 350 canvas (the marker definition draws nothing). */
  predicate InCanvas(c: Command)
  {
    match c
    case Placeholder(p, _) => PointInCanvas(p)
    case ArrowMarker(_) => true
    case Line(a, b, _) => PointInCanvas(a) && PointInCanvas(b)
    case RoundRect(r, _, _, _) => RectInCanvas(r)
    case Diamond(a, b, c, d, _, _) => PointInCanvas(a) && PointInCanvas(b) && PointInCanvas(c) && PointInCanvas(d)
    case Text(p, _) => PointInCanvas(p)
  }

  /** Node rectangles of non-negative size make every command of the picture land inside the canvas. */
  lemma RenderInCanvas(data: Option<Snapshot>, variant: string)
    requires data.Some? ==> AllPlaced(data.value.nodes)
    requires data.Some? ==> forall k :: 0 <= k < |data.value.nodes| ==>
               0.0 <= data.value.nodes[k].geometry.value.width && 0.0 <= data.value.nodes[k].geometry.value.height
    ensures forall i :: 0 <= i < |Rendering(data, variant)| ==> InCanvas(Rendering(data, variant)[i])
  {
    if data.Some? && data.value.nodes != [] {
      var nodes := data.value.nodes;
      assert nodes[0].geometry.Some?;
      var b := Bounds(nodes).value;
      var t := Fit(b);
      var marker := MarkerId(variant);
      var ec := EdgeCommands(data.value.edges, NodeMap(nodes), t, marker);
      var nc := NodeCommands(nodes, t);
      assert Rendering(data, variant) == [ArrowMarker(marker)] + ec + nc;
      EdgesInCanvas(nodes, data.value.edges, b, t, marker);
      NodesInCanvas(nodes, b, t);
    }
  }

  lemma EdgesInCanvas(nodes: seq<NodeRecord>, edges: seq<EdgeRecord>, b: Box, t: Transform, marker: string)
    requires AllPlaced(nodes) && Bounds(nodes) == Some(b) && t == Fit(b)
    requires forall k :: 0 <= k < |nodes| ==> 0.0 <= nodes[k].geometry.value.width && 0.0 <= nodes[k].geometry.value.height
    ensures forall i :: 0 <= i < |EdgeCommands(edges, NodeMap(nodes), t, marker)| ==>
              InCanvas(EdgeCommands(edges, NodeMap(nodes), t, marker)[i])
  {
    var m := NodeMap(nodes);
    var ec := EdgeCommands(edges, m, t, marker);
    forall i | 0 <= i < |ec| ensures InCanvas(ec[i]) {
      EdgeLineOrigin(edges, m, t, marker, i);
      var e :| 0 <= e < |edges| && Resolves(m, edges[e].source) && Resolves(m, edges[e].target)
        && ec[i] == Line(Centre(Place(t, m[edges[e].source.value].geometry.value)), Centre(Place(t, m[edges[e].target.value].geometry.value)), marker);
      NodeMapLookup(nodes, edges[e].source.value);
      NodeMapLookup(nodes, edges[e].target.value);
      NodeInCanvas(nodes, b, t, m[edges[e].source.value]);
      NodeInCanvas(nodes, b, t, m[edges[e].target.value]);
    }
  }

  lemma NodesInCanvas(nodes: seq<NodeRecord>, b: Box, t: Transform)
    requires AllPlaced(nodes) && Bounds(nodes) == Some(b) && t == Fit(b)
    requires forall k :: 0 <= k < |nodes| ==> 0.0 <= nodes[k].geometry.value.width && 0.0 <= nodes[k].geometry.value.height
    ensures forall p :: 0 <= p < |NodeCommands(nodes, t)| ==> InCanvas(NodeCommands(nodes, t)[p])
  {
    var nc := NodeCommands(nodes, t);
    if nodes != [] {
      NodeCommandsAt(nodes, t, 0);
    }
    forall p | 0 <= p < |nc| ensures InCanvas(nc[p]) {
      NodeCommandsAt(nodes, t, p / 2);
      assert p == 2 * (p / 2) || p == 2 * (p / 2) + 1;
      NodeInCanvas(nodes, b, t, nodes[p / 2]);
    }
  }

  /** A node of the list is drawn, shape and label, inside the canvas. */
  lemma NodeInCanvas(nodes: seq<NodeRecord>, b: Box, t: Transform, n: NodeRecord)
    requires AllPlaced(nodes) && Bounds(nodes) == Some(b) && t == Fit(b)
    requires forall k :: 0 <= k < |nodes| ==> 0.0 <= nodes[k].geometry.value.width && 0.0 <= nodes[k].geometry.value.height
    requires n in nodes
    ensures n.geometry.Some? && RectInCanvas(Place(t, n.geometry.value))
    ensures InCanvas(NodeShape(n, t)) && PointInCanvas(Centre(Place(t, n.geometry.value)))
  {
    var k :| 0 <= k < |nodes| && nodes[k] == n;
    var g := n.geometry.value;
    BoundsEnclose(nodes, k);
    PlacedInCanvas(b, g);
    ShapeInCanvas(n, t);
    CentreInCanvas(Place(t, g));
  }

  /** A shape drawn for a rectangle inside the canvas is inside the canvas. */
  lemma ShapeInCanvas(n: NodeRecord, t: Transform)
    requires n.geometry.Some? && RectInCanvas(Place(t, n.geometry.value))
    ensures InCanvas(NodeShape(n, t))
  {
    var r := Place(t, n.geometry.value);
    var c := NodeShape(n, t);
    if c.Diamond? {
      assert PointInCanvas(c.top) && PointInCanvas(c.bottom);
      assert PointInCanvas(c.left) && PointInCanvas(c.right);
    }
  }
}
