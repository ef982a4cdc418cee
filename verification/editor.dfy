/**
 * The editor's state and the operations that change it: the live graph (the
 * children of the diagram's root container, once the graph exists), the
 * snapshot kept in `currentDiagramData`, adding a node from the element
 * palette, and opening the comparison.
 */
module Editor {
  import opened Diagram
  import opened Styles
  import opened SnapshotBuilder
  import opened Layout
  import opened Render

  // ---------------------------------------------------------------------------
  // The element palette
  // ---------------------------------------------------------------------------

  /** One entry of the element table: the new node's label, style and size. */
  datatype ElementSpec = ElementSpec(caption: string, style: string, width: real, height: real)

  /** The table's entry for each kind. */
  function ElementSpecOf(tag: StyleTag): (spec: ElementSpec)
    ensures spec.style == TagStyle(tag)
    ensures 0.0 < spec.width && 0.0 < spec.height
  {
    match tag
    case Presentation => ElementSpec("Dog with Diarrhea", "presentation-node", 200.0, 60.0)
    case Decision => ElementSpec("Decision Point", "decision-node", 180.0, 100.0)
    case Pathway => ElementSpec("Pathway", "pathway-node", 180.0, 60.0)
    case Diagnostic => ElementSpec("Diagnostic Test", "diagnostic-node", 200.0, 80.0)
    case Treatment => ElementSpec("Treatment", "treatment-node", 200.0, 80.0)
    case Outcome => ElementSpec("Outcome", "outcome-node", 200.0, 60.0)
  }

  /** The key lookup `diarrheaElements[type]`: a kind is known exactly when it is one of the six keys. */
  function KindTag(kind: string): (r: Option<StyleTag>)
    ensures r.Some? ==> TagName(r.value) == kind
    ensures r.None? ==> forall tag: StyleTag :: TagName(tag) != kind
  {
    if kind == "presentation" then Some(Presentation)
    else if kind == "decision" then Some(Decision)
    else if kind == "pathway" then Some(Pathway)
    else if kind == "diagnostic" then Some(Diagnostic)
    else if kind == "treatment" then Some(Treatment)
    else if kind == "outcome" then Some(Outcome)
    else None
  }

  /** The visible part of the graph: the container's size and the view's scale and translation. */
  datatype Viewport = Viewport(width: real, height: real, scale: real, translateX: real, translateY: real)

  /** The graph point shown at the middle of the container, which the view draws at `(p + translate) * scale`. */
  function ViewCentre(v: Viewport): (p: Point)
    requires v.scale != 0.0
    ensures (p.x + v.translateX) * v.scale == v.width / 2.0
    ensures (p.y + v.translateY) * v.scale == v.height / 2.0
  {
    var p := Point((v.width / 2.0 - v.translateX * v.scale) / v.scale, (v.height / 2.0 - v.translateY * v.scale) / v.scale);
    UndoScale(v.width / 2.0, v.translateX, v.scale);
    UndoScale(v.height / 2.0, v.translateY, v.scale);
    p
  }

  lemma UndoScale(half: real, translate: real, scale: real)
    requires scale != 0.0
    ensures ((half - translate * scale) / scale + translate) * scale == half
  {
    var q := (half - translate * scale) / scale;
    assert q * scale == half - translate * scale;
    assert (q + translate) * scale == q * scale + translate * scale;
  }

  /** The vertex `addNode` inserts: the entry's label, style and size, its rectangle centred on `centre`. */
  function NewVertex(id: string, spec: ElementSpec, centre: Point): (v: Cell)
    ensures v.Vertex? && v.id == id && v.value == Some(spec.caption) && v.style == Some(spec.style)
    ensures v.geometry.Some? && v.geometry.value.width == spec.width && v.geometry.value.height == spec.height
    ensures Centre(v.geometry.value) == centre
  {
    Vertex(id, Some(spec.caption), Some(spec.style),
           Some(Rect(centre.x - spec.width / 2.0, centre.y - spec.height / 2.0, spec.width, spec.height)))
  }

  /** A node added from the palette is drawn in its kind's colours, as a diamond exactly when it is a decision. */
  lemma NewNodeDrawing(tag: StyleTag, id: string, centre: Point, t: Transform)
    ensures var n := NodeOf(NewVertex(id, ElementSpecOf(tag), centre));
      && (NodeShape(n, t).Diamond? <==> tag == Decision)
      && NodeShape(n, t).fill == TagPalette(tag).fill && NodeShape(n, t).stroke == TagPalette(tag).stroke
  {
    KindDrawing(NodeOf(NewVertex(id, ElementSpecOf(tag), centre)), tag, t);
  }

  // ---------------------------------------------------------------------------
  // The editor
  // ---------------------------------------------------------------------------

  class DiagramEditor {
    /** `mxGraphInstance`, as the children of its default parent; `None` before the graph exists. */
    var graph: Option<seq<Cell>>
    /** `currentDiagramData`: the last snapshot taken, `None` until one is. */
    var currentDiagramData: Option<Snapshot>

    /** Every vertex has a geometry, in the graph and in the snapshot (the renderer reads it). */
    ghost predicate Valid()
      reads this
    {
      (graph.Some? ==> CellsPlaced(graph.value))
      && (currentDiagramData.Some? ==> AllPlaced(currentDiagramData.value.nodes))
    }

    /** The snapshot describes the graph as it is now. */
    ghost predicate Synced()
      reads this
    {
      graph.Some? && currentDiagramData == Some(SnapshotOf(graph.value))
    }

    constructor(children: Option<seq<Cell>>)
      requires children.Some? ==> CellsPlaced(children.value)
      ensures Valid()
      ensures graph == children && currentDiagramData == None
    {
      graph := children;
      currentDiagramData := None;
    }

    /** `updateDiagramData`: without a graph nothing happens; otherwise the snapshot is retaken. */
    method UpdateDiagramData()
      requires Valid()
      modifies this
      ensures Valid()
      ensures graph == old(graph)
      ensures old(graph).None? ==> currentDiagramData == old(currentDiagramData)
      ensures old(graph).Some? ==> Synced()
    {
      if graph.None? {
        return;
      }
      var snapshot := CollectRecords(graph.value);
      SnapshotPlaced(graph.value);
      currentDiagramData := Some(snapshot);
    }

    /**
     * `addNode(type)`: an unknown kind, a missing graph or a missing container
     * changes nothing; otherwise the kind's vertex is inserted centred in the
     * visible area and the snapshot is retaken.
     */
    method AddNode(kind: string, container: Option<Viewport>, newId: string)
      requires Valid()
      requires container.Some? ==> container.value.scale != 0.0
      modifies this
      ensures Valid()
      ensures KindTag(kind).None? || old(graph).None? || container.None? ==>
                graph == old(graph) && currentDiagramData == old(currentDiagramData)
      ensures KindTag(kind).Some? && old(graph).Some? && container.Some? ==>
                && graph == Some(old(graph).value + [NewVertex(newId, ElementSpecOf(KindTag(kind).value), ViewCentre(container.value))])
                && Synced()
                && currentDiagramData.value.nodes == NodeRecords(old(graph).value) + [NodeOf(graph.value[|graph.value| - 1])]
                && currentDiagramData.value.edges == EdgeRecords(old(graph).value)
    {
      var tag := KindTag(kind);
      if tag.None? {
        return;
      }
      if graph.None? {
        return;
      }
      if container.None? {
        return;
      }
      var config := ElementSpecOf(tag.value);
      var view := container.value;
      var centerX := (view.width / 2.0 - view.translateX * view.scale) / view.scale;
      var centerY := (view.height / 2.0 - view.translateY * view.scale) / view.scale;
      var vertex := Vertex(newId, Some(config.caption), Some(config.style),
                           Some(Rect(centerX - config.width / 2.0, centerY - config.height / 2.0, config.width, config.height)));
      assert ViewCentre(view) == Point(centerX, centerY);
      assert vertex == NewVertex(newId, config, ViewCentre(view));
      AppendVertex(graph.value, vertex);
      graph := Some(graph.value + [vertex]);
      UpdateDiagramData();
    }

    /**
     * `showComparison`: the snapshot is retaken, then the student picture is
     * rendered when there is a container for it and a snapshot to draw.
     */
    method ShowComparison(studentContainer: bool) returns (student: Option<seq<Command>>)
      requires Valid()
      modifies this
      ensures Valid()
      ensures graph == old(graph)
      ensures old(graph).Some? ==> Synced()
      ensures old(graph).None? ==> currentDiagramData == old(currentDiagramData)
      ensures student.Some? <==> studentContainer && currentDiagramData.Some?
      ensures student.Some? ==> student.value == Rendering(currentDiagramData, "student")
    {
      UpdateDiagramData();
      if studentContainer && currentDiagramData.Some? {
        var picture := RenderDiagram(currentDiagramData, "student");
        student := Some(picture);
      } else {
        student := None;
      }
    }
  }
}
