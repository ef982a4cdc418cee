/**
 * The template the editor starts from (`loadDiarrheaTemplate`): the
 * presenting complaint, the duration decision and its acute and chronic
 * pathways, and the picture the comparison renderer draws for it.
 */
module Template {
  import opened Diagram
  import opened Styles
  import opened SnapshotBuilder
  import opened Layout
  import opened Render

  /** The labels of the template's nodes. */
  const PresentationLabel := "Dog with Diarrhea"
  const DurationLabel := "Duration of\nclinical signs?"
  const AcuteLabel := "Acute (< 3 weeks)"

  /** The fourth label as the source spells it: the UTF-8 bytes of `≥` read back as three Windows-1252 characters. */
  const ChronicLabel := "Chronic (\U{00E2}\U{2030}\U{00A5} 3 weeks)"

  const Chronic := Vertex("n4", Some(ChronicLabel), Some("pathway-node"), Some(Rect(520.0, 260.0, 180.0, 60.0)))
  const Acute := Vertex("n3", Some(AcuteLabel), Some("pathway-node"), Some(Rect(100.0, 260.0, 180.0, 60.0)))
  const Duration := Vertex("n2", Some(DurationLabel), Some("decision-node"), Some(Rect(320.0, 120.0, 180.0, 100.0)))
  const PresentationNode := Vertex("n1", Some(PresentationLabel), Some("presentation-node"), Some(Rect(300.0, 20.0, 200.0, 60.0)))

  /** The cells the template inserts, in insertion order. */
  const TemplateCells: seq<Cell> := [
    PresentationNode, Duration, Acute, Chronic,
    Edge("e1", Some(""), Some(PresentationNode), Some(Duration)),
    Edge("e2", Some("Acute"), Some(Duration), Some(Acute)),
    Edge("e3", Some("Chronic"), Some(Duration), Some(Chronic))
  ]

  const TemplateNodes := [NodeOf(PresentationNode), NodeOf(Duration), NodeOf(Acute), NodeOf(Chronic)]
  const TemplateEdges := [
    EdgeRecord("e1", Some("n1"), Some("n2"), Some("")),
    EdgeRecord("e2", Some("n2"), Some("n3"), Some("Acute")),
    EdgeRecord("e3", Some("n2"), Some("n4"), Some("Chronic"))]

  /** The template's records: its four nodes in order, and its three edges from the decision to the two pathways after the first. */
  lemma TemplateRecords()
    ensures NodeRecords(TemplateCells) == TemplateNodes
    ensures EdgeRecords(TemplateCells) == TemplateEdges
  {
    var s := TemplateCells;
    assert s[..1][..0] == s[..0] && s[..1][0] == s[0];
    assert NodeRecords(s[..1]) == [NodeOf(PresentationNode)];
    assert EdgeRecords(s[..1]) == [];
    assert s[..2][..1] == s[..1] && s[..2][1] == s[1];
    assert NodeRecords(s[..2]) == [NodeOf(PresentationNode), NodeOf(Duration)];
    assert EdgeRecords(s[..2]) == [];
    assert s[..3][..2] == s[..2] && s[..3][2] == s[2];
    assert NodeRecords(s[..3]) == [NodeOf(PresentationNode), NodeOf(Duration), NodeOf(Acute)];
    assert EdgeRecords(s[..3]) == [];
    assert s[..4][..3] == s[..3] && s[..4][3] == s[3];
    assert NodeRecords(s[..4]) == [NodeOf(PresentationNode), NodeOf(Duration), NodeOf(Acute), NodeOf(Chronic)];
    assert EdgeRecords(s[..4]) == [];
    assert s[..5][..4] == s[..4] && s[..5][4] == s[4];
    assert NodeRecords(s[..5]) == NodeRecords(s[..4]);
    assert EdgeRecords(s[..5]) == EdgeRecords(s[..4]) + [EdgeOf(s[4])];
    assert s[..6][..5] == s[..5] && s[..6][5] == s[5];
    assert NodeRecords(s[..6]) == NodeRecords(s[..4]);
    assert EdgeRecords(s[..6]) == EdgeRecords(s[..5]) + [EdgeOf(s[5])];
    assert s[..7][..6] == s[..6] && s[..7][6] == s[6];
    assert NodeRecords(s[..7]) == NodeRecords(s[..4]);
    assert EdgeRecords(s[..7]) == EdgeRecords(s[..6]) + [EdgeOf(s[6])];
    assert s[..7] == s;
  }

  /** The bounds of the template's nodes. */
  const TemplateBox := Box(100.0, 20.0, 700.0, 320.0)

  /** The template is 600 by 300 units: it is shrunk by 0.8 to fit 480 units across, and centred. */
  lemma TemplateFit()
    ensures Bounds(TemplateNodes) == Some(TemplateBox)
    ensures Fit(TemplateBox) == Transform(0.8, -70.0, 39.0)
  {
    var ns := TemplateNodes;
    assert ns[..1][..0] == [] && ns[..2][..1] == ns[..1] && ns[..3][..2] == ns[..2] && ns[..4][..3] == ns[..3];
    assert Bounds(ns[..1]) == Some(Box(300.0, 20.0, 500.0, 80.0));
    assert Bounds(ns[..2]) == Some(Box(300.0, 20.0, 500.0, 220.0));
    assert Bounds(ns[..3]) == Some(Box(100.0, 20.0, 500.0, 320.0));
    assert ns[..4] == ns;
    assert Scale(600.0, 300.0) == 0.8;
  }

  /** The node map of the template: each id finds its own node. */
  lemma TemplateNodeMap()
    ensures NodeMap(TemplateNodes) == map["n1" := NodeOf(PresentationNode), "n2" := NodeOf(Duration), "n3" := NodeOf(Acute), "n4" := NodeOf(Chronic)]
  {
    var ns := TemplateNodes;
    assert ns[..1][..0] == [] && ns[..2][..1] == ns[..1] && ns[..3][..2] == ns[..2] && ns[..4][..3] == ns[..3];
    assert NodeMap(ns[..1]) == map["n1" := NodeOf(PresentationNode)];
    assert NodeMap(ns[..2]) == map["n1" := NodeOf(PresentationNode), "n2" := NodeOf(Duration)];
    assert NodeMap(ns[..3]) == map["n1" := NodeOf(PresentationNode), "n2" := NodeOf(Duration), "n3" := NodeOf(Acute)];
    assert ns[..4] == ns;
  }

  /** Where the template's nodes are drawn. */
  const TemplateTransform := Transform(0.8, -70.0, 39.0)

  /**
   * The three template edges are drawn in order, between the centres of their
   * nodes as placed: the presentation at (250, 79), the decision at (258, 175),
   * the two pathways at (82, 271) and (418, 271).
   */
  lemma TemplateLines()
    ensures AllPlaced(TemplateNodes)
    ensures EdgeCommands(TemplateEdges, NodeMap(TemplateNodes), TemplateTransform, "arrowhead-student")
            == [Line(Point(250.0, 79.0), Point(258.0, 175.0), "arrowhead-student"),
                Line(Point(258.0, 175.0), Point(82.0, 271.0), "arrowhead-student"),
                Line(Point(258.0, 175.0), Point(418.0, 271.0), "arrowhead-student")]
  {
    TemplateNodeMap();
    var es := TemplateEdges;
    var m := NodeMap(TemplateNodes);
    var t := TemplateTransform;
    var marker := "arrowhead-student";
    assert Anchor(t, PresentationNode.geometry.value) == Point(250.0, 79.0);
    assert Anchor(t, Duration.geometry.value) == Point(258.0, 175.0);
    assert Anchor(t, Acute.geometry.value) == Point(82.0, 271.0);
    assert Anchor(t, Chronic.geometry.value) == Point(418.0, 271.0);
    assert es[..1][..0] == [] && es[..2][..1] == es[..1] && es[..3][..2] == es[..2];
    assert EdgeCommands(es[..1], m, t, marker) == [Line(Point(250.0, 79.0), Point(258.0, 175.0), marker)];
    assert EdgeCommands(es[..2], m, t, marker) == [Line(Point(250.0, 79.0), Point(258.0, 175.0), marker),
                                                   Line(Point(258.0, 175.0), Point(82.0, 271.0), marker)];
    assert es[..3] == es;
  }

  /**
   * The shapes and labels of the template's nodes: the presentation and the two
   * pathways are rounded rectangles and the duration question a diamond, each
   * in its kind's colours and followed by its own label at its centre.
   */
  lemma TemplateShapes(ns: seq<NodeRecord>, t: Transform)
    requires |ns| == 4 && ns[0] == NodeOf(PresentationNode) && ns[1] == NodeOf(Duration)
    requires ns[2] == NodeOf(Acute) && ns[3] == NodeOf(Chronic) && t == TemplateTransform
    ensures AllPlaced(ns)
    ensures var cmds := NodeCommands(ns, t);
      && |cmds| == 8
      && cmds[0] == RoundRect(Rect(170.0, 55.0, 160.0, 48.0), 5.0, PresentationPalette.fill, PresentationPalette.stroke)
      && cmds[1] == Text(Point(250.0, 79.0), PresentationLabel)
      && cmds[2].Diamond? && cmds[2].fill == DecisionPalette.fill && cmds[2].stroke == DecisionPalette.stroke
      && cmds[2].top == Point(258.0, 135.0) && cmds[2].right == Point(330.0, 175.0)
      && cmds[2].bottom == Point(258.0, 215.0) && cmds[2].left == Point(186.0, 175.0)
      && cmds[3] == Text(Point(258.0, 175.0), DurationLabel)
      && cmds[4] == RoundRect(Rect(10.0, 247.0, 144.0, 48.0), 5.0, PathwayPalette.fill, PathwayPalette.stroke)
      && cmds[5] == Text(Point(82.0, 271.0), AcuteLabel)
      && cmds[6] == RoundRect(Rect(346.0, 247.0, 144.0, 48.0), 5.0, PathwayPalette.fill, PathwayPalette.stroke)
      && cmds[7] == Text(Point(418.0, 271.0), ChronicLabel)
  {
    FirstNodeDrawn(ns, t);
    SecondNodeDrawn(ns, t);
    PathwayNodeDrawn(ns, t, 2, Rect(10.0, 247.0, 144.0, 48.0), Point(82.0, 271.0), AcuteLabel);
    PathwayNodeDrawn(ns, t, 3, Rect(346.0, 247.0, 144.0, 48.0), Point(418.0, 271.0), ChronicLabel);
  }

  /** The first two commands of the node loop over the template's nodes: the presentation's rectangle and label. */
  lemma FirstNodeDrawn(ns: seq<NodeRecord>, t: Transform)
    requires |ns| == 4 && ns[0] == NodeOf(PresentationNode) && AllPlaced(ns) && t == TemplateTransform
    ensures |NodeCommands(ns, t)| == 8
    ensures NodeCommands(ns, t)[0] == RoundRect(Rect(170.0, 55.0, 160.0, 48.0), 5.0, PresentationPalette.fill, PresentationPalette.stroke)
    ensures NodeCommands(ns, t)[1] == Text(Point(250.0, 79.0), PresentationLabel)
  {
    NodeCommandsAt(ns, t, 0);
    assert NodeCommands(ns, t)[1] == Text(Centre(Place(t, ns[0].geometry.value)), Label(ns[0].value));
    PresentationDrawn(ns[0], t);
  }

  /** The third and fourth commands of the node loop over the template's nodes: the duration diamond and its label. */
  lemma SecondNodeDrawn(ns: seq<NodeRecord>, t: Transform)
    requires |ns| == 4 && ns[1] == NodeOf(Duration) && AllPlaced(ns) && t == TemplateTransform
    ensures |NodeCommands(ns, t)| == 8
    ensures var c := NodeCommands(ns, t)[2];
      && c.Diamond? && c.fill == DecisionPalette.fill && c.stroke == DecisionPalette.stroke
      && c.top == Point(258.0, 135.0) && c.right == Point(330.0, 175.0)
      && c.bottom == Point(258.0, 215.0) && c.left == Point(186.0, 175.0)
    ensures NodeCommands(ns, t)[3] == Text(Point(258.0, 175.0), DurationLabel)
  {
    NodeCommandsAt(ns, t, 1);
    DurationDrawn(ns[1], t);
  }

  /** The commands of the node loop for a pathway node placed at `r`: its rounded rectangle, then its label at the centre of `r`. */
  lemma PathwayNodeDrawn(ns: seq<NodeRecord>, t: Transform, k: int, r: Rect, at: Point, text: string)
    requires AllPlaced(ns) && 0 <= k < |ns| && t == TemplateTransform
    requires ns[k].style == Some("pathway-node") && ns[k].value == Some(text)
    requires Place(t, ns[k].geometry.value) == r && at == Point(r.x + r.width / 2.0, r.y + r.height / 2.0)
    ensures |NodeCommands(ns, t)| == 2 * |ns|
    ensures NodeCommands(ns, t)[2 * k] == RoundRect(r, 5.0, PathwayPalette.fill, PathwayPalette.stroke)
    ensures NodeCommands(ns, t)[2 * k + 1] == Text(at, text)
  {
    NodeCommandsAt(ns, t, k);
    PathwayDrawn(ns[k], t, r);
  }

  lemma PresentationDrawn(n: NodeRecord, t: Transform)
    requires n == NodeOf(PresentationNode) && t == TemplateTransform
    ensures NodeShape(n, t) == RoundRect(Rect(170.0, 55.0, 160.0, 48.0), 5.0, PresentationPalette.fill, PresentationPalette.stroke)
    ensures Centre(Place(t, n.geometry.value)) == Point(250.0, 79.0)
  {
    assert TagStyle(Presentation) == "presentation-node";
    KindDrawing(n, Presentation, t);
  }

  lemma DurationDrawn(n: NodeRecord, t: Transform)
    requires n == NodeOf(Duration) && t == TemplateTransform
    ensures var c := NodeShape(n, t);
      && c.Diamond? && c.fill == DecisionPalette.fill && c.stroke == DecisionPalette.stroke
      && c.top == Point(258.0, 135.0) && c.right == Point(330.0, 175.0)
      && c.bottom == Point(258.0, 215.0) && c.left == Point(186.0, 175.0)
    ensures Centre(Place(t, n.geometry.value)) == Point(258.0, 175.0)
  {
    assert TagStyle(Decision) == "decision-node";
    KindDrawing(n, Decision, t);
    assert Place(t, n.geometry.value) == Rect(186.0, 135.0, 144.0, 80.0);
  }

  lemma PathwayDrawn(n: NodeRecord, t: Transform, r: Rect)
    requires n.style == Some("pathway-node") && n.geometry.Some? && t == TemplateTransform && Place(t, n.geometry.value) == r
    ensures NodeShape(n, t) == RoundRect(r, 5.0, PathwayPalette.fill, PathwayPalette.stroke)
    ensures Centre(Place(t, n.geometry.value)) == Point(r.x + r.width / 2.0, r.y + r.height / 2.0)
  {
    assert TagStyle(Pathway) == "pathway-node";
    KindDrawing(n, Pathway, t);
  }

  /** The student picture of the template: the marker, the three lines, then each node's shape and label. */
  lemma TemplatePicture(ns: seq<NodeRecord>, es: seq<EdgeRecord>)
    requires ns == TemplateNodes && es == TemplateEdges
    ensures AllPlaced(ns)
    ensures Rendering(Some(Snapshot(ns, es)), "student")
            == [ArrowMarker("arrowhead-student")]
               + EdgeCommands(es, NodeMap(ns), TemplateTransform, "arrowhead-student")
               + NodeCommands(ns, TemplateTransform)
  {
    assert MarkerId("student") == "arrowhead-student";
    assert Bounds(ns) == Some(TemplateBox) && Fit(TemplateBox) == TemplateTransform by {
      TemplateFit();
    }
  }
}
